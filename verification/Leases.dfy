/**
 Project concurrency leases on top of the turn protocol. An acquisition is one transaction under an advisory
 lock, but its statements interleave with everything that does not take the lock: releases, acquisitions of
 other scopes, and all steps of the turn protocol. The lease id is the durable key of the turn, so whether the
 ON CONFLICT branch of the INSERT can fire is a question about the turn protocol.
 */
module Leases {
  import opened Prelude
  import opened TurnRecords
  import T = TurnProtocol

  type Scope = string

  datatype Lease = Lease(scope: Scope, expiresAt: int)

  datatype Request = Request(scope: Scope, limit: nat, expiresAt: int)

  /** A caller's progress through `acquire_project_concurrency_lease` and its release. */
  datatype Progress =
    | Locked(request: Request)
    | Purged(request: Request, now: int)
    | Counted(request: Request, now: int, active: nat)
    | Granted(request: Request)
    | Denied
    | Released
    | Aborted

  /** `lastPurge` records, per scope, the latest time at which a committed transaction removed expired rows. */
  datatype State = State(
    turns: T.State,
    leases: map<Key, Lease>,
    locks: map<int, T.CallerId>,
    progress: map<T.CallerId, Progress>,
    lastPurge: map<Scope, int>)

  const INITIAL := State(T.INITIAL, map[], map[], map[], map[])

  datatype Step =
    | Turn(step: T.Step)
    | Lock(c: T.CallerId, request: Request)
    | Purge(c: T.CallerId, now: int)
    | Count(c: T.CallerId)
    | Commit(c: T.CallerId)
    | Release(c: T.CallerId)

  function Rows(leases: map<Key, Lease>, scope: Scope): set<Key> {
    set id | id in leases && leases[id].scope == scope
  }

  function Live(leases: map<Key, Lease>, scope: Scope, now: int): set<Key> {
    set id | id in leases && leases[id].scope == scope && leases[id].expiresAt > now
  }

  predicate InTransaction(s: State, c: T.CallerId) {
    c in s.progress && (s.progress[c].Locked? || s.progress[c].Purged? || s.progress[c].Counted?)
  }

  /** DELETE ... WHERE scope_key = $1 AND expires_at_epoch_seconds <= $2. */
  function WithoutExpired(leases: map<Key, Lease>, scope: Scope, now: int): map<Key, Lease> {
    map id | id in leases && !(leases[id].scope == scope && leases[id].expiresAt <= now) :: leases[id]
  }

  /** INSERT ... ON CONFLICT (lease_id) DO UPDATE SET expires_at_epoch_seconds: an existing row keeps its scope. */
  function Upsert(leases: map<Key, Lease>, id: Key, lease: Lease): map<Key, Lease> {
    if id in leases then leases[id := leases[id].(expiresAt := lease.expiresAt)] else leases[id := lease]
  }

  function NotePurge(lastPurge: map<Scope, int>, scope: Scope, now: int): map<Scope, int> {
    if scope in lastPurge && lastPurge[scope] >= now then lastPurge else lastPurge[scope := now]
  }

  function DoCommit(s: State, c: T.CallerId, lockOf: Scope -> int): State
    requires c in s.progress && s.progress[c].Counted? && c in s.turns.callers
  {
    var Counted(request, now, active) := s.progress[c];
    var purged := WithoutExpired(s.leases, request.scope, now);
    var granted := active < request.limit;
    s.(leases := if granted
                 then Upsert(purged, s.turns.callers[c].key, Lease(request.scope, request.expiresAt))
                 else purged,
       progress := s.progress[c := if granted then Granted(request) else Denied],
       locks := s.locks - {lockOf(request.scope)},
       lastPurge := NotePurge(s.lastPurge, request.scope, now))
  }

  /** A process that ends rolls its open transactions back, which frees their locks. */
  function DoRestart(s: State, instance: T.Instance): State {
    var lost := set c | c in s.progress && InTransaction(s, c)
                        && c in s.turns.callers && s.turns.callers[c].instance == instance;
    s.(turns := T.DoRestart(s.turns, instance),
       progress := map c | c in s.progress :: if c in lost then Aborted else s.progress[c],
       locks := map l | l in s.locks && s.locks[l] !in lost :: s.locks[l])
  }

  /** Neither the end of an execution nor a cancellation can fall inside a (synchronous) transaction. */
  function Apply(backend: Backend, lockOf: Scope -> int, s: State, step: Step): State {
    match step
    case Turn(Restart(instance)) => DoRestart(s, instance)
    case Turn(t) =>
      if (t.Finish? || t.Cancel?) && InTransaction(s, t.c) then s
      else s.(turns := T.Apply(backend, s.turns, t))
    case Lock(c, request) =>
      if c in s.turns.callers && s.turns.callers[c].phase.Executing? && c !in s.progress
         && request.limit > 0 && lockOf(request.scope) !in s.locks
      then s.(locks := s.locks[lockOf(request.scope) := c], progress := s.progress[c := Locked(request)])
      else s
    case Purge(c, now) =>
      if c in s.progress && s.progress[c].Locked?
      then s.(progress := s.progress[c := Purged(s.progress[c].request, now)])
      else s
    case Count(c) =>
      if c in s.progress && s.progress[c].Purged?
      then var Purged(request, now) := s.progress[c];
           s.(progress := s.progress[c := Counted(request, now, |Live(s.leases, request.scope, now)|)])
      else s
    case Commit(c) =>
      if c in s.progress && s.progress[c].Counted? && c in s.turns.callers then DoCommit(s, c, lockOf) else s
    case Release(c) =>
      if c in s.progress && s.progress[c].Granted? && c in s.turns.callers && s.turns.callers[c].phase.Executing?
      then s.(leases := s.leases - {s.turns.callers[c].key}, progress := s.progress[c := Released])
      else s
  }

  function Run(backend: Backend, lockOf: Scope -> int, s: State, steps: seq<Step>): State {
    if steps == [] then s
    else Apply(backend, lockOf, Run(backend, lockOf, s, steps[..|steps| - 1]), steps[|steps| - 1])
  }

  /** The store object, whose acquisition runs the four statements back to back. */
  class LeaseStore {
    var leases: map<Key, Lease>

    constructor ()
      ensures leases == map[]
    {
      leases := map[];
    }

    method Acquire(scope: Scope, id: Key, limit: nat, expiresAt: int, now: int) returns (granted: bool)
      modifies this
      ensures granted <==> |Live(old(leases), scope, now)| < limit
      ensures leases == if granted then Upsert(WithoutExpired(old(leases), scope, now), id, Lease(scope, expiresAt))
                        else WithoutExpired(old(leases), scope, now)
      ensures id !in old(leases) ==> |Rows(leases, scope)| == |Live(old(leases), scope, now)| + if granted then 1 else 0
    {
      ghost var live := Live(leases, scope, now);
      leases := WithoutExpired(leases, scope, now);
      assert Rows(leases, scope) == live;
      var active := |set row | row in leases && leases[row].scope == scope|;
      if active >= limit {
        return false;
      }
      leases := Upsert(leases, id, Lease(scope, expiresAt));
      assert id !in old(leases) ==> Rows(leases, scope) == live + {id};
      granted := true;
    }

    method Release(id: Key)
      modifies this
      ensures leases == old(leases) - {id}
    {
      leases := leases - {id};
    }
  }

  // ----- Invariant -----

  predicate HasRequest(p: Progress) {
    p.Locked? || p.Purged? || p.Counted? || p.Granted?
  }

  /** The caller is executing, or has executed, the turn of its key. */
  predicate Owns(s: State, c: T.CallerId) {
    c in s.turns.callers && s.turns.callers[c].key in s.turns.owners
    && s.turns.owners[s.turns.callers[c].key] == c
  }

  predicate ProgressOk(s: State, lockOf: Scope -> int, c: T.CallerId)
    requires c in s.progress
  {
    var p := s.progress[c];
    && Owns(s, c)
    && (InTransaction(s, c) ==>
          && s.turns.callers[c].phase.Executing?
          && lockOf(p.request.scope) in s.locks && s.locks[lockOf(p.request.scope)] == c
          && s.turns.callers[c].key !in s.leases)
    && (p.Counted? ==> |Live(s.leases, p.request.scope, p.now)| <= p.active)
    && (p.Granted? ==>
          var id := s.turns.callers[c].key;
          || id in s.leases
          || (p.request.scope in s.lastPurge && p.request.expiresAt <= s.lastPurge[p.request.scope]))
  }

  predicate LeaseOk(s: State, id: Key)
    requires id in s.leases
  {
    && id in s.turns.owners && s.turns.owners[id] in s.progress
    && s.progress[s.turns.owners[id]].Granted?
    && s.leases[id] == Lease(s.progress[s.turns.owners[id]].request.scope,
                             s.progress[s.turns.owners[id]].request.expiresAt)
  }

  predicate LockOk(s: State, lockOf: Scope -> int, l: int)
    requires l in s.locks
  {
    InTransaction(s, s.locks[l]) && lockOf(s.progress[s.locks[l]].request.scope) == l
  }

  predicate Inv(s: State, lockOf: Scope -> int) {
    && T.Inv(s.turns)
    && (forall c {:trigger ProgressOk(s, lockOf, c)} :: c in s.progress ==> ProgressOk(s, lockOf, c))
    && (forall id {:trigger LeaseOk(s, id)} :: id in s.leases ==> LeaseOk(s, id))
    && (forall l {:trigger LockOk(s, lockOf, l)} :: l in s.locks ==> LockOk(s, lockOf, l))
  }

  // ----- What the turn protocol guarantees to the leases -----

  /** Steps of one caller never touch another: identities are fixed, and only its own steps end an execution. */
  lemma TurnStepFrame(backend: Backend, s: T.State, t: T.Step, c: T.CallerId)
    requires c in s.callers && !t.Restart?
    ensures var s' := T.Apply(backend, s, t);
            && c in s'.callers && s'.callers[c].key == s.callers[c].key
            && s'.callers[c].instance == s.callers[c].instance
            && (s.callers[c].phase.Executing? && t != T.Cancel(c) && !(t.Finish? && t.c == c)
                ==> s'.callers[c].phase.Executing?)
  {
    if t.c != c || t.Arrive? {
      T.OthersStay(backend, s, t, c);
    } else {
      T.ActorMoves(backend, s, t);
      if !t.Finish? && !t.Cancel? {
        ExecutingStays(backend, s, t);
      }
    }
  }

  lemma ExecutingStays(backend: Backend, s: T.State, t: T.Step)
    requires !t.Restart? && !t.Finish? && !t.Cancel? && !t.Arrive?
    ensures t.c in s.callers && s.callers[t.c].phase.Executing? ==> T.Apply(backend, s, t) == s
  {
  }

  /** Owners are never replaced. */
  lemma TurnStepKeepsOwners(backend: Backend, s: T.State, t: T.Step, key: Key)
    requires T.Inv(s) && key in s.owners
    ensures var s' := T.Apply(backend, s, t); key in s'.owners && s'.owners[key] == s.owners[key]
  {
    assert T.OwnerOk(s, key);
    if !t.Insert? {
      NoNewOwner(backend, s, t);
    }
  }

  lemma NoNewOwner(backend: Backend, s: T.State, t: T.Step)
    requires !t.Insert?
    ensures T.Apply(backend, s, t).owners == s.owners
  {
    if t.Claim? || t.Publish? || t.Signal? || t.Cancel? || t.Restart? {
      T.LoudStepsKeepOwners(backend, s, t);
    } else {
      T.QuietSteps(backend, s, t);
    }
  }

  lemma SubsetCardinality<A>(a: set<A>, b: set<A>)
    requires a <= b
    ensures |a| <= |b|
  {
    assert b == a + (b - a);
  }

  lemma TurnKeepsInv(backend: Backend, lockOf: Scope -> int, s: State, t: T.Step)
    requires Inv(s, lockOf) && !t.Restart?
    requires !((t.Finish? || t.Cancel?) && InTransaction(s, t.c))
    ensures Inv(s.(turns := T.Apply(backend, s.turns, t)), lockOf)
  {
    var s' := s.(turns := T.Apply(backend, s.turns, t));
    T.StepKeepsInv(backend, s.turns, t);
    forall c | c in s'.progress ensures ProgressOk(s', lockOf, c) {
      assert ProgressOk(s, lockOf, c);
      TurnStepFrame(backend, s.turns, t, c);
      TurnStepKeepsOwners(backend, s.turns, t, s.turns.callers[c].key);
    }
    forall id | id in s'.leases ensures LeaseOk(s', id) {
      assert LeaseOk(s, id);
      TurnStepKeepsOwners(backend, s.turns, t, id);
    }
    forall l | l in s'.locks ensures LockOk(s', lockOf, l) {
      assert LockOk(s, lockOf, l);
    }
  }

  lemma RestartKeepsInv(lockOf: Scope -> int, s: State, instance: T.Instance)
    requires Inv(s, lockOf)
    ensures Inv(DoRestart(s, instance), lockOf)
  {
    var s' := DoRestart(s, instance);
    T.RestartKeepsInv(s.turns, instance);
    forall c | c in s'.progress ensures ProgressOk(s', lockOf, c) {
      assert ProgressOk(s, lockOf, c);
    }
    forall id | id in s'.leases ensures LeaseOk(s', id) {
      assert LeaseOk(s, id);
      assert ProgressOk(s, lockOf, s.turns.owners[id]);
    }
    forall l | l in s'.locks ensures LockOk(s', lockOf, l) {
      assert LockOk(s, lockOf, l);
      assert ProgressOk(s, lockOf, s.locks[l]);
    }
  }

  /** A caller that has not been granted a lease has no row: at most once per key means at most one INSERT per id. */
  lemma NoRowBeforeGrant(s: State, c: T.CallerId)
    requires (forall id {:trigger LeaseOk(s, id)} :: id in s.leases ==> LeaseOk(s, id)) && Owns(s, c)
    requires c in s.progress ==> !s.progress[c].Granted?
    ensures s.turns.callers[c].key !in s.leases
  {
    var id := s.turns.callers[c].key;
    assert id in s.leases ==> LeaseOk(s, id);
  }

  lemma LockKeepsInv(backend: Backend, lockOf: Scope -> int, s: State, c: T.CallerId, request: Request)
    requires Inv(s, lockOf)
    ensures Inv(Apply(backend, lockOf, s, Lock(c, request)), lockOf)
  {
    var s' := Apply(backend, lockOf, s, Lock(c, request));
    if s' != s {
      assert T.CallerOk(s.turns, c);
      NoRowBeforeGrant(s, c);
      forall x | x in s'.progress ensures ProgressOk(s', lockOf, x) {
        assert x != c ==> ProgressOk(s, lockOf, x);
      }
      forall id | id in s'.leases ensures LeaseOk(s', id) {
        assert LeaseOk(s, id);
      }
      forall l | l in s'.locks ensures LockOk(s', lockOf, l) {
        assert l in s.locks ==> LockOk(s, lockOf, l);
      }
    }
  }

  lemma ReadKeepsInv(backend: Backend, lockOf: Scope -> int, s: State, step: Step)
    requires Inv(s, lockOf) && (step.Purge? || step.Count?)
    ensures Inv(Apply(backend, lockOf, s, step), lockOf)
  {
    var s' := Apply(backend, lockOf, s, step);
    if s' != s {
      forall x | x in s'.progress ensures ProgressOk(s', lockOf, x) {
        assert ProgressOk(s, lockOf, x);
      }
      forall id | id in s'.leases ensures LeaseOk(s', id) {
        assert LeaseOk(s, id);
      }
      forall l | l in s'.locks ensures LockOk(s', lockOf, l) {
        assert LockOk(s, lockOf, l);
      }
    }
  }

  lemma CommitKeepsInv(lockOf: Scope -> int, s: State, c: T.CallerId)
    requires Inv(s, lockOf)
    requires c in s.progress && s.progress[c].Counted? && c in s.turns.callers
    ensures Inv(DoCommit(s, c, lockOf), lockOf)
  {
    var s' := DoCommit(s, c, lockOf);
    var Counted(request, now, active) := s.progress[c];
    var key := s.turns.callers[c].key;
    assert ProgressOk(s, lockOf, c);
    forall x | x in s'.progress ensures ProgressOk(s', lockOf, x) {
      assert ProgressOk(s, lockOf, x);
      if x != c && s.progress[x].Counted? {
        assert s.progress[x].request.scope != request.scope;
        assert Live(s'.leases, s.progress[x].request.scope, s.progress[x].now)
            == Live(s.leases, s.progress[x].request.scope, s.progress[x].now);
      }
      if x != c && s.progress[x].Granted? && s.turns.callers[x].key in s.leases {
        assert LeaseOk(s, s.turns.callers[x].key);
      }
    }
    forall id | id in s'.leases ensures LeaseOk(s', id) {
      if id != key {
        assert LeaseOk(s, id);
      }
    }
    forall l | l in s'.locks ensures LockOk(s', lockOf, l) {
      assert LockOk(s, lockOf, l);
    }
  }

  lemma ReleaseKeepsInv(lockOf: Scope -> int, s: State, c: T.CallerId)
    requires Inv(s, lockOf)
    requires c in s.progress && s.progress[c].Granted? && c in s.turns.callers
    ensures Inv(s.(leases := s.leases - {s.turns.callers[c].key}, progress := s.progress[c := Released]), lockOf)
  {
    var s' := s.(leases := s.leases - {s.turns.callers[c].key}, progress := s.progress[c := Released]);
    forall x | x in s'.progress ensures ProgressOk(s', lockOf, x) {
      assert ProgressOk(s, lockOf, x) && ProgressOk(s, lockOf, c);
      if x != c && s.progress[x].Counted? {
        SubsetCardinality(Live(s'.leases, s.progress[x].request.scope, s.progress[x].now),
                          Live(s.leases, s.progress[x].request.scope, s.progress[x].now));
      }
    }
    forall id | id in s'.leases ensures LeaseOk(s', id) {
      assert LeaseOk(s, id);
      assert T.OwnerOk(s.turns, id);
    }
    forall l | l in s'.locks ensures LockOk(s', lockOf, l) {
      assert LockOk(s, lockOf, l);
    }
  }

  lemma StepKeepsInv(backend: Backend, lockOf: Scope -> int, s: State, step: Step)
    requires Inv(s, lockOf)
    ensures Inv(Apply(backend, lockOf, s, step), lockOf)
  {
    match step
    case Turn(t) =>
      if t.Restart? {
        RestartKeepsInv(lockOf, s, t.instance);
      } else if !((t.Finish? || t.Cancel?) && InTransaction(s, t.c)) {
        TurnKeepsInv(backend, lockOf, s, t);
      }
    case Lock(c, request) => LockKeepsInv(backend, lockOf, s, c, request);
    case Purge(_, _) => ReadKeepsInv(backend, lockOf, s, step);
    case Count(_) => ReadKeepsInv(backend, lockOf, s, step);
    case Commit(c) =>
      if c in s.progress && s.progress[c].Counted? && c in s.turns.callers {
        CommitKeepsInv(lockOf, s, c);
      }
    case Release(c) =>
      if c in s.progress && s.progress[c].Granted? && c in s.turns.callers && s.turns.callers[c].phase.Executing? {
        ReleaseKeepsInv(lockOf, s, c);
      }
  }

  lemma {:induction false} RunKeepsInv(backend: Backend, lockOf: Scope -> int, steps: seq<Step>)
    ensures Inv(Run(backend, lockOf, INITIAL, steps), lockOf)
  {
    if steps != [] {
      RunKeepsInv(backend, lockOf, steps[..|steps| - 1]);
      StepKeepsInv(backend, lockOf, Run(backend, lockOf, INITIAL, steps[..|steps| - 1]), steps[|steps| - 1]);
    }
  }

  // ----- Theorems -----

  /** Every acquisition of the scope in this run asks for at most `bound`. */
  predicate LimitsWithin(steps: seq<Step>, scope: Scope, bound: nat) {
    forall step :: step in steps && step.Lock? && step.request.scope == scope ==> step.request.limit <= bound
  }

  predicate RequestsWithin(s: State, scope: Scope, bound: nat) {
    forall c :: c in s.progress && HasRequest(s.progress[c]) && s.progress[c].request.scope == scope
      ==> s.progress[c].request.limit <= bound
  }

  lemma CommitKeepsBound(lockOf: Scope -> int, s: State, c: T.CallerId, scope: Scope, bound: nat)
    requires Inv(s, lockOf)
    requires c in s.progress && s.progress[c].Counted? && c in s.turns.callers
    requires |Rows(s.leases, scope)| <= bound && RequestsWithin(s, scope, bound)
    ensures |Rows(DoCommit(s, c, lockOf).leases, scope)| <= bound
  {
    var s' := DoCommit(s, c, lockOf);
    var Counted(request, now, active) := s.progress[c];
    var key := s.turns.callers[c].key;
    assert ProgressOk(s, lockOf, c);
    if scope != request.scope {
      assert Rows(s'.leases, scope) == Rows(s.leases, scope);
    } else if active < request.limit {
      assert Rows(s'.leases, scope) == Live(s.leases, scope, now) + {key};
    } else {
      SubsetCardinality(Rows(s'.leases, scope), Rows(s.leases, scope));
    }
  }

  lemma StepKeepsBound(backend: Backend, lockOf: Scope -> int, s: State, step: Step, scope: Scope, bound: nat)
    requires Inv(s, lockOf)
    requires |Rows(s.leases, scope)| <= bound && RequestsWithin(s, scope, bound)
    requires step.Lock? && step.request.scope == scope ==> step.request.limit <= bound
    ensures var s' := Apply(backend, lockOf, s, step);
            |Rows(s'.leases, scope)| <= bound && RequestsWithin(s', scope, bound)
  {
    var s' := Apply(backend, lockOf, s, step);
    match step
    case Commit(c) =>
      if c in s.progress && s.progress[c].Counted? && c in s.turns.callers {
        CommitKeepsBound(lockOf, s, c, scope, bound);
      }
    case _ =>
      OthersAddNoRows(backend, lockOf, s, step);
      SubsetCardinality(Rows(s'.leases, scope), Rows(s.leases, scope));
  }

  lemma OthersAddNoRows(backend: Backend, lockOf: Scope -> int, s: State, step: Step)
    requires !step.Commit?
    ensures forall id :: id in Apply(backend, lockOf, s, step).leases ==>
              id in s.leases && Apply(backend, lockOf, s, step).leases[id] == s.leases[id]
  {
  }

  lemma {:induction false} RunKeepsBound(
    backend: Backend, lockOf: Scope -> int, steps: seq<Step>, scope: Scope, bound: nat)
    requires LimitsWithin(steps, scope, bound)
    ensures var s := Run(backend, lockOf, INITIAL, steps);
            |Rows(s.leases, scope)| <= bound && RequestsWithin(s, scope, bound)
  {
    if steps != [] {
      RunKeepsBound(backend, lockOf, steps[..|steps| - 1], scope, bound);
      RunKeepsInv(backend, lockOf, steps[..|steps| - 1]);
      var before := Run(backend, lockOf, INITIAL, steps[..|steps| - 1]);
      StepKeepsBound(backend, lockOf, before, steps[|steps| - 1], scope, bound);
    }
  }

  /**
   The lease bound: in every interleaving, for every hash function behind the advisory lock, a scope never holds
   more rows than the largest limit its acquisitions ask for.
   */
  lemma ScopeNeverExceedsItsLimit(
    backend: Backend, lockOf: Scope -> int, steps: seq<Step>, scope: Scope, limit: nat)
    requires LimitsWithin(steps, scope, limit)
    ensures |Rows(Run(backend, lockOf, INITIAL, steps).leases, scope)| <= limit
  {
    RunKeepsBound(backend, lockOf, steps, scope, limit);
  }

  /** The ON CONFLICT branch never fires: the id is absent whenever an acquisition is about to insert. */
  lemma InsertNeverConflicts(backend: Backend, lockOf: Scope -> int, steps: seq<Step>, c: T.CallerId)
    requires var s := Run(backend, lockOf, INITIAL, steps); c in s.progress && s.progress[c].Counted?
    ensures var s := Run(backend, lockOf, INITIAL, steps);
            && c in s.turns.callers && s.turns.callers[c].key !in s.leases
            && s.turns.callers[c].key !in WithoutExpired(s.leases, s.progress[c].request.scope, s.progress[c].now)
  {
    RunKeepsInv(backend, lockOf, steps);
    assert ProgressOk(Run(backend, lockOf, INITIAL, steps), lockOf, c);
  }

  /**
   A granted lease stays its owner's, with the scope and expiry it asked for, until it is released or a
   transaction of its scope runs at or after its expiry; and no two grants ever share a row.
   */
  lemma GrantedLeaseIsOwned(backend: Backend, lockOf: Scope -> int, steps: seq<Step>, c: T.CallerId, d: T.CallerId)
    requires var s := Run(backend, lockOf, INITIAL, steps);
             c in s.progress && s.progress[c].Granted? && d in s.progress && s.progress[d].Granted?
    ensures var s := Run(backend, lockOf, INITIAL, steps);
            var request := s.progress[c].request;
            && c in s.turns.callers && d in s.turns.callers
            && (c != d ==> s.turns.callers[c].key != s.turns.callers[d].key)
            && (|| (s.turns.callers[c].key in s.leases
                    && s.leases[s.turns.callers[c].key] == Lease(request.scope, request.expiresAt))
                || (request.scope in s.lastPurge && request.expiresAt <= s.lastPurge[request.scope]))
  {
    var s := Run(backend, lockOf, INITIAL, steps);
    RunKeepsInv(backend, lockOf, steps);
    assert ProgressOk(s, lockOf, c) && ProgressOk(s, lockOf, d);
    if s.turns.callers[c].key in s.leases {
      assert LeaseOk(s, s.turns.callers[c].key);
    }
  }

  // ----- A transaction on its own -----

  /** The statements of an acquisition, one after the other. */
  function Acquires(c: T.CallerId, request: Request, now: int): seq<Step> {
    [] + [Lock(c, request)] + [Purge(c, now)] + [Count(c)] + [Commit(c)]
  }

  lemma RunOneMore(backend: Backend, lockOf: Scope -> int, s: State, steps: seq<Step>, step: Step)
    ensures Run(backend, lockOf, s, steps + [step]) == Apply(backend, lockOf, Run(backend, lockOf, s, steps), step)
  {
    assert (steps + [step])[..|steps|] == steps;
  }

  /** What an acquisition leaves in the table: no expired row of its scope, and its own row if there was room. */
  ghost predicate Acquired(before: map<Key, Lease>, after: map<Key, Lease>, request: Request, id: Key, now: int) {
    && (forall x :: x in after <==>
          || (x == id && |Live(before, request.scope, now)| < request.limit)
          || (x in before && !(before[x].scope == request.scope && before[x].expiresAt <= now)))
    && (forall x :: x in after && x != id ==> x in before && after[x] == before[x])
    && (id in after && id !in before ==> after[id] == Lease(request.scope, request.expiresAt))
  }

  /**
   Undisturbed, a transaction does what the store's operation promises: it is granted exactly if fewer unexpired leases
   than the limit are there, and frees its lock; nothing of the turn changes.
   */
  lemma UndisturbedAcquisition(
    backend: Backend, lockOf: Scope -> int, s: State, c: T.CallerId, request: Request, now: int)
    requires c in s.turns.callers && s.turns.callers[c].phase.Executing? && c !in s.progress
    requires request.limit > 0 && lockOf(request.scope) !in s.locks
    requires s.turns.callers[c].key !in s.leases
    ensures var s' := Run(backend, lockOf, s, Acquires(c, request, now));
            && s'.turns == s.turns && s'.locks == s.locks
            && s'.progress == s.progress[c := if |set id | id in s.leases && s.leases[id].scope == request.scope
                                                           && s.leases[id].expiresAt > now| < request.limit
                                              then Granted(request) else Denied]
            && Acquired(s.leases, s'.leases, request, s.turns.callers[c].key, now)
  {
    ReachesCount(backend, lockOf, s, c, request, now);
    var counted := s.(locks := s.locks[lockOf(request.scope) := c],
                      progress := s.progress[c := Counted(request, now, |Live(s.leases, request.scope, now)|)]);
    RunOneMore(backend, lockOf, s, [] + [Lock(c, request)] + [Purge(c, now)] + [Count(c)], Commit(c));
    assert Run(backend, lockOf, s, Acquires(c, request, now)) == DoCommit(counted, c, lockOf);
    CommitAcquires(s, c, request, now, lockOf);
    LocksAsBefore(s.locks, lockOf(request.scope), c);
    assert Live(s.leases, request.scope, now)
        == set id | id in s.leases && s.leases[id].scope == request.scope && s.leases[id].expiresAt > now;
  }

  lemma LocksAsBefore(locks: map<int, T.CallerId>, l: int, c: T.CallerId)
    requires l !in locks
    ensures locks[l := c] - {l} == locks
  {
  }

  lemma ReachesCount(
    backend: Backend, lockOf: Scope -> int, s: State, c: T.CallerId, request: Request, now: int)
    requires c in s.turns.callers && s.turns.callers[c].phase.Executing? && c !in s.progress
    requires request.limit > 0 && lockOf(request.scope) !in s.locks
    ensures Run(backend, lockOf, s, [] + [Lock(c, request)] + [Purge(c, now)] + [Count(c)])
         == s.(locks := s.locks[lockOf(request.scope) := c],
               progress := s.progress[c := Counted(request, now, |Live(s.leases, request.scope, now)|)])
  {
    var steps: seq<Step> := [];
    RunOneMore(backend, lockOf, s, steps, Lock(c, request));
    steps := steps + [Lock(c, request)];
    RunOneMore(backend, lockOf, s, steps, Purge(c, now));
    steps := steps + [Purge(c, now)];
    RunOneMore(backend, lockOf, s, steps, Count(c));
  }

  lemma CommitAcquires(s: State, c: T.CallerId, request: Request, now: int, lockOf: Scope -> int)
    requires c in s.turns.callers && s.turns.callers[c].key !in s.leases
    ensures var active := |Live(s.leases, request.scope, now)|;
            var l := lockOf(request.scope);
            var counted := s.(locks := s.locks[l := c], progress := s.progress[c := Counted(request, now, active)]);
            var s' := DoCommit(counted, c, lockOf);
            && s'.turns == s.turns && s'.locks == s.locks[l := c] - {l}
            && s'.progress == s.progress[c := if active < request.limit then Granted(request) else Denied]
            && Acquired(s.leases, s'.leases, request, s.turns.callers[c].key, now)
  {
  }

  /** A turn gives exactly its own lease back, while it executes. */
  lemma ReleasesItsOwnLease(backend: Backend, lockOf: Scope -> int, s: State, c: T.CallerId)
    requires c in s.progress && s.progress[c].Granted? && c in s.turns.callers && s.turns.callers[c].phase.Executing?
    ensures var s' := Apply(backend, lockOf, s, Release(c));
            && s'.turns == s.turns && s'.locks == s.locks && s'.progress == s.progress[c := Released]
            && forall id :: id in s'.leases <==> id in s.leases && id != s.turns.callers[c].key
  {
  }

  /** A transaction begins exactly under a limit, with its lock free, and once in an execution. */
  lemma LockedScopesWait(backend: Backend, lockOf: Scope -> int, s: State, c: T.CallerId, request: Request)
    ensures var begins := && request.limit > 0 && lockOf(request.scope) !in s.locks
                          && c in s.turns.callers && s.turns.callers[c].phase.Executing? && c !in s.progress;
            begins <==> Apply(backend, lockOf, s, Lock(c, request)) != s
  {
    if request.limit > 0 && c in s.turns.callers && s.turns.callers[c].phase.Executing? && c !in s.progress
       && lockOf(request.scope) !in s.locks {
      assert c in Apply(backend, lockOf, s, Lock(c, request)).progress;
    }
  }

  /** A process that ends grants nothing and keeps no lock: what it had begun is rolled back, all else stays. */
  lemma CrashRollsBack(backend: Backend, lockOf: Scope -> int, s: State, instance: T.Instance, c: T.CallerId)
    requires Inv(s, lockOf) && c in s.progress && c in s.turns.callers
    ensures var s' := Apply(backend, lockOf, s, Turn(T.Restart(instance)));
            && s'.leases == s.leases && c in s'.progress
            && if InTransaction(s, c) && s.turns.callers[c].instance == instance
               then s'.progress[c] == Aborted && forall l :: l in s'.locks ==> s'.locks[l] != c
               else && s'.progress[c] == s.progress[c]
                    && forall l :: l in s.locks && s.locks[l] == c ==> l in s'.locks && s'.locks[l] == c
  {
    assert ProgressOk(s, lockOf, c);
  }

  ghost function Turns(steps: seq<T.Step>): seq<Step> {
    seq(|steps|, k requires 0 <= k < |steps| => Turn(steps[k]))
  }

  /** Where no limit is configured, the turns run as they do without leases. */
  lemma {:induction false} TurnsRunAsBefore(backend: Backend, lockOf: Scope -> int, s: State, steps: seq<T.Step>)
    requires s.progress == map[] && s.locks == map[]
    ensures Run(backend, lockOf, s, Turns(steps)) == s.(turns := T.Run(backend, s.turns, steps))
  {
    if steps != [] {
      var before := steps[..|steps| - 1];
      assert Turns(steps)[..|steps| - 1] == Turns(before);
      TurnsRunAsBefore(backend, lockOf, s, before);
      OneTurnAsBefore(backend, lockOf, s.(turns := T.Run(backend, s.turns, before)), steps[|steps| - 1]);
    }
  }

  lemma OneTurnAsBefore(backend: Backend, lockOf: Scope -> int, s: State, t: T.Step)
    requires s.progress == map[] && s.locks == map[]
    ensures Apply(backend, lockOf, s, Turn(t)) == s.(turns := T.Apply(backend, s.turns, t))
  {
    if t.Restart? {
      assert DoRestart(s, t.instance).progress == map[] && DoRestart(s, t.instance).locks == map[];
    }
  }
}
