/**
 One executed turn: capability and circuit filters, quota and lease, then the candidate-switching loop with its
 per-resource retries. Everything the outside world decides is an `Environment`; the contracts hold for all of
 them, including every storage failure.
 */
module TurnExecution {
  import opened Prelude

  datatype Resource = Resource(id: string, revision: nat, enabled: bool, capable: bool, maxAttempts: nat)

  /** Validation admits one to three attempts. */
  type ModelResource = r: Resource | 1 <= r.maxAttempts <= 3 witness Resource("", 0, false, false, 1)

  datatype Policy = Policy(
    dailyInputTokens: Option<nat>,
    maxConcurrentTurns: Option<nat>,
    switchEnabled: bool,
    allowedReasons: seq<Code>,
    maxSwitches: nat)

  /** The error codes the loop distinguishes; every other code is carried by name. */
  datatype Code =
    | StorageUnavailable
    | QuotaExceeded
    | Overloaded
    | CapabilityMismatch
    | ProviderRateLimited
    | ProviderUnavailable
    | ProviderTimeout
    | ProviderResponseInvalid
    | Other(name: string)

  datatype TurnError = TurnError(code: Code, retryable: bool)

  const STORAGE_UNAVAILABLE := TurnError(StorageUnavailable, true)
  const QUOTA_EXCEEDED := TurnError(QuotaExceeded, false)
  const OVERLOADED := TurnError(Overloaded, true)
  const DEADLINE_ELAPSED := TurnError(ProviderTimeout, true)
  const CAPABILITY_MISMATCH := TurnError(CapabilityMismatch, false)
  const UNAVAILABLE := TurnError(ProviderUnavailable, true)

  predicate IsRetryableUpstream(e: TurnError) {
    && e.retryable
    && (e.code.ProviderRateLimited? || e.code.ProviderUnavailable? || e.code.ProviderTimeout?
        || e.code.ProviderResponseInvalid?)
  }

  datatype AttemptOutcome = Delivered(inputTokens: nat) | Failed(error: TurnError)

  /** Trouble upstream and elapsed time are retried and counted; the gateway's own refusals and storage are not. */
  lemma OnlyUpstreamTroubleIsRetried(e: TurnError)
    ensures IsRetryableUpstream(e) <==>
              e.retryable
              && e.code in {ProviderRateLimited, ProviderUnavailable, ProviderTimeout, ProviderResponseInvalid}
    ensures IsRetryableUpstream(DEADLINE_ELAPSED) && IsRetryableUpstream(UNAVAILABLE)
    ensures !IsRetryableUpstream(OVERLOADED) && !IsRetryableUpstream(STORAGE_UNAVAILABLE)
    ensures !IsRetryableUpstream(QUOTA_EXCEEDED) && !IsRetryableUpstream(CAPABILITY_MISMATCH)
  {
  }

  /**
   `circuit` is asked by position in the capability-filtered list, everything about calls by position in the list
   of compatible resources; `None` or `false` is a storage failure.
   */
  datatype Environment = Environment(
    circuit: nat -> Option<bool>,
    reserve: Option<bool>,
    lease: Option<bool>,
    bulkhead: nat -> bool,
    preflight: nat -> Option<TurnError>,
    attempt: (nat, nat) -> AttemptOutcome,
    timeForRetry: (nat, nat) -> bool,
    recordSuccess: nat -> bool,
    recordFailure: nat -> bool,
    settle: bool,
    releaseLease: bool)

  /** A call to one resource: how it ended and how many upstream attempts it took. */
  datatype Call = Call(outcome: AttemptOutcome, attempts: nat)

  /** An attempt is followed by another: it failed retryably, it was not the last, and there is time. */
  predicate RetriesAfter(env: Environment, i: nat, attempt: nat, max: nat) {
    && env.attempt(i, attempt).Failed? && IsRetryableUpstream(env.attempt(i, attempt).error)
    && attempt < max && env.timeForRetry(i, attempt)
  }

  /** How a call ends with this attempt: as the attempt did, unless only time was missing for another. */
  function OutcomeAt(env: Environment, i: nat, attempt: nat, max: nat): AttemptOutcome {
    var outcome := env.attempt(i, attempt);
    if outcome.Failed? && IsRetryableUpstream(outcome.error) && attempt < max && !env.timeForRetry(i, attempt)
    then Failed(DEADLINE_ELAPSED) else outcome
  }

  /** The retry loop from a given attempt on. */
  function Retry(env: Environment, i: nat, attempt: nat, max: nat): (c: Call)
    requires 1 <= attempt <= max
    ensures 1 <= c.attempts <= max - attempt + 1
    ensures c.outcome.Delivered? ==> env.attempt(i, attempt + c.attempts - 1) == c.outcome
    ensures forall a: nat :: attempt <= a < attempt + c.attempts - 1 ==> RetriesAfter(env, i, a, max)
    ensures !RetriesAfter(env, i, attempt + c.attempts - 1, max)
    ensures c.outcome == OutcomeAt(env, i, attempt + c.attempts - 1, max)
    decreases max - attempt
  {
    match env.attempt(i, attempt)
    case Delivered(tokens) => Call(Delivered(tokens), 1)
    case Failed(error) =>
      if !(IsRetryableUpstream(error) && attempt < max) then Call(Failed(error), 1)
      else if !env.timeForRetry(i, attempt) then Call(Failed(DEADLINE_ELAPSED), 1)
      else
        var rest := Retry(env, i, attempt + 1, max);
        Call(rest.outcome, rest.attempts + 1)
  }

  /** A call as the switching loop sees it: bulkhead, credentials and DNS come before the first attempt. */
  function CallOf(env: Environment, i: nat, resource: ModelResource): Call {
    if !env.bulkhead(i) then Call(Failed(OVERLOADED), 0)
    else match env.preflight(i)
      case Some(error) => Call(Failed(error), 0)
      case None => Retry(env, i, 1, resource.maxAttempts)
  }

  /** Where the enabled and capable resources stand, in ascending order. */
  function Positions(candidates: seq<ModelResource>): (at: seq<nat>)
    ensures forall k :: 0 <= k < |at| ==> at[k] < |candidates|
    ensures forall j, k :: 0 <= j < k < |at| ==> at[j] < at[k]
    ensures forall i: nat :: i in at <==> i < |candidates| && candidates[i].enabled && candidates[i].capable
  {
    if candidates == [] then []
    else
      var last := |candidates| - 1;
      var rest := Positions(candidates[..last]);
      if candidates[last].enabled && candidates[last].capable then rest + [last] else rest
  }

  /** The enabled and capable resources, in their order and as often as they are listed. */
  function Filtered(candidates: seq<ModelResource>): (r: seq<ModelResource>)
    ensures |r| == |Positions(candidates)|
    ensures forall k :: 0 <= k < |r| ==> r[k] == candidates[Positions(candidates)[k]]
  {
    if candidates == [] then []
    else
      var last := candidates[|candidates| - 1];
      var rest := Filtered(candidates[..|candidates| - 1]);
      if last.enabled && last.capable then rest + [last] else rest
  }

  /** Every circuit of the list can be read. */
  ghost predicate Readable(env: Environment, n: nat) {
    forall k: nat :: k < n ==> env.circuit(k).Some?
  }

  /** The positions whose circuit lets the turn through, in ascending order. */
  function LetThrough(env: Environment, n: nat): (at: seq<nat>)
    ensures forall k :: 0 <= k < |at| ==> at[k] < n
    ensures forall j, k :: 0 <= j < k < |at| ==> at[j] < at[k]
    ensures forall k: nat :: k in at <==> k < n && env.circuit(k) == Some(true)
  {
    if n == 0 then []
    else LetThrough(env, n - 1) + if env.circuit(n - 1) == Some(true) then [n - 1] else []
  }

  /** The resources whose circuit lets the turn through, or nothing when the circuit state cannot be read. */
  function Admitted(env: Environment, resources: seq<ModelResource>): (r: Option<seq<ModelResource>>)
    ensures r.Some? <==> Readable(env, |resources|)
    ensures r.Some? ==>
              && var at := LetThrough(env, |resources|);
              && |r.value| == |at| && forall k :: 0 <= k < |at| ==> r.value[k] == resources[at[k]]
  {
    if resources == [] then Some([])
    else
      var last := |resources| - 1;
      match Admitted(env, resources[..last])
      case None => None
      case Some(rest) =>
        match env.circuit(last)
        case None => None
        case Some(allowed) => Some(if allowed then rest + [resources[last]] else rest)
  }

  lemma {:induction false} UnreadableStays(env: Environment, resources: seq<ModelResource>, n: nat)
    requires n <= |resources| && Admitted(env, resources[..n]) == None
    ensures Admitted(env, resources) == None
  {
    if n < |resources| {
      var shorter := resources[..|resources| - 1];
      assert shorter[..n] == resources[..n];
      UnreadableStays(env, shorter, n);
    } else {
      assert resources[..n] == resources;
    }
  }

  /**
   A call: refused by the bulkhead or by the checks before it without an attempt, and otherwise made of as many attempts
   as it takes to deliver, to fail for good, or to run out of attempts or time.
   */
  lemma CallsAreTriedInOrder(env: Environment, i: nat, resource: ModelResource)
    ensures var call := CallOf(env, i, resource);
            && (!env.bulkhead(i) ==> call == Call(Failed(OVERLOADED), 0))
            && (env.bulkhead(i) && env.preflight(i).Some? ==> call == Call(Failed(env.preflight(i).value), 0))
            && (env.bulkhead(i) && env.preflight(i).None? ==>
                  && 1 <= call.attempts <= resource.maxAttempts
                  && (forall a: nat :: 1 <= a < call.attempts ==> RetriesAfter(env, i, a, resource.maxAttempts))
                  && !RetriesAfter(env, i, call.attempts, resource.maxAttempts)
                  && call.outcome == OutcomeAt(env, i, call.attempts, resource.maxAttempts))
  {
  }

  function MaxAttemptsOf(resources: seq<ModelResource>): nat {
    if resources == [] then 0
    else MaxAttemptsOf(resources[..|resources| - 1]) + resources[|resources| - 1].maxAttempts
  }

  predicate MaySwitch(policy: Policy, index: nat, count: nat, code: Code) {
    policy.switchEnabled && index + 1 < count && index < policy.maxSwitches && code in policy.allowedReasons
  }

  datatype QuotaLease = QuotaLease(reserved: nat, holdsLease: bool)

  /** One settlement statement, and whether it took effect; a statement that fails has none. */
  datatype Settlement = Settlement(reserved: nat, actual: nat, worked: bool)

  datatype Switch = Switch(from: string, to: string, reason: Code)

  datatype TurnResult = TurnResult(
    resource: ModelResource,
    inputTokens: nat,
    attemptCount: nat,
    switchUsed: bool,
    switchReason: Option<Code>,
    switchFrom: Option<string>)

  /** What a turn that moves past the first positions of the list leaves behind. */
  datatype Trail = Trail(permitted: bool, switches: seq<Switch>, attempts: nat, failures: seq<string>)

  /** The resource whose circuit a call counts against, if any. */
  function CountedFailure(outcome: AttemptOutcome, resource: ModelResource): seq<string> {
    if outcome.Failed? && IsRetryableUpstream(outcome.error) then [resource.id] else []
  }

  /** A failed call at position `i` moves the turn on: it could be recorded, and the policy lets the turn switch. */
  predicate MovesOn(env: Environment, policy: Policy, compatible: seq<ModelResource>, i: nat, call: Call) {
    && call.outcome.Failed?
    && (IsRetryableUpstream(call.outcome.error) ==> env.recordFailure(i))
    && MaySwitch(policy, i, |compatible|, call.outcome.error.code)
  }

  /** Past `n` positions: every call failed in a way that moves the turn on. */
  function TrailTo(env: Environment, policy: Policy, compatible: seq<ModelResource>, n: nat): (t: Trail)
    requires n < |compatible|
    ensures |t.switches| == n
  {
    if n == 0 then Trail(true, [], 0, [])
    else
      var before := TrailTo(env, policy, compatible, n - 1);
      var call := CallOf(env, n - 1, compatible[n - 1]);
      Trail(before.permitted && MovesOn(env, policy, compatible, n - 1, call),
            before.switches + [Switch(compatible[n - 1].id, compatible[n].id,
                                      if call.outcome.Failed? then call.outcome.error.code else Other(""))],
            before.attempts + call.attempts,
            before.failures + CountedFailure(call.outcome, compatible[n - 1]))
  }

  /** The daily quota has room: nothing is limited, or the ledger granted the reservation. */
  predicate Reserved(policy: Policy, env: Environment) {
    policy.dailyInputTokens.Some? ==> env.reserve == Some(true)
  }

  /** Everything a turn must be granted before it may reach a provider. */
  predicate Granted(policy: Policy, env: Environment) {
    && Reserved(policy, env)
    && (policy.maxConcurrentTurns.Some? ==> policy.maxConcurrentTurns.value > 0 && env.lease == Some(true))
  }

  /** The tokens a granted reservation puts into the ledger. */
  function GrantsOf(policy: Policy, env: Environment, estimate: nat): seq<nat> {
    if policy.dailyInputTokens.Some? && env.reserve == Some(true) then [estimate] else []
  }

  /** Giving the reservation back needs no statement, or the statement works. */
  predicate CanReturn(policy: Policy, env: Environment, estimate: nat) {
    policy.dailyInputTokens.None? || estimate == 0 || env.settle
  }

  /** The daily quota refuses, or no turn may run at all and the reservation went back. */
  predicate QuotaRefuses(policy: Policy, env: Environment, estimate: nat) {
    || (policy.dailyInputTokens.Some? && env.reserve == Some(false))
    || (Reserved(policy, env) && policy.maxConcurrentTurns == Some(0) && CanReturn(policy, env, estimate))
  }

  /** Every lease is taken, and the reservation went back. */
  predicate LeaseRefuses(policy: Policy, env: Environment, estimate: nat) {
    && Reserved(policy, env) && policy.maxConcurrentTurns.Some? && policy.maxConcurrentTurns.value > 0
    && env.lease == Some(false) && CanReturn(policy, env, estimate)
  }

  /** A statement on the way fails: the reservation, the lease, or giving the reservation back. */
  predicate AcquiringFails(policy: Policy, env: Environment, estimate: nat) {
    || (policy.dailyInputTokens.Some? && env.reserve.None?)
    || (Reserved(policy, env) && LeaseStatementFails(policy, env))
    || (&& Reserved(policy, env) && policy.maxConcurrentTurns.Some? && !CanReturn(policy, env, estimate)
        && (policy.maxConcurrentTurns.value == 0 || env.lease == Some(false)))
  }

  /** The error of a turn that is refused its quota or its lease. */
  predicate RefusedWith(policy: Policy, env: Environment, estimate: nat, e: TurnError) {
    && (e == QUOTA_EXCEEDED <==> QuotaRefuses(policy, env, estimate))
    && (e == OVERLOADED <==> LeaseRefuses(policy, env, estimate))
    && (e == STORAGE_UNAVAILABLE <==> AcquiringFails(policy, env, estimate))
    && e in {QUOTA_EXCEEDED, OVERLOADED, STORAGE_UNAVAILABLE}
  }

  /** The lease statement fails, and the reservation made before it is not given back. */
  predicate LeaseStatementFails(policy: Policy, env: Environment) {
    policy.maxConcurrentTurns.Some? && policy.maxConcurrentTurns.value > 0 && env.lease.None?
  }

  /** What the switching loop has done so far. */
  datatype Walk = Walk(tried: seq<ModelResource>, attempts: nat, switches: seq<Switch>, failures: seq<string>)

  /** What the turn has got from and given back to quota and lease storage so far; a release says whether it worked. */
  datatype Books = Books(grants: seq<nat>, leases: nat, settlements: seq<Settlement>, releases: seq<bool>)

  const NO_WALK := Walk([], 0, [], [])
  const NO_BOOKS := Books([], 0, [], [])

  /** The books of a turn that holds its quota and has settled nothing. */
  predicate Holds(env: Environment, policy: Policy, books: Books, lease: QuotaLease) {
    && books.settlements == [] && books.releases == [] && |books.grants| <= 1
    && lease.reserved == (if books.grants == [] then 0 else books.grants[0])
    && books.leases == (if lease.holdsLease then 1 else 0)
    && !LeaseStatementFails(policy, env)
  }

  /**
   The books of a finished turn: a granted nonzero reservation has had exactly one settlement statement, except when
   the lease statement failed; a lease has had exactly one release statement, except when the settlement failed.
   */
  predicate Settled(env: Environment, policy: Policy, books: Books, actual: nat) {
    && |books.grants| <= 1 && books.leases <= 1
    && books.settlements == (if books.grants == [] || books.grants[0] == 0 || LeaseStatementFails(policy, env) then []
                             else [Settlement(books.grants[0], actual, env.settle)])
    && books.releases == (if books.leases == 1 && (books.settlements == [] || env.settle) then [env.releaseLease]
                          else [])
  }

  /** Tokens were reserved, and no settlement that took effect gave them back. */
  predicate ReservationStaysOpen(books: Books) {
    && books.grants != [] && books.grants[0] != 0
    && forall s :: s in books.settlements ==> !s.worked
  }

  /** A lease was taken, and no release took effect. */
  predicate LeaseStaysHeld(books: Books) {
    books.leases != 0 && true !in books.releases
  }

  /** What these books leave behind in storage: exactly what a failing statement could not give back. */
  predicate LeavesExactly(env: Environment, policy: Policy, books: Books) {
    var settles := books.grants != [] && books.grants[0] != 0;
    && (ReservationStaysOpen(books) <==> settles && (LeaseStatementFails(policy, env) || !env.settle))
    && (LeaseStaysHeld(books) <==> books.leases != 0 && ((settles && !env.settle) || !env.releaseLease))
  }

  lemma SettledLeaves(env: Environment, policy: Policy, books: Books, actual: nat)
    requires Settled(env, policy, books, actual) && (books.leases != 0 ==> !LeaseStatementFails(policy, env))
    ensures LeavesExactly(env, policy, books)
  {
  }

  /** The settlement and the release of these books work, where they are needed. */
  predicate Closes(env: Environment, books: Books) {
    && (books.grants == [] || books.grants[0] == 0 || env.settle)
    && (books.leases == 0 || env.releaseLease)
  }

  /** Where the switching loop stands before it tries position `index`. */
  predicate Reached(env: Environment, policy: Policy, compatible: seq<ModelResource>, w: Walk, index: nat) {
    && index < |compatible|
    && w.tried == compatible[..index]
    && TrailTo(env, policy, compatible, index) == Trail(true, w.switches, w.attempts, w.failures)
  }

  /** The last tried resource has been called; a failure is not recorded yet. */
  predicate Called(env: Environment, policy: Policy, compatible: seq<ModelResource>, w: Walk, call: Call) {
    var n := |w.tried|;
    && 0 < n <= |compatible|
    && w.tried == compatible[..n]
    && call == CallOf(env, n - 1, compatible[n - 1])
    && var trail := TrailTo(env, policy, compatible, n - 1);
    && trail == Trail(true, w.switches, trail.attempts, w.failures)
    && w.attempts == trail.attempts + call.attempts
  }

  /** What the switching loop did when it stopped at the last tried resource. */
  predicate Walked(env: Environment, policy: Policy, compatible: seq<ModelResource>, w: Walk, call: Call) {
    var n := |w.tried|;
    && 0 < n <= |compatible|
    && Called(env, policy, compatible, w.(failures := TrailTo(env, policy, compatible, n - 1).failures), call)
    && w.failures == TrailTo(env, policy, compatible, n - 1).failures + CountedFailure(call.outcome, compatible[n - 1])
  }

  /** What the loop remembers of the resource before position `index`: who it was, and why the turn left it. */
  predicate ComesFrom(
    compatible: seq<ModelResource>, w: Walk, index: nat, priorId: Option<string>, lastError: Option<TurnError>)
  {
    && |w.switches| == index <= |compatible|
    && priorId == (if index == 0 then None else Some(compatible[index - 1].id))
    && (index > 0 ==> lastError.Some? && lastError.value.code == w.switches[index - 1].reason)
  }

  /** The summary of a response: who answered, after how many attempts, and where the turn came from. */
  predicate Describes(w: Walk, call: Call, t: TurnResult) {
    var n := |w.tried|;
    && 0 < n && |w.switches| == n - 1
    && call.outcome == Delivered(t.inputTokens)
    && t.resource == w.tried[n - 1]
    && t.attemptCount == call.attempts + n - 1
    && t.switchUsed == (n > 1)
    && t.switchReason == (if n > 1 then Some(w.switches[n - 2].reason) else None)
    && t.switchFrom == (if n > 1 then Some(w.tried[n - 2].id) else None)
  }

  /**
   How a turn that reached a provider ends, in every case. A delivered call whose success can be recorded settles what
   it used, and answers unless that settlement or the release of the lease fails; if the success cannot be recorded it
   settles zero. A failed call settles zero and ends the turn with its own error, unless a storage operation fails,
   and only where the turn may not move on.
   */
  predicate Concluded(env: Environment, policy: Policy, compatible: seq<ModelResource>, w: Walk, call: Call,
                      books: Books, successes: seq<string>, r: Result<TurnResult, TurnError>)
  {
    && Walked(env, policy, compatible, w, call)
    && var last := |w.tried| - 1;
    && match call.outcome
       case Delivered(tokens) =>
         if env.recordSuccess(last) then
           && Settled(env, policy, books, tokens)
           && successes == [w.tried[last].id]
           && (r.Ok? <==> Closes(env, books))
           && (r.Ok? ==> Describes(w, call, r.value))
           && (r.Err? ==> r.error == STORAGE_UNAVAILABLE)
         else
           Settled(env, policy, books, 0) && successes == [] && r == Err(STORAGE_UNAVAILABLE)
       case Failed(error) =>
         && Settled(env, policy, books, 0) && successes == []
         && !MovesOn(env, policy, compatible, last, call)
         && r == Err(if (IsRetryableUpstream(error) && !env.recordFailure(last)) || !Closes(env, books)
                     then STORAGE_UNAVAILABLE else error)
  }

  lemma ConcludedLeaves(
    env: Environment, policy: Policy, compatible: seq<ModelResource>, w: Walk, call: Call, books: Books,
    successes: seq<string>, r: Result<TurnResult, TurnError>)
    requires Concluded(env, policy, compatible, w, call, books, successes, r)
    requires books.leases != 0 ==> !LeaseStatementFails(policy, env)
    ensures LeavesExactly(env, policy, books)
  {
    match call.outcome
    case Delivered(tokens) => SettledLeaves(env, policy, books, if env.recordSuccess(|w.tried| - 1) then tokens else 0);
    case Failed(_) => SettledLeaves(env, policy, books, 0);
  }

  lemma SomeLetThrough(env: Environment, n: nat)
    ensures LetThrough(env, n) != [] <==> exists k: nat :: k < n && env.circuit(k) == Some(true)
    ensures n > 0 && (forall k: nat :: k < n ==> env.circuit(k) == Some(false)) ==>
              Readable(env, n) && LetThrough(env, n) == []
  {
    var at := LetThrough(env, n);
    if at != [] {
      assert at[0] in at;
    }
  }

  /** The list is made of the elements at these positions of another. */
  predicate StandsAt(list: seq<ModelResource>, all: seq<ModelResource>, at: seq<nat>) {
    && |list| == |at|
    && forall k :: 0 <= k < |at| ==> at[k] < |all| && list[k] == all[at[k]]
  }

  /** Some capable resource has a circuit that lets the turn through, and all of them can be read. */
  ghost predicate HasCompatible(env: Environment, candidates: seq<ModelResource>) {
    var n := |Filtered(candidates)|;
    Readable(env, n) && exists k: nat :: k < n && env.circuit(k) == Some(true)
  }

  /** A turn reaches a provider exactly with a compatible resource and everything granted. */
  ghost predicate Reaches(env: Environment, policy: Policy, candidates: seq<ModelResource>) {
    HasCompatible(env, candidates) && Granted(policy, env)
  }

  class Turn {
    const env: Environment
    const policy: Policy
    var compatible: seq<ModelResource>
    var books: Books
    var walk: Walk
    var successes: seq<string>

    constructor (env: Environment, policy: Policy)
      ensures this.env == env && this.policy == policy
      ensures compatible == [] && books == NO_BOOKS && walk == NO_WALK && successes == []
    {
      this.env, this.policy := env, policy;
      compatible, books, walk, successes := [], NO_BOOKS, NO_WALK, [];
    }

    /** `release_policy_quota_reservation`, also the first half of `settle_policy_quota`. */
    method SettleTokens(reserved: nat, actual: nat) returns (ok: bool)
      modifies this`books
      ensures ok <==> reserved == 0 || env.settle
      ensures books == old(books).(settlements := old(books).settlements
                                     + if reserved == 0 then [] else [Settlement(reserved, actual, env.settle)])
    {
      if reserved == 0 {
        return true;
      }
      ok := env.settle;
      books := books.(settlements := books.settlements + [Settlement(reserved, actual, ok)]);
    }

    /** `settle_policy_quota`, and `release_policy_quota` when `actual` is zero: the one settlement of a turn. */
    method SettleQuota(lease: QuotaLease, actual: nat) returns (ok: bool)
      requires Holds(env, policy, books, lease)
      modifies this`books
      ensures Settled(env, policy, books, actual)
      ensures books.grants == old(books).grants && books.leases == old(books).leases
      ensures ok <==> Closes(env, books)
    {
      ok := SettleTokens(lease.reserved, actual);
      if !ok {
        return;
      }
      if lease.holdsLease {
        ok := env.releaseLease;
        books := books.(releases := books.releases + [ok]);
      }
    }

    method AcquireQuota(estimate: nat) returns (r: Result<QuotaLease, TurnError>)
      requires books == NO_BOOKS
      modifies this`books
      ensures r.Ok? <==> Granted(policy, env)
      ensures books.grants == GrantsOf(policy, env, estimate)
      ensures books.leases == if r.Ok? && policy.maxConcurrentTurns.Some? then 1 else 0
      ensures r.Ok? ==> Holds(env, policy, books, r.value)
      ensures r.Err? ==> Settled(env, policy, books, 0) && RefusedWith(policy, env, estimate, r.error)
      ensures r.Err? ==> LeavesExactly(env, policy, books)
    {
      var reserved := 0;
      if policy.dailyInputTokens.Some? {
        match env.reserve {
          case None => return Err(STORAGE_UNAVAILABLE);
          case Some(allowed) =>
            if !allowed {
              return Err(QUOTA_EXCEEDED);
            }
        }
        books := books.(grants := books.grants + [estimate]);
        reserved := estimate;
      }
      if policy.maxConcurrentTurns.None? {
        return Ok(QuotaLease(reserved, false));
      }
      if policy.maxConcurrentTurns.value == 0 {
        var ok := SettleTokens(reserved, 0);
        return Err(if ok then QUOTA_EXCEEDED else STORAGE_UNAVAILABLE);
      }
      match env.lease {
        case None => return Err(STORAGE_UNAVAILABLE);
        case Some(acquired) =>
          if !acquired {
            var ok := SettleTokens(reserved, 0);
            return Err(if ok then OVERLOADED else STORAGE_UNAVAILABLE);
          }
      }
      books := books.(leases := books.leases + 1);
      r := Ok(QuotaLease(reserved, true));
    }

    /** `call_openai_compatible` behind the bulkhead; position `i` is the resource's place in the compatible list. */
    method CallResource(i: nat, resource: ModelResource) returns (call: Call)
      modifies this`walk
      ensures call == CallOf(env, i, resource)
      ensures walk == old(walk).(attempts := old(walk).attempts + call.attempts)
    {
      if !env.bulkhead(i) {
        return Call(Failed(OVERLOADED), 0);
      }
      if env.preflight(i).Some? {
        return Call(Failed(env.preflight(i).value), 0);
      }
      var attempt := 1;
      while true
        invariant 1 <= attempt <= resource.maxAttempts
        invariant walk == old(walk).(attempts := old(walk).attempts + attempt - 1)
        invariant Retry(env, i, 1, resource.maxAttempts)
               == Call(Retry(env, i, attempt, resource.maxAttempts).outcome,
                       Retry(env, i, attempt, resource.maxAttempts).attempts + attempt - 1)
        decreases resource.maxAttempts - attempt
      {
        walk := walk.(attempts := walk.attempts + 1);
        match env.attempt(i, attempt) {
          case Delivered(tokens) =>
            return Call(Delivered(tokens), attempt);
          case Failed(error) =>
            if !(IsRetryableUpstream(error) && attempt < resource.maxAttempts) {
              return Call(Failed(error), attempt);
            }
            if !env.timeForRetry(i, attempt) {
              return Call(Failed(DEADLINE_ELAPSED), attempt);
            }
        }
        attempt := attempt + 1;
      }
    }

    /** Keeps the resources whose circuit lets the turn through, until a circuit cannot be read. */
    method AskCircuits(capable: seq<ModelResource>) returns (readable: bool)
      requires compatible == []
      modifies this`compatible
      ensures readable <==> Readable(env, |capable|)
      ensures readable ==> StandsAt(compatible, capable, LetThrough(env, |capable|))
    {
      for next := 0 to |capable|
        invariant Admitted(env, capable[..next]) == Some(compatible)
      {
        assert capable[..next + 1][..next] == capable[..next];
        match env.circuit(next) {
          case None =>
            UnreadableStays(env, capable, next + 1);
            return false;
          case Some(allowed) =>
            if allowed {
              compatible := compatible + [capable[next]];
            }
        }
      }
      assert capable[..|capable|] == capable;
      readable := true;
    }

    /** `execute_new_turn`: nothing reaches a provider before quota and lease are granted. */
    method Execute(candidates: seq<ModelResource>, estimate: nat)
      returns (r: Result<TurnResult, TurnError>, ghost call: Call)
      requires compatible == [] && books == NO_BOOKS && walk == NO_WALK && successes == []
      modifies this
      // No provider is reached exactly where a guard refuses, and each guard refuses with its own error.
      ensures walk == NO_WALK <==> !Reaches(env, policy, candidates)
      ensures Filtered(candidates) == [] ==> r == Err(CAPABILITY_MISMATCH) && books == NO_BOOKS
      ensures Filtered(candidates) != [] && !Readable(env, |Filtered(candidates)|) ==>
                r == Err(STORAGE_UNAVAILABLE) && books == NO_BOOKS
      ensures Filtered(candidates) != []
              && (forall k: nat :: k < |Filtered(candidates)| ==> env.circuit(k) == Some(false)) ==>
                r == Err(UNAVAILABLE) && books == NO_BOOKS
      ensures HasCompatible(env, candidates) && !Granted(policy, env) ==>
                && r.Err? && RefusedWith(policy, env, estimate, r.error)
                && books.grants == GrantsOf(policy, env, estimate) && Settled(env, policy, books, 0)
      ensures walk == NO_WALK ==> r.Err? && books.leases == 0 && successes == []
      // Otherwise the turn runs on what it was granted.
      ensures walk != NO_WALK ==>
                && StandsAt(compatible, Filtered(candidates), LetThrough(env, |Filtered(candidates)|))
                && books.grants == GrantsOf(policy, env, estimate)
                && books.leases == (if policy.maxConcurrentTurns.Some? then 1 else 0)
                && Concluded(env, policy, compatible, walk, call, books, successes, r)
      // What a turn, however it ends, leaves behind in storage.
      ensures ReservationStaysOpen(books) <==>
                && HasCompatible(env, candidates) && estimate != 0
                && policy.dailyInputTokens.Some? && env.reserve == Some(true)
                && (LeaseStatementFails(policy, env) || !env.settle)
      ensures LeaseStaysHeld(books) <==>
                && Reaches(env, policy, candidates) && policy.maxConcurrentTurns.Some?
                && (!CanReturn(policy, env, estimate) || !env.releaseLease)
    {
      call := Call(Failed(UNAVAILABLE), 0);
      var capable := Filtered(candidates);
      if capable == [] {
        return Err(CAPABILITY_MISMATCH), call;
      }
      var readable := AskCircuits(capable);
      SomeLetThrough(env, |capable|);
      if !readable {
        return Err(STORAGE_UNAVAILABLE), call;
      }
      if compatible == [] {
        return Err(UNAVAILABLE), call;
      }
      r, call := OnQuota(estimate);
    }

    /** The rest of `execute_new_turn`, on the compatible resources: quota and lease, then the switching loop. */
    method OnQuota(estimate: nat) returns (r: Result<TurnResult, TurnError>, ghost call: Call)
      requires compatible != [] && books == NO_BOOKS && walk == NO_WALK && successes == []
      modifies this`books, this`walk, this`successes
      ensures walk == NO_WALK <==> !Granted(policy, env)
      ensures books.grants == GrantsOf(policy, env, estimate)
      ensures books.leases == if Granted(policy, env) && policy.maxConcurrentTurns.Some? then 1 else 0
      ensures !Granted(policy, env) ==>
                && r.Err? && RefusedWith(policy, env, estimate, r.error)
                && Settled(env, policy, books, 0) && successes == []
      ensures Granted(policy, env) ==> Concluded(env, policy, compatible, walk, call, books, successes, r)
      ensures LeavesExactly(env, policy, books)
    {
      call := Call(Failed(UNAVAILABLE), 0);
      var acquired := AcquireQuota(estimate);
      if acquired.Err? {
        return Err(acquired.error), call;
      }
      r, call := Switching(acquired.value);
      ConcludedLeaves(env, policy, compatible, walk, call, books, successes, r);
    }

    /** The switching loop; the code behind the loop cannot be reached. */
    method Switching(lease: QuotaLease) returns (r: Result<TurnResult, TurnError>, ghost lastCall: Call)
      requires compatible != [] && walk == NO_WALK && successes == []
      requires Holds(env, policy, books, lease)
      modifies this`books, this`walk, this`successes
      ensures walk != NO_WALK && books.grants == old(books).grants && books.leases == old(books).leases
      ensures Concluded(env, policy, compatible, walk, lastCall, books, successes, r)
    {
      var priorId: Option<string> := None;
      var lastError: Option<TurnError> := None;
      var index := 0;
      while index < |compatible|
        invariant Reached(env, policy, compatible, walk, index)
        invariant Holds(env, policy, books, lease) && successes == []
        invariant books.grants == old(books).grants && books.leases == old(books).leases
        invariant ComesFrom(compatible, walk, index, priorId, lastError)
      {
        var call := TryNext(index);
        lastCall := call;
        match call.outcome {
          case Delivered(tokens) =>
            r := Deliver(lease, call, priorId, lastError);
            return;
          case Failed(error) =>
            var verdict := AfterFailure(lease, call);
            if verdict.Some? {
              return Err(verdict.value), lastCall;
            }
            priorId, lastError := Some(compatible[index].id), Some(error);
        }
        index := index + 1;
      }
      assert false;
    }

    /** Calls the resource at `index`. */
    method TryNext(index: nat) returns (call: Call)
      requires Reached(env, policy, compatible, walk, index)
      modifies this`walk
      ensures Called(env, policy, compatible, walk, call) && |walk.tried| == index + 1
      ensures walk.switches == old(walk).switches
    {
      call := CallResource(index, compatible[index]);
      assert compatible[..index + 1] == compatible[..index] + [compatible[index]];
      walk := walk.(tried := walk.tried + [compatible[index]]);
    }

    /** The call delivered: record the success, settle what was used, answer. */
    method Deliver(lease: QuotaLease, call: Call, priorId: Option<string>, lastError: Option<TurnError>)
      returns (r: Result<TurnResult, TurnError>)
      requires Called(env, policy, compatible, walk, call) && call.outcome.Delivered?
      requires ComesFrom(compatible, walk, |walk.tried| - 1, priorId, lastError)
      requires Holds(env, policy, books, lease) && successes == []
      modifies this`books, this`successes
      ensures books.grants == old(books).grants && books.leases == old(books).leases
      ensures Concluded(env, policy, compatible, walk, call, books, successes, r)
    {
      var index := |walk.tried| - 1;
      FailureRecorded(env, policy, compatible, walk, call);
      assert walk.failures + [] == walk.failures;
      assert Walked(env, policy, compatible, walk, call);
      if !env.recordSuccess(index) {
        var released := SettleQuota(lease, 0);
        return Err(STORAGE_UNAVAILABLE);
      }
      successes := successes + [compatible[index].id];
      var tokens := call.outcome.inputTokens;
      var ok := SettleQuota(lease, tokens);
      if !ok {
        return Err(STORAGE_UNAVAILABLE);
      }
      var reason := if index > 0 then Some(lastError.value.code) else None;
      r := Ok(TurnResult(compatible[index], tokens, call.attempts + index, index > 0, reason, priorId));
    }

    /** The turn ends with a failed call: settle zero, and say what failed last. */
    method EndFailed(lease: QuotaLease, call: Call, recorded: bool) returns (e: TurnError)
      requires Walked(env, policy, compatible, walk, call) && call.outcome.Failed?
      requires recorded <==> (IsRetryableUpstream(call.outcome.error) ==> env.recordFailure(|walk.tried| - 1))
      requires !MovesOn(env, policy, compatible, |walk.tried| - 1, call)
      requires Holds(env, policy, books, lease) && successes == []
      modifies this`books
      ensures books.grants == old(books).grants && books.leases == old(books).leases
      ensures Concluded(env, policy, compatible, walk, call, books, successes, Err(e))
    {
      var ok := SettleQuota(lease, 0);
      e := if ok && recorded then call.outcome.error else STORAGE_UNAVAILABLE;
    }

    /** The call failed: count it against the circuit, then switch or end the turn with the returned error. */
    method AfterFailure(lease: QuotaLease, call: Call) returns (verdict: Option<TurnError>)
      requires Called(env, policy, compatible, walk, call) && call.outcome.Failed?
      requires Holds(env, policy, books, lease) && successes == []
      modifies this`books, this`walk
      ensures walk.tried == old(walk).tried
      ensures books.grants == old(books).grants && books.leases == old(books).leases
      ensures verdict.None? <==> MovesOn(env, policy, compatible, |walk.tried| - 1, call)
      ensures verdict.None? ==>
                && Reached(env, policy, compatible, walk, |walk.tried|)
                && Holds(env, policy, books, lease)
                && walk.switches[|walk.tried| - 1].reason == call.outcome.error.code
      ensures verdict.Some? ==> Concluded(env, policy, compatible, walk, call, books, successes, Err(verdict.value))
    {
      var error := call.outcome.error;
      var index := |walk.tried| - 1;
      var recorded := RecordFailure(call);
      assert recorded && MaySwitch(policy, index, |compatible|, error.code) <==>
             MovesOn(env, policy, compatible, index, call);
      if !recorded || !MaySwitch(policy, index, |compatible|, error.code) {
        var ended := EndFailed(lease, call, recorded);
        return Some(ended);
      }
      MoveOn(call);
      verdict := None;
    }

    /** Switches to the next resource, remembering where from and why. */
    method MoveOn(call: Call)
      requires Walked(env, policy, compatible, walk, call)
      requires MovesOn(env, policy, compatible, |walk.tried| - 1, call)
      modifies this`walk
      ensures walk.tried == old(walk).tried && Reached(env, policy, compatible, walk, |walk.tried|)
      ensures |walk.switches| == |walk.tried| && walk.switches[|walk.tried| - 1].reason == call.outcome.error.code
    {
      var index := |walk.tried| - 1;
      NextReached(env, policy, compatible, walk, call);
      walk := walk.(switches := walk.switches + [Switch(compatible[index].id, compatible[index + 1].id,
                                                        call.outcome.error.code)]);
    }

    /** Counts a retryable failure against the resource's circuit. */
    method RecordFailure(call: Call) returns (recorded: bool)
      requires Called(env, policy, compatible, walk, call) && call.outcome.Failed?
      modifies this`walk
      ensures Walked(env, policy, compatible, walk, call) && walk.tried == old(walk).tried
      ensures recorded <==> (IsRetryableUpstream(call.outcome.error) ==> env.recordFailure(|walk.tried| - 1))
    {
      var index := |walk.tried| - 1;
      FailureRecorded(env, policy, compatible, walk, call);
      if !IsRetryableUpstream(call.outcome.error) {
        assert walk.failures + [] == walk.failures;
        return true;
      }
      walk := walk.(failures := walk.failures + [compatible[index].id]);
      recorded := env.recordFailure(index);
    }
  }

  lemma FailureRecorded(env: Environment, policy: Policy, compatible: seq<ModelResource>, w: Walk, call: Call)
    requires Called(env, policy, compatible, w, call)
    ensures var counted := CountedFailure(call.outcome, compatible[|w.tried| - 1]);
            Walked(env, policy, compatible, w.(failures := w.failures + counted), call)
  {
  }

  lemma NextReached(env: Environment, policy: Policy, compatible: seq<ModelResource>, w: Walk, call: Call)
    requires Walked(env, policy, compatible, w, call)
    requires MovesOn(env, policy, compatible, |w.tried| - 1, call)
    ensures var n := |w.tried|;
            && n < |compatible|
            && var next := Switch(compatible[n - 1].id, compatible[n].id, call.outcome.error.code);
            && |w.switches| == n - 1 && (w.switches + [next])[n - 1] == next
            && Reached(env, policy, compatible, w.(switches := w.switches + [next]), n)
  {
  }

  // ----- What the walk implies -----

  /** A switch from position `i` to its successor for a reason the policy lists. */
  predicate AllowedSwitch(policy: Policy, compatible: seq<ModelResource>, i: nat, s: Switch) {
    && i + 1 < |compatible| && s.from == compatible[i].id && s.to == compatible[i + 1].id
    && s.reason in policy.allowedReasons
  }

  /**
   Bounded switching: a turn passes at most as many resources as the policy allows switches (none when switching is
   off), every switch goes from a resource to the next one for an allowed reason, and the upstream attempts stay
   within what the passed resources admit.
   */
  lemma {:induction false} TrailIsBounded(env: Environment, policy: Policy, compatible: seq<ModelResource>, n: nat)
    requires n < |compatible| && TrailTo(env, policy, compatible, n).permitted
    ensures n <= if policy.switchEnabled then policy.maxSwitches else 0
    ensures var s := TrailTo(env, policy, compatible, n).switches;
            forall i :: 0 <= i < |s| ==> AllowedSwitch(policy, compatible, i, s[i])
    ensures TrailTo(env, policy, compatible, n).attempts <= MaxAttemptsOf(compatible[..n])
  {
    if n > 0 {
      TrailIsBounded(env, policy, compatible, n - 1);
      var before := TrailTo(env, policy, compatible, n - 1).switches;
      var s := TrailTo(env, policy, compatible, n).switches;
      forall i | 0 <= i < |s| ensures AllowedSwitch(policy, compatible, i, s[i]) {
        assert i < n - 1 ==> s[i] == before[i];
      }
      assert compatible[..n][..n - 1] == compatible[..n - 1];
    }
  }

  /** A resource is left for the next one if the error is listed, switches are on and left, and storage works. */
  lemma LeavesResourceExactly(env: Environment, policy: Policy, compatible: seq<ModelResource>, i: nat)
    requires i < |compatible|
    ensures var call := CallOf(env, i, compatible[i]);
            MovesOn(env, policy, compatible, i, call)
            <==> call.outcome.Failed? && i + 1 < |compatible|
                 && policy.switchEnabled && i < policy.maxSwitches && call.outcome.error.code in policy.allowedReasons
                 && (IsRetryableUpstream(call.outcome.error) ==> env.recordFailure(i))
  {
  }

  /**
   How far a turn goes: over every resource before the last tried one it had to leave, and not from that one. Its
   switches, attempts and counted failures are those of the calls on the way.
   */
  predicate FarAsAllowed(env: Environment, policy: Policy, compatible: seq<ModelResource>, w: Walk, i: nat) {
    && i < |w.tried| <= |compatible|
    && w.tried[i] == compatible[i] && |w.switches| == |w.tried| - 1
    && (MovesOn(env, policy, compatible, i, CallOf(env, i, compatible[i])) <==> i < |w.tried| - 1)
    && (i < |w.tried| - 1 ==>
          && CallOf(env, i, compatible[i]).outcome.Failed?
          && w.switches[i] == Switch(compatible[i].id, compatible[i + 1].id,
                                     CallOf(env, i, compatible[i]).outcome.error.code))
    && w.attempts == AttemptsUpTo(env, compatible, |w.tried|)
    && w.failures == CountedUpTo(env, compatible, |w.tried|)
  }

  lemma GoesAsFarAsAllowed(
    env: Environment, policy: Policy, compatible: seq<ModelResource>, w: Walk, call: Call, books: Books,
    successes: seq<string>, r: Result<TurnResult, TurnError>, i: nat)
    requires Concluded(env, policy, compatible, w, call, books, successes, r) && i < |w.tried|
    ensures FarAsAllowed(env, policy, compatible, w, i)
  {
    StopsAtItsCall(env, policy, compatible, w, call, books, successes, r);
    WalkGoesFar(env, policy, compatible, w, call, i);
  }

  lemma WalkGoesFar(
    env: Environment, policy: Policy, compatible: seq<ModelResource>, w: Walk, call: Call, i: nat)
    requires Walked(env, policy, compatible, w, call) && StopsAt(env, policy, compatible, |w.tried|) && i < |w.tried|
    ensures FarAsAllowed(env, policy, compatible, w, i)
  {
    WalkAddsUp(env, policy, compatible, w, call);
    LeavesAllBefore(env, policy, compatible, |w.tried|, i);
  }

  lemma WalkAddsUp(env: Environment, policy: Policy, compatible: seq<ModelResource>, w: Walk, call: Call)
    requires Walked(env, policy, compatible, w, call)
    ensures w.tried == compatible[..|w.tried|]
    ensures w.switches == TrailTo(env, policy, compatible, |w.tried| - 1).switches
    ensures w.attempts == AttemptsUpTo(env, compatible, |w.tried|)
    ensures w.failures == CountedUpTo(env, compatible, |w.tried|)
  {
    TrailAddsUp(env, policy, compatible, |w.tried| - 1);
  }

  lemma LeavesAllBefore(env: Environment, policy: Policy, compatible: seq<ModelResource>, n: nat, i: nat)
    requires StopsAt(env, policy, compatible, n) && i < n
    ensures MovesOn(env, policy, compatible, i, CallOf(env, i, compatible[i])) <==> i < n - 1
    ensures i < n - 1 ==>
              TrailTo(env, policy, compatible, n - 1).switches[i]
              == Switch(compatible[i].id, compatible[i + 1].id, CallOf(env, i, compatible[i]).outcome.error.code)
  {
    if i < n - 1 {
      TrailSwitches(env, policy, compatible, i, n - 1);
    }
  }

  /** The upstream attempts of the first calls together. */
  function AttemptsUpTo(env: Environment, compatible: seq<ModelResource>, n: nat): nat
    requires n <= |compatible|
  {
    if n == 0 then 0 else AttemptsUpTo(env, compatible, n - 1) + CallOf(env, n - 1, compatible[n - 1]).attempts
  }

  /** The resources among the first whose call failed retryably, in order. */
  function CountedUpTo(env: Environment, compatible: seq<ModelResource>, n: nat): seq<string>
    requires n <= |compatible|
  {
    if n == 0 then []
    else
      var outcome := CallOf(env, n - 1, compatible[n - 1]).outcome;
      CountedUpTo(env, compatible, n - 1)
      + if outcome.Failed? && IsRetryableUpstream(outcome.error) then [compatible[n - 1].id] else []
  }

  lemma {:induction false} TrailAddsUp(env: Environment, policy: Policy, compatible: seq<ModelResource>, n: nat)
    requires n < |compatible|
    ensures TrailTo(env, policy, compatible, n).attempts == AttemptsUpTo(env, compatible, n)
    ensures TrailTo(env, policy, compatible, n).failures == CountedUpTo(env, compatible, n)
  {
    if n > 0 {
      TrailAddsUp(env, policy, compatible, n - 1);
    }
  }

  lemma {:induction false} TrailSwitches(
    env: Environment, policy: Policy, compatible: seq<ModelResource>, i: nat, n: nat)
    requires i < n < |compatible| && TrailTo(env, policy, compatible, n).permitted
    ensures MovesOn(env, policy, compatible, i, CallOf(env, i, compatible[i]))
    ensures TrailTo(env, policy, compatible, n).switches[i]
         == Switch(compatible[i].id, compatible[i + 1].id, CallOf(env, i, compatible[i]).outcome.error.code)
  {
    if i < n - 1 {
      TrailSwitches(env, policy, compatible, i, n - 1);
    }
  }

  /** The attempts of a whole turn, the last call included, never exceed what the tried resources admit together. */
  lemma AttemptsAreBounded(env: Environment, policy: Policy, compatible: seq<ModelResource>, n: nat)
    requires 0 < n <= |compatible| && TrailTo(env, policy, compatible, n - 1).permitted
    ensures TrailTo(env, policy, compatible, n - 1).attempts + CallOf(env, n - 1, compatible[n - 1]).attempts
         <= MaxAttemptsOf(compatible[..n])
  {
    TrailIsBounded(env, policy, compatible, n - 1);
    assert compatible[..n][..n - 1] == compatible[..n - 1];
  }

  /** A permitted trail is permitted at every earlier position, where the turn moved on. */
  lemma {:induction false} TrailMovesOn(
    env: Environment, policy: Policy, compatible: seq<ModelResource>, i: nat, n: nat)
    requires i < n < |compatible| && TrailTo(env, policy, compatible, n).permitted
    ensures MovesOn(env, policy, compatible, i, CallOf(env, i, compatible[i]))
  {
    if i < n - 1 {
      TrailMovesOn(env, policy, compatible, i, n - 1);
    }
  }

  /**
   The environment decides everything: two turns over the same list with the same grants that conclude do so at the
   same resource, with the same call, the same books and the same answer.
   */
  lemma OnlyOneConclusion(
    env: Environment, policy: Policy, compatible: seq<ModelResource>, w: Walk, call: Call, books: Books,
    successes: seq<string>, r: Result<TurnResult, TurnError>, w': Walk, call': Call, books': Books,
    successes': seq<string>, r': Result<TurnResult, TurnError>)
    requires Concluded(env, policy, compatible, w, call, books, successes, r)
    requires Concluded(env, policy, compatible, w', call', books', successes', r')
    requires books.grants == books'.grants && books.leases == books'.leases
    ensures w == w' && call == call' && books == books' && successes == successes' && r == r'
  {
    StopsAtItsCall(env, policy, compatible, w, call, books, successes, r);
    StopsAtItsCall(env, policy, compatible, w', call', books', successes', r');
    SamePosition(env, policy, compatible, |w.tried|, |w'.tried|);
    SameWalk(env, policy, compatible, w, w', call);
    SameEnd(env, policy, compatible, w, call, books, successes, r, books', successes', r');
  }

  predicate StopsAt(env: Environment, policy: Policy, compatible: seq<ModelResource>, n: nat) {
    && 0 < n <= |compatible|
    && TrailTo(env, policy, compatible, n - 1).permitted
    && !MovesOn(env, policy, compatible, n - 1, CallOf(env, n - 1, compatible[n - 1]))
  }

  lemma SamePosition(env: Environment, policy: Policy, compatible: seq<ModelResource>, n: nat, n': nat)
    requires StopsAt(env, policy, compatible, n) && StopsAt(env, policy, compatible, n')
    ensures n == n'
  {
    if n < n' {
      TrailMovesOn(env, policy, compatible, n - 1, n' - 1);
    } else if n' < n {
      TrailMovesOn(env, policy, compatible, n' - 1, n - 1);
    }
  }

  lemma SameWalk(env: Environment, policy: Policy, compatible: seq<ModelResource>, w: Walk, w': Walk, call: Call)
    requires Walked(env, policy, compatible, w, call) && Walked(env, policy, compatible, w', call)
    requires |w.tried| == |w'.tried|
    ensures w == w'
  {
  }

  lemma SameEnd(
    env: Environment, policy: Policy, compatible: seq<ModelResource>, w: Walk, call: Call,
    books: Books, successes: seq<string>, r: Result<TurnResult, TurnError>,
    books': Books, successes': seq<string>, r': Result<TurnResult, TurnError>)
    requires Concluded(env, policy, compatible, w, call, books, successes, r)
    requires Concluded(env, policy, compatible, w, call, books', successes', r')
    requires books.grants == books'.grants && books.leases == books'.leases
    ensures books == books' && successes == successes' && r == r'
  {
    match call.outcome
    case Delivered(tokens) =>
      SameBooks(env, policy, books, books', if env.recordSuccess(|w.tried| - 1) then tokens else 0);
      if r.Ok? && r'.Ok? {
        SameSummary(w, call, r.value, r'.value);
      }
    case Failed(_) =>
      SameBooks(env, policy, books, books', 0);
  }

  lemma SameBooks(env: Environment, policy: Policy, books: Books, books': Books, actual: nat)
    requires Settled(env, policy, books, actual) && Settled(env, policy, books', actual)
    requires books.grants == books'.grants && books.leases == books'.leases
    ensures books == books'
  {
  }

  lemma SameSummary(w: Walk, call: Call, t: TurnResult, t': TurnResult)
    requires Describes(w, call, t) && Describes(w, call, t')
    ensures t == t'
  {
  }

  lemma StopsAtItsCall(
    env: Environment, policy: Policy, compatible: seq<ModelResource>, w: Walk, call: Call, books: Books,
    successes: seq<string>, r: Result<TurnResult, TurnError>)
    requires Concluded(env, policy, compatible, w, call, books, successes, r)
    ensures var n := |w.tried|;
            StopsAt(env, policy, compatible, n) && Walked(env, policy, compatible, w, call)
            && call == CallOf(env, n - 1, compatible[n - 1])
  {
  }

  /** Where no storage operation fails. */
  ghost predicate FaultFree(env: Environment) {
    env.settle && env.releaseLease && (forall i :: env.recordSuccess(i)) && forall i :: env.recordFailure(i)
  }

  /** On storage that does not fail, a turn that reached a provider answers exactly when its last call delivered. */
  lemma DeliveredTurnsSucceed(
    env: Environment, policy: Policy, compatible: seq<ModelResource>, w: Walk, call: Call, books: Books,
    successes: seq<string>, r: Result<TurnResult, TurnError>)
    requires Concluded(env, policy, compatible, w, call, books, successes, r) && FaultFree(env)
    ensures r.Ok? <==> call.outcome.Delivered?
    ensures r.Ok? ==> r.value.inputTokens == call.outcome.inputTokens
    ensures r.Ok? ==> Settled(env, policy, books, r.value.inputTokens)
    ensures r.Err? ==> r.error == call.outcome.error
  {
  }
}
