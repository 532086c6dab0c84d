/**
 Revisioned configuration: rows keyed by id and revision, one of them current per id. Saves compare the expected
 revision with the current one and append; activations move the current mark to any stored revision. Every
 writer of an id runs as one transaction under that id's advisory lock, so a transaction is one atomic step.
 */
module Revisions {
  import opened Prelude

  datatype Key = Key(id: string, revision: nat)

  datatype Row = Row(content: string, current: bool)

  type Table = map<Key, Row>

  /** Resources number on from the current revision, policies from the largest one. */
  datatype Kind = Resource | Policy

  datatype Refusal = RevisionConflict | UnknownRevision | TooLarge | Duplicate

  ghost predicate IsCurrent(t: Table, id: string, revision: nat) {
    Key(id, revision) in t && t[Key(id, revision)].current
  }

  ghost function Current(t: Table, id: string): (r: Option<nat>)
    ensures r.Some? ==> IsCurrent(t, id, r.value)
    ensures r.None? ==> forall n: nat :: !IsCurrent(t, id, n)
  {
    if n: nat :| IsCurrent(t, id, n) then Some(n) else None
  }

  function RevisionsOf(t: Table, id: string): set<nat> {
    set k | k in t && k.id == id :: k.revision
  }

  ghost function Largest(s: set<nat>): (m: nat)
    ensures s != {} ==> m in s
    ensures forall x :: x in s ==> x <= m
    ensures s == {} ==> m == 0
  {
    if s == {} then 0
    else
      var x :| x in s;
      var m := Largest(s - {x});
      assert forall y :: y in s ==> y == x || y in s - {x};
      if x <= m then m else x
  }

  /** `check_revision`. */
  predicate Expected(current: Option<nat>, expected: Option<nat>) {
    match current
    case Some(c) => expected == Some(c)
    case None => expected == None || expected == Some(0)
  }

  function Demote(t: Table, id: string): Table {
    map k | k in t :: if k.id == id then t[k].(current := false) else t[k]
  }

  function Appended(t: Table, id: string, next: nat, content: string): Table {
    Demote(t, id)[Key(id, next) := Row(content, true)]
  }

  ghost function NextRevision(kind: Kind, t: Table, id: string): nat {
    match kind
    case Resource => (match Current(t, id) case Some(c) => c + 1 case None => 1)
    case Policy => Largest(RevisionsOf(t, id)) + 1
  }

  ghost function Save(kind: Kind, t: Table, id: string, content: string, expected: Option<nat>):
    Result<(Table, nat), Refusal>
  {
    var next := NextRevision(kind, t, id);
    if !Expected(Current(t, id), expected) then Err(RevisionConflict)
    else if next > I64_MAX then Err(TooLarge)
    else if Key(id, next) in t then Err(Duplicate)
    else Ok((Appended(t, id, next, content), next))
  }

  /** The mark of an id moved from one of its rows to another. */
  function WithMarkMoved(t: Table, id: string, target: nat, expected: nat): Table
    requires Key(id, expected) in t && Key(id, target) in t
  {
    var demoted := t[Key(id, expected) := t[Key(id, expected)].(current := false)];
    demoted[Key(id, target) := demoted[Key(id, target)].(current := true)]
  }

  function Activate(t: Table, id: string, target: nat, expected: nat): Result<Table, Refusal> {
    if target > I64_MAX || expected > I64_MAX then Err(TooLarge)
    else if Key(id, target) !in t then Err(UnknownRevision)
    else if Key(id, expected) !in t || !t[Key(id, expected)].current then Err(RevisionConflict)
    else Ok(WithMarkMoved(t, id, target, expected))
  }

  // ----- Invariant -----

  /** Every id that has rows has exactly one current row. */
  ghost predicate OneCurrent(t: Table) {
    forall k :: k in t ==> Current(t, k.id).Some? && (t[k].current ==> Current(t, k.id) == Some(k.revision))
  }

  /** Resources are never re-activated: the current revision is the largest. */
  ghost predicate CurrentIsLargest(t: Table) {
    forall k :: k in t && Current(t, k.id).Some? ==> k.revision <= Current(t, k.id).value
  }

  ghost predicate Valid(kind: Kind, t: Table) {
    OneCurrent(t) && (kind.Resource? ==> CurrentIsLargest(t))
  }

  lemma CurrentIs(t: Table, id: string, revision: nat)
    requires OneCurrent(t) && IsCurrent(t, id, revision)
    ensures Current(t, id) == Some(revision)
  {
    assert IsCurrent(t, id, Current(t, id).value);
  }

  lemma NewRevisionIsLargest(kind: Kind, t: Table, id: string, k: Key)
    requires Valid(kind, t) && k in t && k.id == id
    ensures k.revision < NextRevision(kind, t, id)
  {
    assert k.revision in RevisionsOf(t, id);
    assert IsCurrent(t, id, Current(t, id).value);
  }

  /** Rows keep their content for ever; only the current mark moves. */
  ghost predicate Preserves(before: Table, after: Table) {
    forall k :: k in before ==> k in after && after[k].content == before[k].content
  }

  /**
   A save succeeds exactly against the revision that is current at its commit (64-bit exhaustion aside). It then
   gets a number above every earlier one of its id, becomes current, changes no stored content, and leaves the
   current revisions of all other ids alone.
   */
  lemma SaveIsCompareAndSwap(kind: Kind, t: Table, id: string, content: string, expected: Option<nat>)
    requires Valid(kind, t)
    ensures Save(kind, t, id, content, expected).Ok?
            <==> Expected(Current(t, id), expected) && NextRevision(kind, t, id) <= I64_MAX
    ensures Save(kind, t, id, content, expected).Ok? ==>
              var (t', next) := Save(kind, t, id, content, expected).value;
              && Valid(kind, t') && Preserves(t, t')
              && Current(t', id) == Some(next) && t'[Key(id, next)].content == content
              && t'.Keys == t.Keys + {Key(id, next)}
              && (forall k :: k in t && k.id == id ==> k.revision < next)
              && (forall other :: other != id ==> Current(t', other) == Current(t, other))
  {
    NextIsFresh(kind, t, id);
    AppendingKeepsOneCurrent(t, id, NextRevision(kind, t, id), content);
  }

  lemma LargestIsStored(t: Table, id: string)
    requires RevisionsOf(t, id) != {}
    ensures Key(id, Largest(RevisionsOf(t, id))) in t
    ensures forall k :: k in t && k.id == id ==> k.revision <= Largest(RevisionsOf(t, id))
  {
    var largest := Largest(RevisionsOf(t, id));
    assert largest in RevisionsOf(t, id);
    var k :| k in t && k.id == id && k.revision == largest;
    assert k == Key(id, largest);
    forall other | other in t && other.id == id ensures other.revision <= largest {
      assert other.revision in RevisionsOf(t, id);
    }
  }

  /** Numbers follow on from the largest one stored, or start with one, for both kinds. */
  lemma NumbersFollowOn(kind: Kind, t: Table, id: string)
    requires Valid(kind, t)
    ensures var next := NextRevision(kind, t, id);
            if forall k :: k in t ==> k.id != id then next == 1
            else Key(id, next - 1) in t && forall k :: k in t && k.id == id ==> k.revision <= next - 1
  {
    if k :| k in t && k.id == id {
      assert k.revision in RevisionsOf(t, id);
      assert IsCurrent(t, id, Current(t, id).value);
      LargestIsStored(t, id);
    } else {
      assert RevisionsOf(t, id) == {};
    }
  }

  /** Which refusal: a conflict exactly against another current revision, otherwise exhausted numbers. */
  lemma SaveRefusesWith(kind: Kind, t: Table, id: string, content: string, expected: Option<nat>)
    requires Valid(kind, t) && Save(kind, t, id, content, expected).Err?
    ensures Save(kind, t, id, content, expected).error
            == if Expected(Current(t, id), expected) then TooLarge else RevisionConflict
  {
    NextIsFresh(kind, t, id);
  }

  lemma SaveKeepsValid(kind: Kind, t: Table, id: string, content: string, expected: Option<nat>)
    requires Valid(kind, t)
    ensures Save(kind, t, id, content, expected).Ok? ==> Valid(kind, Save(kind, t, id, content, expected).value.0)
  {
    SaveIsCompareAndSwap(kind, t, id, content, expected);
  }

  lemma NextIsFresh(kind: Kind, t: Table, id: string)
    requires Valid(kind, t)
    ensures forall k :: k in t && k.id == id ==> k.revision < NextRevision(kind, t, id)
    ensures Key(id, NextRevision(kind, t, id)) !in t
  {
    forall k | k in t && k.id == id ensures k.revision < NextRevision(kind, t, id) {
      NewRevisionIsLargest(kind, t, id, k);
    }
  }

  lemma AppendingKeepsOneCurrent(t: Table, id: string, next: nat, content: string)
    requires OneCurrent(t) && forall k :: k in t && k.id == id ==> k.revision < next
    ensures var t' := Appended(t, id, next, content);
            && OneCurrent(t') && (CurrentIsLargest(t) ==> CurrentIsLargest(t')) && Preserves(t, t')
            && Current(t', id) == Some(next)
            && t'[Key(id, next)].content == content && t'.Keys == t.Keys + {Key(id, next)}
            && forall other :: other != id ==> Current(t', other) == Current(t, other)
  {
    AppendingMovesMark(t, id, next, content);
  }

  lemma AppendingMovesMark(t: Table, id: string, next: nat, content: string)
    requires OneCurrent(t) && forall k :: k in t && k.id == id ==> k.revision < next
    ensures var t' := Appended(t, id, next, content);
            && Current(t', id) == Some(next)
            && forall other :: other != id ==> Current(t', other) == Current(t, other)
  {
    var t' := Appended(t, id, next, content);
    assert IsCurrent(t', id, next);
    MarkIs(t', id, next);
    forall other | other != id ensures Current(t', other) == Current(t, other) {
      OtherMark(t, t', other);
    }
  }

  /** The only marked row of an id is its current one. */
  lemma MarkIs(t: Table, id: string, revision: nat)
    requires IsCurrent(t, id, revision)
    requires forall k :: k in t && k.id == id && t[k].current ==> k.revision == revision
    ensures Current(t, id) == Some(revision)
  {
    assert IsCurrent(t, id, Current(t, id).value);
  }

  /** An id whose rows carry the same marks in both tables has the same current revision in both. */
  lemma OtherMark(t: Table, t': Table, id: string)
    requires OneCurrent(t)
    requires forall n: nat :: IsCurrent(t', id, n) <==> IsCurrent(t, id, n)
    ensures Current(t', id) == Current(t, id)
  {
    match Current(t, id)
    case Some(n) =>
      assert IsCurrent(t', id, n);
      assert IsCurrent(t, id, Current(t', id).value);
    case None =>
  }

  /** An activation succeeds exactly when its target is stored and the expected revision is the current one. */
  lemma ActivateIsCompareAndSwap(t: Table, id: string, target: nat, expected: nat)
    requires OneCurrent(t)
    ensures Activate(t, id, target, expected).Ok?
            <==> target <= I64_MAX && expected <= I64_MAX && Key(id, target) in t && Current(t, id) == Some(expected)
    ensures Activate(t, id, target, expected).Ok? ==>
              var t' := Activate(t, id, target, expected).value;
              && OneCurrent(t') && Preserves(t, t') && t'.Keys == t.Keys
              && Current(t', id) == Some(target)
              && (forall other :: other != id ==> Current(t', other) == Current(t, other))
  {
    if Key(id, expected) in t && t[Key(id, expected)].current {
      assert IsCurrent(t, id, expected);
      CurrentIs(t, id, expected);
    }
    if Activate(t, id, target, expected).Ok? {
      MarkMoves(t, id, target, expected);
    }
  }

  /** Which refusal: numbers beyond 64 bits, then a target that is not stored, then another current revision. */
  lemma ActivateRefusesWith(t: Table, id: string, target: nat, expected: nat)
    requires OneCurrent(t) && Activate(t, id, target, expected).Err?
    ensures Activate(t, id, target, expected).error
            == if target > I64_MAX || expected > I64_MAX then TooLarge
               else if Key(id, target) !in t then UnknownRevision
               else RevisionConflict
  {
  }

  lemma MarkMoves(t: Table, id: string, target: nat, expected: nat)
    requires OneCurrent(t) && Key(id, expected) in t && Key(id, target) in t && Current(t, id) == Some(expected)
    ensures var t' := WithMarkMoved(t, id, target, expected);
            && OneCurrent(t') && Preserves(t, t') && t'.Keys == t.Keys
            && Current(t', id) == Some(target)
            && (forall other :: other != id ==> Current(t', other) == Current(t, other))
  {
    var t' := WithMarkMoved(t, id, target, expected);
    assert IsCurrent(t', id, target);
    MarkIs(t', id, target);
    forall other | other != id ensures Current(t', other) == Current(t, other) {
      OtherMark(t, t', other);
    }
  }

  /** The store object. */
  class RevisionStore {
    const kind: Kind
    var rows: Table

    constructor (kind: Kind)
      ensures this.kind == kind && rows == map[]
    {
      this.kind, rows := kind, map[];
    }

    method FindCurrent(id: string) returns (current: Option<nat>)
      requires OneCurrent(rows)
      ensures current == Current(rows, id)
    {
      var marked := set k | k in rows && k.id == id && rows[k].current;
      if marked == {} {
        assert forall n: nat :: IsCurrent(rows, id, n) ==> Key(id, n) in marked;
        return None;
      }
      var k :| k in marked;
      assert IsCurrent(rows, id, k.revision);
      CurrentIs(rows, id, k.revision);
      current := Some(k.revision);
    }

    method FindLargest(id: string) returns (largest: nat)
      ensures largest == Largest(RevisionsOf(rows, id))
    {
      var rest := RevisionsOf(rows, id);
      largest := 0;
      while rest != {}
        invariant rest <= RevisionsOf(rows, id)
        invariant largest == 0 || largest in RevisionsOf(rows, id)
        invariant forall x :: x in RevisionsOf(rows, id) ==> x in rest || x <= largest
        decreases rest
      {
        var x :| x in rest;
        rest := rest - {x};
        if x > largest {
          largest := x;
        }
      }
    }

    method SaveRevision(id: string, content: string, expected: Option<nat>) returns (r: Result<nat, Refusal>)
      requires Valid(kind, rows)
      modifies this
      ensures match Save(kind, old(rows), id, content, expected)
              case Ok((after, next)) => r == Ok(next) && rows == after
              case Err(e) => r == Err(e) && rows == old(rows)
      ensures Valid(kind, rows)
    {
      SaveKeepsValid(kind, rows, id, content, expected);
      var current := FindCurrent(id);
      if !Expected(current, expected) {
        return Err(RevisionConflict);
      }
      var next;
      if kind.Resource? {
        next := if current.Some? then current.value + 1 else 1;
      } else {
        var largest := FindLargest(id);
        next := largest + 1;
      }
      if next > I64_MAX {
        return Err(TooLarge);
      }
      if Key(id, next) in rows {
        return Err(Duplicate);
      }
      rows := Demote(rows, id);
      rows := rows[Key(id, next) := Row(content, true)];
      r := Ok(next);
    }

    method ActivateRevision(id: string, target: nat, expected: nat) returns (r: Result<(), Refusal>)
      requires kind.Policy? && Valid(kind, rows)
      modifies this
      ensures match Activate(old(rows), id, target, expected)
              case Ok(after) => r == Ok(()) && rows == after
              case Err(e) => r == Err(e) && rows == old(rows)
      ensures Valid(kind, rows)
    {
      ActivateIsCompareAndSwap(rows, id, target, expected);
      if target > I64_MAX || expected > I64_MAX {
        return Err(TooLarge);
      }
      if Key(id, target) !in rows {
        return Err(UnknownRevision);
      }
      if Key(id, expected) !in rows || !rows[Key(id, expected)].current {
        return Err(RevisionConflict);
      }
      rows := rows[Key(id, expected) := Row(rows[Key(id, expected)].content, false)];
      rows := rows[Key(id, target) := Row(rows[Key(id, target)].content, true)];
      r := Ok(());
    }
  }

  // ----- Runs of transactions -----

  datatype Txn =
    | SaveTxn(id: string, content: string, expected: Option<nat>)
    | ActivateTxn(id: string, target: nat, replacing: nat)

  /** Only policies are activated. */
  predicate Allowed(kind: Kind, txn: Txn) {
    txn.SaveTxn? || kind.Policy?
  }

  ghost function Commit(kind: Kind, t: Table, txn: Txn): Table {
    match txn
    case SaveTxn(id, content, expected) =>
      (match Save(kind, t, id, content, expected) case Ok(r) => r.0 case Err(_) => t)
    case ActivateTxn(id, target, expected) =>
      (match Activate(t, id, target, expected) case Ok(after) => after case Err(_) => t)
  }

  ghost function Run(kind: Kind, t: Table, txns: seq<Txn>): Table {
    if txns == [] then t else Commit(kind, Run(kind, t, txns[..|txns| - 1]), txns[|txns| - 1])
  }

  lemma CommitKeepsValid(kind: Kind, t: Table, txn: Txn)
    requires Valid(kind, t) && Allowed(kind, txn)
    ensures Valid(kind, Commit(kind, t, txn)) && Preserves(t, Commit(kind, t, txn))
  {
    match txn
    case SaveTxn(id, content, expected) => SaveIsCompareAndSwap(kind, t, id, content, expected);
    case ActivateTxn(id, target, expected) => ActivateIsCompareAndSwap(t, id, target, expected);
  }

  /**
   In every run: one current revision per known id, no stored content ever changes, resources end at their largest.
   */
  lemma {:induction false} HistoryIsKept(kind: Kind, t: Table, txns: seq<Txn>)
    requires Valid(kind, t) && forall txn :: txn in txns ==> Allowed(kind, txn)
    ensures Valid(kind, Run(kind, t, txns)) && Preserves(t, Run(kind, t, txns))
  {
    if txns != [] {
      HistoryIsKept(kind, t, txns[..|txns| - 1]);
      CommitKeepsValid(kind, Run(kind, t, txns[..|txns| - 1]), txns[|txns| - 1]);
    }
  }

  /** Is this transaction a successful save of the id against revision `e`? */
  ghost predicate SavesAgainst(kind: Kind, t: Table, txn: Txn, id: string, e: nat) {
    txn.SaveTxn? && txn.id == id && txn.expected == Some(e) && Current(t, id) == Some(e)
    && Save(kind, t, id, txn.content, txn.expected).Ok?
  }

  ghost predicate ReactivatesInRun(kind: Kind, t: Table, txns: seq<Txn>, id: string, e: nat) {
    exists m :: 0 <= m < |txns| && Reactivates(kind, Run(kind, t, txns[..m]), txns[m], id, e)
  }

  ghost predicate Reactivates(kind: Kind, t: Table, txn: Txn, id: string, e: nat) {
    txn.ActivateTxn? && txn.id == id && txn.target == e && Activate(t, id, e, txn.replacing).Ok?
  }

  /** A revision that is stored but not current can become current again only by being activated. */
  lemma {:induction false} OnlyActivationRestores(kind: Kind, t: Table, txns: seq<Txn>, id: string, e: nat)
    requires Valid(kind, t) && forall txn :: txn in txns ==> Allowed(kind, txn)
    requires Key(id, e) in t && Current(t, id) != Some(e)
    requires Current(Run(kind, t, txns), id) == Some(e)
    ensures kind.Policy? && ReactivatesInRun(kind, t, txns, id, e)
  {
    if txns != [] {
      var before := txns[..|txns| - 1];
      var txn := txns[|txns| - 1];
      var mid := Run(kind, t, before);
      HistoryIsKept(kind, t, before);
      if Current(mid, id) == Some(e) {
        OnlyActivationRestores(kind, t, before, id, e);
        var m :| 0 <= m < |before| && Reactivates(kind, Run(kind, t, before[..m]), before[m], id, e);
        assert txns[..m] == before[..m] && txns[m] == before[m];
      } else {
        CommitKeepsValid(kind, mid, txn);
        match txn {
          case SaveTxn(i, content, expected) => SaveIsCompareAndSwap(kind, mid, i, content, expected);
          case ActivateTxn(i, target, expected) =>
            ActivateIsCompareAndSwap(mid, i, target, expected);
            assert Reactivates(kind, Run(kind, t, txns[..|txns| - 1]), txn, id, e);
        }
      }
    }
  }

  /**
   No lost update: after a successful save against revision `e`, a second save against the same `e` can succeed
   only if `e` was re-activated in between; for resources it never can.
   */
  lemma NoLostUpdate(kind: Kind, t: Table, first: Txn, between: seq<Txn>, second: Txn, id: string, e: nat)
    requires Valid(kind, t) && forall txn :: txn in between ==> Allowed(kind, txn)
    requires SavesAgainst(kind, t, first, id, e)
    requires SavesAgainst(kind, Run(kind, Commit(kind, t, first), between), second, id, e)
    ensures kind.Policy? && ReactivatesInRun(kind, Commit(kind, t, first), between, id, e)
  {
    SaveIsCompareAndSwap(kind, t, id, first.content, first.expected);
    OnlyActivationRestores(kind, Commit(kind, t, first), between, id, e);
  }
}
