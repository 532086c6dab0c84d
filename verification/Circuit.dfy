/**
 The circuit breaker of a model resource revision, kept as rows of a shared table by both stores, against the
 history of what was asked and reported.
 */
module Circuit {
  import opened Prelude

  const FAILURES_TO_OPEN := 3
  const OPEN_SECONDS := 30

  datatype CircuitState = Closed | Open | HalfOpen

  datatype Health = Health(failures: nat, state: CircuitState, until: int)

  datatype Key = Key(id: string, revision: nat)

  type Table = map<Key, Health>

  /** The column defaults, which also stand for a missing row. */
  const DEFAULT := Health(0, Closed, 0)

  function Read(t: Table, key: Key): Health {
    if key in t then t[key] else DEFAULT
  }

  // ----- The statements -----

  function Increment(failures: nat): nat {
    if failures < I32_MAX then failures + 1 else failures
  }

  function AfterFailure(h: Health, now: i64): Health {
    var failures := Increment(h.failures);
    if failures >= FAILURES_TO_OPEN then Health(failures, Open, SaturatingAdd(now, OPEN_SECONDS))
    else Health(failures, Closed, 0)
  }

  predicate Allows(h: Health, now: i64) {
    h.state.Open? ==> h.until <= now
  }

  function AfterAllow(h: Health, now: i64): Health {
    if h.state.Open? && h.until <= now then h.(state := HalfOpen) else h
  }

  /** The Postgres store: every call is one transaction on one locked row. */
  class HealthStore {
    var rows: Table

    constructor ()
      ensures rows == map[]
    {
      rows := map[];
    }

    method ResourceCircuitAllows(key: Key, now: i64) returns (allowed: bool)
      modifies this
      ensures rows == old(rows)[key := AfterAllow(Read(old(rows), key), now)]
      ensures allowed == Allows(Read(old(rows), key), now)
    {
      if key !in rows {
        rows := rows[key := DEFAULT];
      }
      var row := rows[key];
      if row.state.Open? && row.until > now {
        assert rows == old(rows)[key := row];
        return false;
      }
      if row.state.Open? {
        rows := rows[key := row.(state := HalfOpen)];
      }
      assert rows == old(rows)[key := AfterAllow(row, now)];
      allowed := true;
    }

    method RecordResourceSuccess(key: Key)
      modifies this
      ensures rows == old(rows)[key := DEFAULT]
    {
      rows := rows[key := Health(0, Closed, 0)];
    }

    method RecordResourceRetryableFailure(key: Key, now: i64) returns (open: bool)
      modifies this
      ensures rows == old(rows)[key := AfterFailure(Read(old(rows), key), now)]
      ensures open == rows[key].state.Open?
    {
      if key !in rows {
        rows := rows[key := DEFAULT];
      }
      var failures := Increment(rows[key].failures);
      open := failures >= FAILURES_TO_OPEN;
      var until := if open then SaturatingAdd(now, OPEN_SECONDS) else 0;
      rows := rows[key := Health(failures, if open then Open else Closed, until)];
      assert rows == old(rows)[key := AfterFailure(Read(old(rows), key), now)];
    }
  }

  // ----- History -----

  datatype Event = Asked(now: i64) | Succeeded | Failed(now: i64)

  datatype Call = Call(key: Key, event: Event)

  function Apply(t: Table, c: Call): Table {
    var h := Read(t, c.key);
    t[c.key := match c.event
               case Asked(now) => AfterAllow(h, now)
               case Succeeded => DEFAULT
               case Failed(now) => AfterFailure(h, now)]
  }

  function Run(calls: seq<Call>): Table {
    if calls == [] then map[] else Apply(Run(calls[..|calls| - 1]), calls[|calls| - 1])
  }

  /** The events of one resource revision. */
  function Of(calls: seq<Call>, key: Key): seq<Event> {
    if calls == [] then []
    else
      var before := Of(calls[..|calls| - 1], key);
      if calls[|calls| - 1].key == key then before + [calls[|calls| - 1].event] else before
  }

  /** Failures since the last success. */
  function Failures(h: seq<Event>): nat {
    if h == [] then 0
    else
      match h[|h| - 1]
      case Asked(_) => Failures(h[..|h| - 1])
      case Succeeded => 0
      case Failed(_) => Failures(h[..|h| - 1]) + 1
  }

  /** Nothing but questions came after event `f`. */
  predicate OnlyAskedSince(h: seq<Event>, f: nat) {
    forall k :: f < k < |h| ==> h[k].Asked?
  }

  predicate IsLastFailure(h: seq<Event>, f: nat) {
    f < |h| && h[f].Failed? && OnlyAskedSince(h, f)
  }

  /** No question since the last failure came late enough to be admitted. */
  predicate NoneAdmittedSince(h: seq<Event>, f: nat)
    requires IsLastFailure(h, f)
  {
    forall k :: f < k < |h| ==> h[k].now < SaturatingAdd(h[f].now, OPEN_SECONDS)
  }

  function Min(a: nat, b: nat): nat {
    if a < b then a else b
  }

  /** What the row says about the history. */
  ghost predicate Describes(row: Health, h: seq<Event>) {
    && row.failures == Min(Failures(h), I32_MAX)
    && (row.state.Closed? <==> Failures(h) < FAILURES_TO_OPEN)
    && (forall f: nat :: Failures(h) >= FAILURES_TO_OPEN && IsLastFailure(h, f) ==>
          && row.until == SaturatingAdd(h[f].now, OPEN_SECONDS)
          && (row.state.Open? <==> NoneAdmittedSince(h, f)))
  }

  /** Where failures count, there is a last one. */
  lemma {:induction false} LastFailure(h: seq<Event>) returns (f: nat)
    requires Failures(h) > 0
    ensures IsLastFailure(h, f)
  {
    if h[|h| - 1].Failed? {
      f := |h| - 1;
    } else {
      f := LastFailure(h[..|h| - 1]);
    }
  }

  lemma AskKeepsDescribing(row: Health, h: seq<Event>, now: i64)
    requires Describes(row, h)
    ensures Describes(AfterAllow(row, now), h + [Asked(now)])
  {
    var longer := h + [Asked(now)];
    assert longer[..|h|] == h;
    forall f: nat | Failures(longer) >= FAILURES_TO_OPEN && IsLastFailure(longer, f)
      ensures AfterAllow(row, now).until == SaturatingAdd(longer[f].now, OPEN_SECONDS)
      ensures AfterAllow(row, now).state.Open? <==> NoneAdmittedSince(longer, f)
    {
      assert forall k :: f < k < |h| ==> longer[k] == h[k];
      assert IsLastFailure(h, f);
      assert NoneAdmittedSince(longer, f)
        <==> NoneAdmittedSince(h, f) && now < SaturatingAdd(h[f].now, OPEN_SECONDS) by {
        assert longer[|h|] == Asked(now);
      }
    }
  }

  lemma FailureKeepsDescribing(row: Health, h: seq<Event>, now: i64)
    requires Describes(row, h)
    ensures Describes(AfterFailure(row, now), h + [Failed(now)])
  {
    var longer := h + [Failed(now)];
    assert longer[..|h|] == h;
    forall f | IsLastFailure(longer, f) ensures f == |h| {
      assert !longer[|h|].Asked?;
    }
  }

  lemma {:induction false} RowDescribesHistory(calls: seq<Call>, key: Key)
    ensures Describes(Read(Run(calls), key), Of(calls, key))
  {
    if calls != [] {
      var before, last := calls[..|calls| - 1], calls[|calls| - 1];
      RowDescribesHistory(before, key);
      if last.key == key {
        match last.event {
          case Asked(now) => AskKeepsDescribing(Read(Run(before), key), Of(before, key), now);
          case Succeeded =>
            forall f ensures !IsLastFailure(Of(calls, key), f) {
              assert !Of(calls, key)[|Of(before, key)|].Asked?;
            }
          case Failed(now) => FailureKeepsDescribing(Read(Run(before), key), Of(before, key), now);
        }
      }
    }
  }

  // ----- Theorems -----

  /**
   The breaker refuses a question exactly when at least three failures came since the last success, no later question
   was admitted, and less than thirty seconds have passed since the last failure; other resources and other
   revisions of the same one have no influence.
   */
  lemma DeniesExactlyWhileTripped(calls: seq<Call>, key: Key, now: i64)
    ensures var h := Of(calls, key);
            !Allows(Read(Run(calls), key), now)
            <==> Failures(h) >= FAILURES_TO_OPEN
                 && exists f: nat :: IsLastFailure(h, f) && NoneAdmittedSince(h, f)
                                && now < SaturatingAdd(h[f].now, OPEN_SECONDS)
  {
    var h := Of(calls, key);
    var row := Read(Run(calls), key);
    RowDescribesHistory(calls, key);
    if Failures(h) >= FAILURES_TO_OPEN {
      var f := LastFailure(h);
      assert row.until == SaturatingAdd(h[f].now, OPEN_SECONDS);
      forall g: nat | IsLastFailure(h, g) ensures g == f {
        assert !h[g].Asked? && !h[f].Asked?;
      }
    }
  }

  /** A failure report opens the circuit exactly when it is at least the third since the last success. */
  lemma OpensAtTheThirdFailure(calls: seq<Call>, key: Key, now: i64)
    ensures AfterFailure(Read(Run(calls), key), now).state.Open?
            <==> Failures(Of(calls, key)) + 1 >= FAILURES_TO_OPEN
  {
    RowDescribesHistory(calls, key);
  }

  // ----- The SQLite store -----

  const U32_MAX := 0xFFFF_FFFF

  /** Rust's `+` on `i64`, as compiled without overflow checks, for a sum that is too large by less than 2^64. */
  function WrappingSum(a: i64, b: nat): (r: int)
    ensures b <= I64_MAX ==> -I64_MAX - 1 <= r <= I64_MAX
    ensures r == a + b || r + 0x1_0000_0000_0000_0000 == a + b
  {
    if a + b > I64_MAX then a + b - 2 * (I64_MAX + 1) else a + b
  }

  function SqliteAfterFailure(h: Health, now: i64): Health {
    var failures := if h.failures < U32_MAX then h.failures + 1 else h.failures;
    if failures >= FAILURES_TO_OPEN then Health(failures, Open, WrappingSum(now, OPEN_SECONDS))
    else Health(failures, Closed, 0)
  }

  /** A question writes only when it half-opens; the count saturates later, and the sum wraps around. */
  function ApplySqlite(t: Table, c: Call): Table {
    match c.event
    case Asked(now) =>
      if c.key in t && t[c.key].state.Open? && t[c.key].until <= now
      then t[c.key := t[c.key].(state := HalfOpen)]
      else t
    case Succeeded => t[c.key := DEFAULT]
    case Failed(now) => t[c.key := SqliteAfterFailure(Read(t, c.key), now)]
  }

  function RunSqlite(calls: seq<Call>): Table {
    if calls == [] then map[] else ApplySqlite(RunSqlite(calls[..|calls| - 1]), calls[|calls| - 1])
  }

  /** The last failure since the last success came in the last thirty seconds an `i64` can name. */
  predicate AtTheEndOfTime(h: seq<Event>) {
    h != [] &&
    match h[|h| - 1]
    case Asked(_) => AtTheEndOfTime(h[..|h| - 1])
    case Succeeded => false
    case Failed(now) => now + OPEN_SECONDS > I64_MAX
  }

  predicate Agree(postgres: Health, sqlite: Health) {
    && postgres.failures == Min(sqlite.failures, I32_MAX)
    && postgres.state == sqlite.state && postgres.until == sqlite.until
  }

  /** The row of the SQLite store, wherever it may differ. */
  predicate Follows(postgres: Health, sqlite: Health, h: seq<Event>) {
    && postgres.failures == Min(sqlite.failures, I32_MAX)
    && sqlite.failures == Min(Failures(h), U32_MAX)
    && (Failures(h) < FAILURES_TO_OPEN || !AtTheEndOfTime(h) ==>
          postgres.state == sqlite.state && postgres.until == sqlite.until)
    && (Failures(h) >= FAILURES_TO_OPEN && AtTheEndOfTime(h) ==> postgres.until == I64_MAX && sqlite.until < 0)
  }

  lemma AskFollows(postgres: Health, sqlite: Health, h: seq<Event>, now: i64)
    requires Follows(postgres, sqlite, h)
    ensures Follows(AfterAllow(postgres, now), AfterAllow(sqlite, now), h + [Asked(now)])
  {
    assert (h + [Asked(now)])[..|h|] == h;
  }

  lemma FailureFollows(postgres: Health, sqlite: Health, h: seq<Event>, now: i64)
    requires Follows(postgres, sqlite, h)
    ensures Follows(AfterFailure(postgres, now), SqliteAfterFailure(sqlite, now), h + [Failed(now)])
  {
    assert (h + [Failed(now)])[..|h|] == h;
  }

  lemma {:induction false} SqliteFollows(calls: seq<Call>, key: Key)
    ensures Follows(Read(Run(calls), key), Read(RunSqlite(calls), key), Of(calls, key))
  {
    if calls != [] {
      var before, last := calls[..|calls| - 1], calls[|calls| - 1];
      SqliteFollows(before, key);
      if last.key == key {
        var p, s, h := Read(Run(before), key), Read(RunSqlite(before), key), Of(before, key);
        match last.event {
          case Asked(now) => AskFollows(p, s, h, now);
          case Succeeded =>
          case Failed(now) => FailureFollows(p, s, h, now);
        }
      }
    }
  }

  /**
   Both stores keep the same circuit for a resource, and so take the same decisions, exactly unless three failures
   have opened it and the last of them came in the last thirty seconds an `i64` can name.
   */
  lemma SqliteKeepsTheSameCircuit(calls: seq<Call>, key: Key)
    ensures Agree(Read(Run(calls), key), Read(RunSqlite(calls), key))
            <==> Failures(Of(calls, key)) < FAILURES_TO_OPEN || !AtTheEndOfTime(Of(calls, key))
  {
    SqliteFollows(calls, key);
  }
}
