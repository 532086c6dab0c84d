/**
 Channel tokens are accepted once. Their ids are kept, with their expiry, in an insertion-ordered map that is purged
 of expired ids, and in a log that is appended to, compacted now and then, and read back when the server restarts.
 */
module ReplayGuard {
  const COMPACT_INTERVAL := 256

  /** The hash of a token id and the token's expiry. */
  datatype Record = Record(hash: string, exp: int)

  /** The write to the log that fails, if any. A write happens entirely or not at all. */
  datatype Fault = NoFault | AppendFails | CompactFails

  datatype Guard = Guard(memory: seq<Record>, log: seq<Record>, writes: nat)

  // ----- The insertion-ordered map -----

  function Unexpired(records: seq<Record>, now: int): seq<Record> {
    if records == [] then []
    else
      var rest := Unexpired(records[..|records| - 1], now);
      if records[|records| - 1].exp > now then rest + [records[|records| - 1]] else rest
  }

  predicate Has(records: seq<Record>, hash: string) {
    exists r :: r in records && r.hash == hash
  }

  /** `Map.set`: a key that is present keeps its place. */
  function Put(records: seq<Record>, r: Record): seq<Record> {
    if records == [] then [r]
    else if records[|records| - 1].hash == r.hash then records[..|records| - 1] + [r]
    else if Has(records, r.hash) then Put(records[..|records| - 1], r) + [records[|records| - 1]]
    else records + [r]
  }

  /** What reading the log back leaves in the map. */
  function Load(log: seq<Record>, now: int): seq<Record> {
    if log == [] then []
    else
      var rest := Load(log[..|log| - 1], now);
      if log[|log| - 1].exp > now then Put(rest, log[|log| - 1]) else rest
  }

  // ----- One token -----

  /** The purge, the check and the two writes; the token is accepted when nothing before the end throws. */
  function Consume(g: Guard, r: Record, now: int, fault: Fault): (Guard, bool) {
    if r.exp <= now then (g, false)
    else
      var purged := Unexpired(g.memory, now);
      if Has(purged, r.hash) then (g.(memory := purged), false)
      else
        var memory := Put(purged, r);
        if fault.AppendFails? then (g.(memory := memory), false)
        else if (g.writes + 1) % COMPACT_INTERVAL != 0 then (Guard(memory, g.log + [r], g.writes + 1), true)
        else if fault.CompactFails? then (Guard(memory, g.log + [r], g.writes + 1), false)
        else (Guard(memory, memory, g.writes + 1), true)
  }

  function Restart(g: Guard, now: int): Guard {
    Guard(Load(g.log, now), g.log, 0)
  }

  class Server {
    var consumed: seq<Record>
    var writes: nat
    var log: seq<Record>

    /** `loadConsumedTokenIds`, at start-up over whatever log is there. */
    constructor (existing: seq<Record>, now: int)
      ensures Guard(consumed, log, writes) == Restart(Guard([], existing, 0), now)
    {
      log, writes := existing, 0;
      consumed := [];
      new;
      for i := 0 to |existing|
        invariant log == existing && writes == 0
        invariant consumed == Load(existing[..i], now)
      {
        assert existing[..i + 1][..i] == existing[..i];
        if existing[i].exp > now {
          consumed := Put(consumed, existing[i]);
        }
      }
      assert existing[..|existing|] == existing;
    }

    /** Drops the expired ids one after the other. */
    method Purge(now: int)
      modifies this`consumed
      ensures consumed == Unexpired(old(consumed), now)
    {
      ghost var before := consumed;
      var kept: seq<Record> := [];
      for i := 0 to |consumed|
        invariant consumed == before
        invariant kept == Unexpired(before[..i], now)
      {
        assert before[..i + 1][..i] == before[..i];
        if consumed[i].exp > now {
          kept := kept + [consumed[i]];
        }
      }
      assert before[..|before|] == before;
      consumed := kept;
    }

    /** The consuming end of `authenticateUpgrade`; returning false stands for the error it throws. */
    method Authenticate(hash: string, exp: int, now: int, fault: Fault) returns (accepted: bool)
      modifies this
      ensures var r := Consume(old(Guard(consumed, log, writes)), Record(hash, exp), now, fault);
              Guard(consumed, log, writes) == r.0 && accepted == r.1
    {
      if exp <= now {
        return false;
      }
      Purge(now);
      if exists r :: r in consumed && r.hash == hash {
        return false;
      }
      consumed := Put(consumed, Record(hash, exp));
      accepted := Persist(hash, exp, fault);
    }

    /** `persistConsumedTokenId`. */
    method Persist(hash: string, exp: int, fault: Fault) returns (done: bool)
      modifies this`log, this`writes
      ensures fault.AppendFails? ==> !done && log == old(log) && writes == old(writes)
      ensures !fault.AppendFails? ==>
                && writes == old(writes) + 1
                && done == (writes % COMPACT_INTERVAL != 0 || fault.NoFault?)
                && log == if done && writes % COMPACT_INTERVAL == 0 then consumed else old(log) + [Record(hash, exp)]
    {
      if fault.AppendFails? {
        return false;
      }
      log := log + [Record(hash, exp)];
      writes := writes + 1;
      if writes % COMPACT_INTERVAL == 0 {
        if fault.CompactFails? {
          return false;
        }
        log := consumed;
      }
      done := true;
    }
  }

  // ----- Runs -----

  datatype Step = Present(record: Record, now: int, fault: Fault) | Reboot(now: int)

  datatype System = System(guard: Guard, clock: int)

  function Apply(s: System, step: Step): System {
    match step
    case Present(record, now, fault) => System(Consume(s.guard, record, now, fault).0, now)
    case Reboot(now) => System(Restart(s.guard, now), now)
  }

  function Run(start: int, steps: seq<Step>): System {
    if steps == [] then System(Guard([], [], 0), start)
    else Apply(Run(start, steps[..|steps| - 1]), steps[|steps| - 1])
  }

  /** The token presented at step `i` is let in. */
  predicate Accepts(start: int, steps: seq<Step>, i: nat) {
    && i < |steps| && steps[i].Present?
    && Consume(Run(start, steps[..i]).guard, steps[i].record, steps[i].now, steps[i].fault).1
  }

  ghost predicate AcceptedTwice(start: int, steps: seq<Step>, token: Record) {
    exists i: nat, k: nat :: i < k && Accepts(start, steps, i) && Accepts(start, steps, k)
                             && steps[i].record == token && steps[k].record == token
  }

  /** The clock readings of a run. */
  function Times(steps: seq<Step>): seq<int> {
    seq(|steps|, i requires 0 <= i < |steps| => steps[i].now)
  }

  /** The clock never goes back. */
  predicate Monotone(start: int, steps: seq<Step>) {
    && (steps != [] ==> start <= steps[0].now)
    && forall k :: 0 < k < |steps| ==> steps[k - 1].now <= steps[k].now
  }

  lemma {:induction false} UnexpiredMember(records: seq<Record>, now: int, r: Record)
    ensures r in Unexpired(records, now) <==> r in records && r.exp > now
  {
    if records != [] {
      UnexpiredMember(records[..|records| - 1], now, r);
    }
  }

  // ----- The invariant -----

  predicate Distinct(records: seq<Record>) {
    forall j, k :: 0 <= j < k < |records| ==> records[j].hash != records[k].hash
  }

  /** Records of one hash come with ever later expiries. */
  predicate Increasing(log: seq<Record>) {
    forall j, k :: 0 <= j < k < |log| && log[j].hash == log[k].hash ==> log[j].exp < log[k].exp
  }

  predicate Covers(memory: seq<Record>, log: seq<Record>, clock: int) {
    forall r :: r in log && r.exp > clock ==> r in memory
  }

  predicate Inv(s: System) {
    && Distinct(s.guard.memory)
    && Increasing(s.guard.log)
    && Covers(s.guard.memory, s.guard.log, s.clock)
  }

  lemma {:induction false} UnexpiredStaysDistinct(records: seq<Record>, now: int)
    requires Distinct(records)
    ensures Distinct(Unexpired(records, now))
  {
    if records != [] {
      var shorter := records[..|records| - 1];
      UnexpiredStaysDistinct(shorter, now);
      forall r | r in Unexpired(shorter, now) ensures r.hash != records[|records| - 1].hash {
        UnexpiredMember(shorter, now, r);
        var k :| 0 <= k < |shorter| && shorter[k] == r;
        assert records[k] == r;
      }
    }
  }

  lemma PutNew(records: seq<Record>, r: Record)
    requires !Has(records, r.hash)
    ensures Put(records, r) == records + [r]
    ensures Distinct(records) ==> Distinct(Put(records, r))
  {
    if records != [] {
      assert records[|records| - 1] in records;
    }
  }

  /** Reading back a log whose unexpired records have distinct hashes gives these records, in order. */
  lemma {:induction false} LoadIsUnexpired(log: seq<Record>, now: int)
    requires Distinct(Unexpired(log, now))
    ensures Load(log, now) == Unexpired(log, now)
  {
    if log != [] {
      var shorter, last := log[..|log| - 1], log[|log| - 1];
      var all, rest := Unexpired(log, now), Unexpired(shorter, now);
      if last.exp > now {
        assert all[..|rest|] == rest && all[|rest|] == last;
        assert Distinct(rest) by {
          forall j, k | 0 <= j < k < |rest| ensures rest[j].hash != rest[k].hash {
            assert all[j] == rest[j] && all[k] == rest[k];
          }
        }
        LoadIsUnexpired(shorter, now);
        forall r | r in rest ensures r.hash != last.hash {
          var j :| 0 <= j < |rest| && rest[j] == r;
          assert all[j] == r;
        }
        PutNew(rest, last);
      } else {
        LoadIsUnexpired(shorter, now);
      }
    }
  }

  lemma {:induction false} UnexpiredLogIsDistinct(memory: seq<Record>, log: seq<Record>, clock: int, now: int)
    requires Distinct(memory) && Increasing(log) && Covers(memory, log, clock) && clock <= now
    ensures Distinct(Unexpired(log, now))
  {
    if log != [] {
      var shorter, last := log[..|log| - 1], log[|log| - 1];
      UnexpiredLogIsDistinct(memory, shorter, clock, now);
      var rest := Unexpired(shorter, now);
      forall r | r in rest && last.exp > now ensures r.hash != last.hash {
        UnexpiredMember(shorter, now, r);
        var j :| 0 <= j < |shorter| && shorter[j] == r;
        assert log[j] == r && r in memory && last in memory;
        assert r != last;
        var m, n :| 0 <= m < |memory| && memory[m] == r && 0 <= n < |memory| && memory[n] == last;
        assert m != n;
      }
    }
  }

  lemma RestartKeepsInv(s: System, now: int)
    requires Inv(s) && s.clock <= now
    ensures Inv(Apply(s, Reboot(now))) && Restart(s.guard, now).memory == Unexpired(s.guard.log, now)
  {
    UnexpiredLogIsDistinct(s.guard.memory, s.guard.log, s.clock, now);
    LoadIsUnexpired(s.guard.log, now);
    forall r | r in s.guard.log && r.exp > now ensures r in Unexpired(s.guard.log, now) {
      UnexpiredMember(s.guard.log, now, r);
    }
  }

  /** An accepted or merely remembered token: the purge has already made sure its hash is not in use. */
  lemma AppendKeepsIncreasing(g: Guard, clock: int, r: Record, now: int)
    requires Increasing(g.log) && Covers(g.memory, g.log, clock) && clock <= now < r.exp
    requires !Has(Unexpired(g.memory, now), r.hash)
    ensures Increasing(g.log + [r])
  {
    forall x | x in g.log && x.hash == r.hash ensures x.exp < r.exp {
      UnexpiredMember(g.memory, now, x);
    }
  }

  lemma DistinctIsIncreasing(records: seq<Record>)
    requires Distinct(records)
    ensures Increasing(records)
  {
  }

  /** What presenting a token can leave behind. */
  lemma ConsumeOutcomes(g: Guard, r: Record, now: int, fault: Fault)
    ensures var purged := Unexpired(g.memory, now);
            var longer := purged + [r];
            var (g', accepted) := Consume(g, r, now, fault);
            if r.exp <= now then g' == g && !accepted
            else if Has(purged, r.hash) then g' == g.(memory := purged) && !accepted
            else
              && g'.memory == longer
              && if fault.AppendFails? then g'.log == g.log && !accepted
                 else g'.log == g.log + [r] || g'.log == longer
  {
    var purged := Unexpired(g.memory, now);
    if !Has(purged, r.hash) {
      PutNew(purged, r);
    }
  }

  lemma PresentKeepsInv(s: System, r: Record, now: int, fault: Fault)
    requires Inv(s) && s.clock <= now
    ensures Inv(Apply(s, Present(r, now, fault)))
  {
    var purged := Unexpired(s.guard.memory, now);
    ConsumeOutcomes(s.guard, r, now, fault);
    UnexpiredStaysDistinct(s.guard.memory, now);
    forall x | x in s.guard.log && x.exp > now ensures x in purged {
      UnexpiredMember(s.guard.memory, now, x);
    }
    if r.exp > now && !Has(purged, r.hash) {
      PutNew(purged, r);
      AppendKeepsIncreasing(s.guard, s.clock, r, now);
      DistinctIsIncreasing(purged + [r]);
    }
  }

  lemma {:induction false} RunKeepsInv(start: int, steps: seq<Step>)
    requires Monotone(start, steps)
    ensures Inv(Run(start, steps))
    ensures Run(start, steps).clock == if steps == [] then start else steps[|steps| - 1].now
  {
    if steps != [] {
      var s := Run(start, steps[..|steps| - 1]);
      RunKeepsInv(start, steps[..|steps| - 1]);
      match steps[|steps| - 1] {
        case Present(record, now, fault) => PresentKeepsInv(s, record, now, fault);
        case Reboot(now) => RestartKeepsInv(s, now);
      }
    }
  }

  // ----- Acceptance, whatever the clock does -----

  /** The last record of its hash is this one. */
  predicate LastOf(records: seq<Record>, r: Record) {
    exists k :: 0 <= k < |records| && records[k] == r && forall l :: k < l < |records| ==> records[l].hash != r.hash
  }

  /** The record is in memory, and reading the log back puts it there again. */
  predicate Held(g: Guard, r: Record) {
    Distinct(g.memory) && r in g.memory && LastOf(g.log, r)
  }

  lemma {:induction false} PutMembers(records: seq<Record>, r: Record)
    requires Distinct(records)
    ensures Distinct(Put(records, r))
    ensures forall x :: x in Put(records, r) <==> x == r || (x in records && x.hash != r.hash)
  {
    if records != [] {
      var shorter, last := records[..|records| - 1], records[|records| - 1];
      assert records == shorter + [last];
      PutMembers(shorter, r);
      if !Has(records, r.hash) {
        PutNew(records, r);
      }
    }
  }

  /** A key that is present keeps its place and everything else too; a new one comes last. */
  lemma {:induction false} PutKeepsPlaces(records: seq<Record>, r: Record)
    requires Distinct(records)
    ensures |Put(records, r)| == |records| + if Has(records, r.hash) then 0 else 1
    ensures forall k :: 0 <= k < |records| ==> Put(records, r)[k] == if records[k].hash == r.hash then r else records[k]
    ensures !Has(records, r.hash) ==> Put(records, r)[|records|] == r
  {
    if records != [] {
      var shorter, last := records[..|records| - 1], records[|records| - 1];
      assert records == shorter + [last];
      PutKeepsPlaces(shorter, r);
      if !Has(records, r.hash) {
        PutNew(records, r);
      }
    }
  }

  lemma {:induction false} LoadIsDistinct(log: seq<Record>, now: int)
    ensures Distinct(Load(log, now))
  {
    if log != [] {
      LoadIsDistinct(log[..|log| - 1], now);
      PutMembers(Load(log[..|log| - 1], now), log[|log| - 1]);
    }
  }

  lemma {:induction false} LoadKeepsLast(log: seq<Record>, now: int, r: Record)
    requires LastOf(log, r) && now < r.exp
    ensures r in Load(log, now)
  {
    var shorter, last := log[..|log| - 1], log[|log| - 1];
    LoadIsDistinct(shorter, now);
    PutMembers(Load(shorter, now), last);
    if last != r {
      var k :| 0 <= k < |log| && log[k] == r && forall l :: k < l < |log| ==> log[l].hash != r.hash;
      assert shorter[k] == r;
      LoadKeepsLast(shorter, now, r);
    }
  }

  lemma LastOfLonger(log: seq<Record>, r: Record, x: Record)
    ensures LastOf(log + [r], r)
    ensures LastOf(log, r) && x.hash != r.hash ==> LastOf(log + [x], r)
  {
    assert (log + [r])[|log|] == r;
    if LastOf(log, r) && x.hash != r.hash {
      var k :| 0 <= k < |log| && log[k] == r && forall l :: k < l < |log| ==> log[l].hash != r.hash;
      assert (log + [x])[k] == r;
    }
  }

  lemma DistinctIsLast(records: seq<Record>, r: Record)
    requires Distinct(records) && r in records
    ensures LastOf(records, r)
  {
    var k :| 0 <= k < |records| && records[k] == r;
  }

  /** Before its expiry is reached a held record stays held, and its id is refused. */
  lemma ConsumeKeepsHeld(g: Guard, r: Record, token: Record, now: int, fault: Fault)
    requires Held(g, r) && now < r.exp
    ensures Held(Consume(g, token, now, fault).0, r)
    ensures token.hash == r.hash ==> !Consume(g, token, now, fault).1
  {
    var purged := Unexpired(g.memory, now);
    ConsumeOutcomes(g, token, now, fault);
    UnexpiredStaysDistinct(g.memory, now);
    UnexpiredMember(g.memory, now, r);
    if now < token.exp && !Has(purged, token.hash) {
      PutNew(purged, token);
      LastOfLonger(g.log, r, token);
      DistinctIsLast(purged + [token], r);
    }
  }

  lemma RestartKeepsHeld(g: Guard, r: Record, now: int)
    requires Held(g, r) && now < r.exp
    ensures Held(Restart(g, now), r)
  {
    LoadIsDistinct(g.log, now);
    LoadKeepsLast(g.log, now, r);
  }

  lemma {:induction false} MemoryIsDistinct(start: int, steps: seq<Step>)
    ensures Distinct(Run(start, steps).guard.memory)
  {
    if steps != [] {
      var g := Run(start, steps[..|steps| - 1]).guard;
      MemoryIsDistinct(start, steps[..|steps| - 1]);
      match steps[|steps| - 1] {
        case Present(r, now, fault) =>
          ConsumeOutcomes(g, r, now, fault);
          UnexpiredStaysDistinct(g.memory, now);
          if now < r.exp && !Has(Unexpired(g.memory, now), r.hash) {
            PutNew(Unexpired(g.memory, now), r);
          }
        case Reboot(now) =>
          LoadIsDistinct(g.log, now);
      }
    }
  }

  lemma AcceptedIsHeld(start: int, steps: seq<Step>, i: nat)
    requires Accepts(start, steps, i)
    ensures Held(Run(start, steps[..i + 1]).guard, steps[i].record)
    ensures steps[i].now < steps[i].record.exp
  {
    var g, r, now := Run(start, steps[..i]).guard, steps[i].record, steps[i].now;
    assert steps[..i + 1][..i] == steps[..i];
    MemoryIsDistinct(start, steps[..i + 1]);
    ConsumeOutcomes(g, r, now, steps[i].fault);
    LastOfLonger(g.log, r, r);
    DistinctIsLast(Unexpired(g.memory, now) + [r], r);
  }

  lemma StepKeepsHeld(s: System, step: Step, r: Record)
    requires Held(s.guard, r) && step.now < r.exp
    ensures Held(Apply(s, step).guard, r)
  {
    match step
    case Present(token, now, fault) => ConsumeKeepsHeld(s.guard, r, token, now, fault);
    case Reboot(now) => RestartKeepsHeld(s.guard, r, now);
  }

  lemma RunNext(start: int, steps: seq<Step>, n: nat)
    requires 0 < n <= |steps|
    ensures Run(start, steps[..n]) == Apply(Run(start, steps[..n - 1]), steps[n - 1])
  {
    assert steps[..n][..n - 1] == steps[..n - 1];
  }

  lemma {:induction false} HeldStays(start: int, steps: seq<Step>, r: Record, m: nat, n: nat)
    requires m <= n <= |steps| && Held(Run(start, steps[..m]).guard, r)
    requires forall j :: m <= j < n ==> steps[j].now < r.exp
    ensures Held(Run(start, steps[..n]).guard, r)
  {
    if m < n {
      var s := Run(start, steps[..n - 1]);
      assert Held(s.guard, r) by {
        HeldStays(start, steps, r, m, n - 1);
      }
      RunNext(start, steps, n);
      StepKeepsHeld(s, steps[n - 1], r);
    }
  }

  /** An accepted record is held until the clock reads its expiry or later, restarts and failed writes included. */
  lemma HeldUntilExpiry(start: int, steps: seq<Step>, i: nat, n: nat)
    requires Accepts(start, steps, i) && i < n <= |steps|
    requires forall j :: i < j < n ==> steps[j].now < steps[i].record.exp
    ensures Held(Run(start, steps[..n]).guard, steps[i].record)
  {
    AcceptedIsHeld(start, steps, i);
    HeldStays(start, steps, steps[i].record, i + 1, n);
  }

  lemma HeldIsRefused(start: int, steps: seq<Step>, r: Record, k: nat)
    requires Accepts(start, steps, k) && steps[k].record.hash == r.hash && steps[k].now < r.exp
    ensures !Held(Run(start, steps[..k]).guard, r)
  {
    var g := Run(start, steps[..k]).guard;
    if Held(g, r) {
      ConsumeKeepsHeld(g, r, steps[k].record, steps[k].now, steps[k].fault);
    }
  }

  /**
   Over every run of presentations, purges, compactions, restarts and failed writes, on any clock: between two
   acceptances of one token id the clock has read the expiry of the first, or later.
   */
  lemma AcceptedAgainOnlyAfterExpiry(start: int, steps: seq<Step>, i: nat, k: nat) returns (j: nat)
    requires Accepts(start, steps, i) && Accepts(start, steps, k) && i < k
    requires steps[i].record.hash == steps[k].record.hash
    ensures i < j <= k && steps[i].now < steps[i].record.exp <= steps[j].now && steps[k].now < steps[k].record.exp
  {
    AcceptedIsHeld(start, steps, i);
    AcceptedIsHeld(start, steps, k);
    if exists l: nat :: i < l <= k && steps[i].record.exp <= steps[l].now {
      j :| i < j <= k && steps[i].record.exp <= steps[j].now;
    } else {
      HeldUntilExpiry(start, steps, i, k);
      HeldIsRefused(start, steps, steps[i].record, k);
      assert false;
    }
  }

  // ----- What is accepted -----

  /** A presentation whose writes work is let in exactly if it is unexpired and no unexpired record has its hash. */
  lemma AcceptsExactlyFreshIds(start: int, steps: seq<Step>, i: nat)
    requires i < |steps| && steps[i].Present? && steps[i].fault.NoFault?
    ensures var memory := Run(start, steps[..i]).guard.memory;
            Accepts(start, steps, i)
            <==> steps[i].now < steps[i].record.exp
                 && forall r :: r in memory && r.hash == steps[i].record.hash ==> r.exp <= steps[i].now
  {
    var memory := Run(start, steps[..i]).guard.memory;
    forall r ensures r in Unexpired(memory, steps[i].now) <==> r in memory && r.exp > steps[i].now {
      UnexpiredMember(memory, steps[i].now, r);
    }
  }

  /** The writes that fail are those of presentations that are not let in. */
  lemma FaultsRefuse(start: int, steps: seq<Step>, i: nat)
    requires Accepts(start, steps, i)
    ensures !steps[i].fault.AppendFails?
    ensures steps[i].fault.CompactFails? ==> (Run(start, steps[..i]).guard.writes + 1) % COMPACT_INTERVAL != 0
  {
  }

  /** What a fresh id leaves in the log: itself, or with every 256th write since the start the whole memory instead. */
  lemma FreshIdsAreLogged(g: Guard, r: Record, now: int, fault: Fault)
    requires now < r.exp && !Has(Unexpired(g.memory, now), r.hash)
    ensures var (g', accepted) := Consume(g, r, now, fault);
            var compacts := (g.writes + 1) % 256 == 0;
            && g'.memory == Unexpired(g.memory, now) + [r]
            && g'.writes == g.writes + (if fault.AppendFails? then 0 else 1)
            && g'.log == (if fault.AppendFails? then g.log
                          else if compacts && !fault.CompactFails? then g'.memory
                          else g.log + [r])
            && (accepted <==> !fault.AppendFails? && !(compacts && fault.CompactFails?))
  {
    PutNew(Unexpired(g.memory, now), r);
  }

  predicate NoFaults(steps: seq<Step>) {
    forall step :: step in steps ==> step.Present? ==> step.fault.NoFault?
  }

  /** The record was let in at one of the first steps. */
  ghost predicate WasAccepted(start: int, steps: seq<Step>, r: Record, n: nat) {
    exists i: nat :: i < n && Accepts(start, steps, i) && steps[i].record == r
  }

  ghost predicate AllWereAccepted(start: int, steps: seq<Step>, records: seq<Record>, n: nat) {
    forall r :: r in records ==> WasAccepted(start, steps, r, n)
  }

  lemma AcceptedLater(start: int, steps: seq<Step>, records: seq<Record>, n: nat)
    requires AllWereAccepted(start, steps, records, n)
    ensures AllWereAccepted(start, steps, records, n + 1)
  {
    forall r | r in records ensures WasAccepted(start, steps, r, n + 1) {
      assert WasAccepted(start, steps, r, n);
      var i: nat :| i < n && Accepts(start, steps, i) && steps[i].record == r;
      assert i < n + 1;
    }
  }

  lemma {:induction false} LoadMember(log: seq<Record>, now: int, r: Record)
    requires r in Load(log, now)
    ensures r in log
  {
    var shorter := log[..|log| - 1];
    LoadIsDistinct(shorter, now);
    PutMembers(Load(shorter, now), log[|log| - 1]);
    if r in Load(shorter, now) {
      LoadMember(shorter, now, r);
    }
  }

  /** Without faults, whatever is remembered or logged was let in. */
  lemma {:induction false} RememberedWasAccepted(start: int, steps: seq<Step>, n: nat)
    requires n <= |steps| && NoFaults(steps)
    ensures var g := Run(start, steps[..n]).guard;
            AllWereAccepted(start, steps, g.memory, n) && AllWereAccepted(start, steps, g.log, n)
  {
    if n > 0 {
      var g := Run(start, steps[..n - 1]).guard;
      RunNext(start, steps, n);
      RememberedWasAccepted(start, steps, n - 1);
      AcceptedLater(start, steps, g.memory, n - 1);
      AcceptedLater(start, steps, g.log, n - 1);
      StepRemembersAccepted(start, steps, n - 1);
    }
  }

  lemma StepRemembersAccepted(start: int, steps: seq<Step>, i: nat)
    requires i < |steps| && NoFaults(steps)
    requires var g := Run(start, steps[..i]).guard;
             AllWereAccepted(start, steps, g.memory, i + 1) && AllWereAccepted(start, steps, g.log, i + 1)
    ensures var g := Apply(Run(start, steps[..i]), steps[i]).guard;
            AllWereAccepted(start, steps, g.memory, i + 1) && AllWereAccepted(start, steps, g.log, i + 1)
  {
    var s := Run(start, steps[..i]);
    var g := Apply(s, steps[i]).guard;
    match steps[i] {
      case Reboot(now) =>
        forall r | r in g.memory ensures r in s.guard.log {
          LoadMember(s.guard.log, now, r);
        }
      case Present(token, now, fault) =>
        assert steps[i] in steps && fault.NoFault?;
        ConsumeOutcomes(s.guard, token, now, fault);
        forall r | r in g.memory ensures r in s.guard.memory || WasAccepted(start, steps, r, i + 1) {
          UnexpiredMember(s.guard.memory, now, r);
          if r == token && r !in s.guard.memory {
            assert Accepts(start, steps, i);
          }
        }
        forall r | r in g.log
          ensures r in s.guard.log || r in s.guard.memory || WasAccepted(start, steps, r, i + 1)
        {
          UnexpiredMember(s.guard.memory, now, r);
          if r == token && r !in s.guard.log && r !in s.guard.memory {
            assert Accepts(start, steps, i);
          }
        }
    }
  }

  /** Some reading is later than one before it and one after it. */
  ghost predicate Peaks(ts: seq<int>) {
    exists i, j, k :: 0 <= i < j < k < |ts| && ts[i] < ts[j] && ts[k] < ts[j]
  }

  /** The readings reach an expiry after one and before another that do not. */
  ghost predicate PeaksOver(ts: seq<int>, exp: int) {
    exists i, j, k :: 0 <= i < j < k < |ts| && ts[i] < exp <= ts[j] && ts[k] < exp
  }

  lemma MonotoneHasNoPeak(start: int, steps: seq<Step>)
    requires Monotone(start, steps)
    ensures !Peaks(Times(steps))
  {
    var ts := Times(steps);
    forall j, k | 0 <= j < k < |ts| ensures ts[j] <= ts[k] {
      Ascending(start, steps, j, k);
    }
  }

  lemma {:induction false} Ascending(start: int, steps: seq<Step>, j: nat, k: nat)
    requires Monotone(start, steps) && j < k < |steps|
    ensures steps[j].now <= steps[k].now
  {
    if j < k - 1 {
      Ascending(start, steps, j, k - 1);
    }
  }

  /**
   A clock without a peak, such as one that never goes back, accepts a token at most once, and its id not again before
   it has expired.
   */
  lemma AcceptedAtMostOnce(start: int, steps: seq<Step>, i: nat, k: nat)
    requires !Peaks(Times(steps)) && Accepts(start, steps, i) && Accepts(start, steps, k) && i < k
    ensures steps[i].record != steps[k].record
    ensures steps[i].record.hash == steps[k].record.hash ==> steps[i].record.exp <= steps[k].now
  {
    if steps[i].record.hash == steps[k].record.hash {
      var j := AcceptedAgainOnlyAfterExpiry(start, steps, i, k);
      var ts := Times(steps);
      assert ts[i] < ts[j] && (j < k ==> ts[j] <= ts[k]);
    }
  }

  /** An unexpired record of this hash has been let in before. */
  ghost predicate InUse(start: int, steps: seq<Step>, i: nat)
    requires i < |steps| && steps[i].Present?
  {
    exists j: nat :: j < i && Accepts(start, steps, j)
                     && steps[j].record.hash == steps[i].record.hash && steps[j].record.exp > steps[i].now
  }

  /**
   Over the history: where no write fails and the clock has no peak, a token is let in exactly if it is unexpired and
   no token of its id that was let in before is unexpired.
   */
  lemma AcceptedExactlyUnlessInUse(start: int, steps: seq<Step>, i: nat)
    requires !Peaks(Times(steps)) && NoFaults(steps) && i < |steps| && steps[i].Present?
    ensures Accepts(start, steps, i) <==> steps[i].now < steps[i].record.exp && !InUse(start, steps, i)
  {
    assert steps[i] in steps;
    AcceptsExactlyFreshIds(start, steps, i);
    RememberedWasAccepted(start, steps, i);
    if Accepts(start, steps, i) && InUse(start, steps, i) {
      var j: nat :| j < i && Accepts(start, steps, j)
                    && steps[j].record.hash == steps[i].record.hash && steps[j].record.exp > steps[i].now;
      AcceptedAtMostOnce(start, steps, j, i);
    }
    if steps[i].now < steps[i].record.exp && !InUse(start, steps, i) {
      var memory := Run(start, steps[..i]).guard.memory;
      forall r | r in memory && r.hash == steps[i].record.hash ensures r.exp <= steps[i].now {
        assert WasAccepted(start, steps, r, i);
      }
    }
  }

  // ----- The schedule behind a peak -----

  /** Present the token before, restart at the peak, present it again; everything else is expired when it comes. */
  function Schedule(token: Record, ts: seq<int>, i: nat, j: nat, k: nat): (steps: seq<Step>)
    ensures Times(steps) == ts
  {
    seq(|ts|, m requires 0 <= m < |ts| =>
      if m == i || m == k then Present(token, ts[m], NoFault)
      else if m == j then Reboot(ts[m])
      else Present(Record("", ts[m]), ts[m], NoFault))
  }

  lemma ScheduleStart(start: int, token: Record, ts: seq<int>, i: nat, j: nat, k: nat, n: nat)
    requires i < j < k < |ts| && ts[i] < token.exp <= ts[j] && n <= k
    ensures Run(start, Schedule(token, ts, i, j, k)[..n]).guard
            == if n <= i then Guard([], [], 0) else if n <= j then Guard([token], [token], 1) else Guard([], [token], 0)
    decreases n
  {
    if n > 0 {
      var steps := Schedule(token, ts, i, j, k);
      ScheduleStart(start, token, ts, i, j, k, n - 1);
      assert steps[..n][..n - 1] == steps[..n - 1];
      assert [token][..0] == [] && Load([], ts[n - 1]) == [];
    }
  }

  lemma ScheduleAccepts(start: int, token: Record, ts: seq<int>, i: nat, j: nat, k: nat)
    requires i < j < k < |ts| && ts[i] < token.exp <= ts[j] && ts[k] < token.exp
    ensures AcceptedTwice(start, Schedule(token, ts, i, j, k), token)
  {
    var steps := Schedule(token, ts, i, j, k);
    ScheduleStart(start, token, ts, i, j, k, i);
    ScheduleStart(start, token, ts, i, j, k, k);
    assert Accepts(start, steps, i) && Accepts(start, steps, k);
  }

  lemma TwiceAtNeedsAPeak(start: int, steps: seq<Step>, i: nat, k: nat)
    requires Accepts(start, steps, i) && Accepts(start, steps, k) && i < k
    requires steps[i].record == steps[k].record
    ensures PeaksOver(Times(steps), steps[i].record.exp)
  {
    var j := AcceptedAgainOnlyAfterExpiry(start, steps, i, k);
    var ts, exp := Times(steps), steps[i].record.exp;
    assert ts[i] < exp <= ts[j] && ts[k] < exp;
  }

  lemma TwiceNeedsAPeak(start: int, steps: seq<Step>, token: Record)
    requires AcceptedTwice(start, steps, token)
    ensures PeaksOver(Times(steps), token.exp)
  {
    var i: nat, k: nat :| i < k && Accepts(start, steps, i) && Accepts(start, steps, k)
                          && steps[i].record == token && steps[k].record == token;
    TwiceAtNeedsAPeak(start, steps, i, k);
  }

  /** A token can get in twice exactly if the clock reaches its expiry and falls behind it again. */
  lemma TokenGetsInTwiceExactlyOverItsExpiry(start: int, token: Record, ts: seq<int>)
    ensures (exists steps :: Times(steps) == ts && AcceptedTwice(start, steps, token)) <==> PeaksOver(ts, token.exp)
  {
    if PeaksOver(ts, token.exp) {
      var i, j, k :| 0 <= i < j < k < |ts| && ts[i] < token.exp <= ts[j] && ts[k] < token.exp;
      ScheduleAccepts(start, token, ts, i, j, k);
    } else if steps: seq<Step> :| Times(steps) == ts && AcceptedTwice(start, steps, token) {
      TwiceNeedsAPeak(start, steps, token);
    }
  }

  lemma OverAnExpiryIsAPeak(ts: seq<int>, exp: int)
    requires PeaksOver(ts, exp)
    ensures Peaks(ts)
  {
    var i, j, k :| 0 <= i < j < k < |ts| && ts[i] < exp <= ts[j] && ts[k] < exp;
    assert ts[i] < ts[j] && ts[k] < ts[j];
  }

  /**
   The readings of the clock decide: some token can get in twice exactly if a reading is later than one before it and
   one after it. A clock that only falls, or never falls, lets every token in at most once.
   */
  lemma SomeTokenGetsInTwiceExactlyAfterAPeak(start: int, ts: seq<int>)
    ensures (exists steps, token :: Times(steps) == ts && AcceptedTwice(start, steps, token)) <==> Peaks(ts)
  {
    if Peaks(ts) {
      var i, j, k :| 0 <= i < j < k < |ts| && ts[i] < ts[j] && ts[k] < ts[j];
      ScheduleAccepts(start, Record("", ts[j]), ts, i, j, k);
    } else if steps: seq<Step>, token :| Times(steps) == ts && AcceptedTwice(start, steps, token) {
      TwiceNeedsAPeak(start, steps, token);
      OverAnExpiryIsAPeak(ts, token.exp);
    }
  }

  // ----- Reading the log back -----

  predicate NoAppendFails(steps: seq<Step>) {
    forall step :: step in steps ==> step.Present? ==> !step.fault.AppendFails?
  }

  /** Memory and log hold the same unexpired records in the same order, now and at any later time. */
  ghost predicate SameUnexpired(g: Guard, clock: int) {
    forall t: int :: t >= clock ==> Unexpired(g.log, t) == Unexpired(g.memory, t)
  }

  lemma {:induction false} UnexpiredTwice(records: seq<Record>, now: int, later: int)
    requires now <= later
    ensures Unexpired(Unexpired(records, now), later) == Unexpired(records, later)
  {
    if records != [] {
      UnexpiredTwice(records[..|records| - 1], now, later);
    }
  }

  /** The purge looks at every record for itself and keeps the order. */
  lemma {:induction false} UnexpiredConcat(a: seq<Record>, b: seq<Record>, now: int)
    ensures Unexpired(a + b, now) == Unexpired(a, now) + Unexpired(b, now)
  {
    if b == [] {
      assert a + b == a;
    } else {
      UnexpiredConcat(a, b[..|b| - 1], now);
      assert (a + b)[..|a + b| - 1] == a + b[..|b| - 1];
    }
  }

  lemma UnexpiredPlus(a: seq<Record>, b: seq<Record>, r: Record, now: int)
    requires Unexpired(a, now) == Unexpired(b, now)
    ensures Unexpired(a + [r], now) == Unexpired(b + [r], now)
  {
    assert (a + [r])[..|a|] == a && (b + [r])[..|b|] == b;
  }

  lemma RestartKeepsSame(s: System, now: int, t: int)
    requires Inv(s) && s.clock <= now <= t
    ensures var g := Restart(s.guard, now); Unexpired(g.log, t) == Unexpired(g.memory, t)
  {
    RestartKeepsInv(s, now);
    UnexpiredTwice(s.guard.log, now, t);
  }

  lemma PresentKeepsSame(g: Guard, r: Record, now: int, fault: Fault, t: int)
    requires Unexpired(g.log, t) == Unexpired(g.memory, t) && now <= t && !fault.AppendFails?
    ensures var g' := Consume(g, r, now, fault).0; Unexpired(g'.log, t) == Unexpired(g'.memory, t)
  {
    var purged := Unexpired(g.memory, now);
    UnexpiredTwice(g.memory, now, t);
    UnexpiredPlus(g.log, purged, r, t);
    ConsumeOutcomes(g, r, now, fault);
  }

  lemma StepKeepsSame(s: System, step: Step)
    requires Inv(s) && SameUnexpired(s.guard, s.clock) && s.clock <= step.now
    requires step.Present? ==> !step.fault.AppendFails?
    ensures SameUnexpired(Apply(s, step).guard, step.now)
  {
    var g' := Apply(s, step).guard;
    forall t: int | t >= step.now ensures Unexpired(g'.log, t) == Unexpired(g'.memory, t) {
      match step {
        case Reboot(now) => RestartKeepsSame(s, now, t);
        case Present(r, now, fault) => PresentKeepsSame(s.guard, r, now, fault, t);
      }
    }
  }

  lemma {:induction false} RunKeepsSame(start: int, steps: seq<Step>)
    requires Monotone(start, steps) && NoAppendFails(steps)
    ensures SameUnexpired(Run(start, steps).guard, Run(start, steps).clock)
  {
    RunKeepsInv(start, steps);
    if steps != [] {
      var shorter := steps[..|steps| - 1];
      RunKeepsSame(start, shorter);
      RunKeepsInv(start, shorter);
      StepKeepsSame(Run(start, shorter), steps[|steps| - 1]);
    }
  }

  /**
   Unless an append failed, reading the log back at any later time gives exactly the unexpired part of the map, in
   its order; after a failed append it gives part of it.
   */
  lemma ReloadGivesTheUnexpiredMap(start: int, steps: seq<Step>, now: int)
    requires Monotone(start, steps) && Run(start, steps).clock <= now
    ensures var g := Run(start, steps).guard;
            && (NoAppendFails(steps) ==> Load(g.log, now) == Unexpired(g.memory, now))
            && (forall r :: r in Load(g.log, now) ==> r in Unexpired(g.memory, now))
  {
    RunKeepsInv(start, steps);
    RestartKeepsInv(Run(start, steps), now);
    var g := Run(start, steps).guard;
    if NoAppendFails(steps) {
      RunKeepsSame(start, steps);
    }
    forall r | r in Unexpired(g.log, now) ensures r in Unexpired(g.memory, now) {
      UnexpiredMember(g.log, now, r);
      UnexpiredMember(g.memory, now, r);
    }
  }

  /** In the log, records of one hash have strictly increasing expiries. */
  lemma LogIsIncreasing(start: int, steps: seq<Step>)
    requires Monotone(start, steps)
    ensures Increasing(Run(start, steps).guard.log)
  {
    RunKeepsInv(start, steps);
  }
}
