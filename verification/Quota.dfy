/**
 The daily input-token ledger. A turn reserves its estimate before it runs and settles the reservation against
 the tokens the provider reports (or against zero when the turn fails).
 */
module Quota {
  import opened Prelude

  datatype Slot = Slot(period: string, workspace: string, project: string)

  type Usage = map<Slot, int>

  datatype StorageError = TooLarge

  function UsageOf(usage: Usage, slot: Slot): int {
    if slot in usage then usage[slot] else 0
  }

  /**
   INSERT ... SELECT ... WHERE requested <= limit ON CONFLICT DO UPDATE ... WHERE stored + requested <= limit:
   the first condition also guards the update, and values beyond 64 bits are storage errors.
   */
  function Reserve(usage: Usage, slot: Slot, requested: nat, limit: nat): Result<(Usage, bool), StorageError> {
    if requested > I64_MAX || limit > I64_MAX then Err(TooLarge)
    else if requested > limit then Ok((usage, false))
    else if slot !in usage then Ok((usage[slot := requested], true))
    else if usage[slot] + requested > I64_MAX then Err(TooLarge)
    else if usage[slot] + requested <= limit then Ok((usage[slot := usage[slot] + requested], true))
    else Ok((usage, false))
  }

  /** UPDATE ... SET input_tokens = GREATEST(0, input_tokens + actual - reserved). */
  function Settle(usage: Usage, slot: Slot, reserved: nat, actual: nat): Result<Usage, StorageError> {
    if reserved > I64_MAX || actual > I64_MAX then Err(TooLarge)
    else if slot !in usage then Ok(usage)
    else if usage[slot] + actual > I64_MAX then Err(TooLarge)
    else
      var balance := usage[slot] + actual - reserved;
      Ok(usage[slot := if balance < 0 then 0 else balance])
  }

  class QuotaStore {
    var usage: Usage

    constructor ()
      ensures usage == map[]
    {
      usage := map[];
    }

    method ReserveTokens(slot: Slot, requested: nat, limit: nat) returns (r: Result<bool, StorageError>)
      modifies this
      ensures match Reserve(old(usage), slot, requested, limit)
              case Ok((after, granted)) => r == Ok(granted) && usage == after
              case Err(e) => r == Err(e) && usage == old(usage)
    {
      if requested > I64_MAX || limit > I64_MAX {
        return Err(TooLarge);
      }
      if requested > limit {
        return Ok(false);
      }
      var stored := if slot in usage then usage[slot] else 0;
      if slot in usage && stored + requested > I64_MAX {
        return Err(TooLarge);
      }
      if slot in usage && stored + requested > limit {
        return Ok(false);
      }
      usage := usage[slot := stored + requested];
      r := Ok(true);
    }

    method SettleUsage(slot: Slot, reserved: nat, actual: nat) returns (r: Result<(), StorageError>)
      modifies this
      ensures match Settle(old(usage), slot, reserved, actual)
              case Ok(after) => r == Ok(()) && usage == after
              case Err(e) => r == Err(e) && usage == old(usage)
    {
      if reserved > I64_MAX || actual > I64_MAX {
        return Err(TooLarge);
      }
      if slot in usage {
        var sum := usage[slot] + actual;
        if sum > I64_MAX {
          return Err(TooLarge);
        }
        usage := usage[slot := if sum < reserved then 0 else sum - reserved];
      }
      r := Ok(());
    }
  }

  // ----- Runs of the ledger -----

  /** A granted reservation: still open, or settled against the tokens actually used. */
  datatype Entry = Entry(slot: Slot, tokens: nat, settled: Option<nat>)

  /** `entries` is the history of grants; a turn refers to its own grant by position. */
  datatype Ledger = Ledger(usage: Usage, entries: seq<Entry>)

  const EMPTY := Ledger(map[], [])

  datatype Step =
    | ReserveStep(slot: Slot, requested: nat, limit: nat)
    | SettleStep(grant: nat, actual: nat)

  /** A reservation of zero tokens is not settled in storage; a failed statement leaves its reservation open. */
  function Apply(l: Ledger, step: Step): Ledger {
    match step
    case ReserveStep(slot, requested, limit) =>
      (match Reserve(l.usage, slot, requested, limit)
       case Ok((usage, true)) => Ledger(usage, l.entries + [Entry(slot, requested, None)])
       case _ => l)
    case SettleStep(grant, actual) =>
      if grant >= |l.entries| || l.entries[grant].settled.Some? then l
      else
        var entry := l.entries[grant];
        if entry.tokens == 0 then l.(entries := l.entries[grant := entry.(settled := Some(0))])
        else match Settle(l.usage, entry.slot, entry.tokens, actual)
          case Ok(usage) => Ledger(usage, l.entries[grant := entry.(settled := Some(actual))])
          case Err(_) => l
  }

  function Run(l: Ledger, steps: seq<Step>): Ledger {
    if steps == [] then l else Apply(Run(l, steps[..|steps| - 1]), steps[|steps| - 1])
  }

  /** The tokens of outstanding reservations of a slot. */
  function Outstanding(entries: seq<Entry>, slot: Slot): nat {
    if entries == [] then 0
    else
      var e := entries[|entries| - 1];
      Outstanding(entries[..|entries| - 1], slot) + if e.slot == slot && e.settled.None? then e.tokens else 0
  }

  /** The tokens actually used by the settled turns of a slot. */
  function Settled(entries: seq<Entry>, slot: Slot): nat {
    if entries == [] then 0
    else
      var e := entries[|entries| - 1];
      Settled(entries[..|entries| - 1], slot) + if e.slot == slot && e.settled.Some? then e.settled.value else 0
  }

  /** How far settled turns of a slot went beyond what they had reserved. */
  function Overrun(entries: seq<Entry>, slot: Slot): nat {
    if entries == [] then 0
    else
      var e := entries[|entries| - 1];
      Overrun(entries[..|entries| - 1], slot)
        + if e.slot == slot && e.settled.Some? && e.settled.value > e.tokens then e.settled.value - e.tokens else 0
  }

  /** Settling one open entry moves exactly its tokens from outstanding to settled. */
  lemma {:induction false} SettlingOneEntry(entries: seq<Entry>, i: nat, actual: nat, slot: Slot)
    requires i < |entries| && entries[i].settled.None?
    ensures var after := entries[i := entries[i].(settled := Some(actual))];
            var own := entries[i].slot == slot;
            && Outstanding(after, slot) == Outstanding(entries, slot) - (if own then entries[i].tokens else 0)
            && Settled(after, slot) == Settled(entries, slot) + (if own then actual else 0)
            && Overrun(after, slot) == Overrun(entries, slot)
                 + (if own && actual > entries[i].tokens then actual - entries[i].tokens else 0)
  {
    var last := |entries| - 1;
    var after := entries[i := entries[i].(settled := Some(actual))];
    if i < last {
      SettlingOneEntry(entries[..last], i, actual, slot);
      assert after[..last] == entries[..last][i := entries[i].(settled := Some(actual))];
    } else {
      assert after[..last] == entries[..last];
    }
  }

  lemma GrantingOneEntry(entries: seq<Entry>, e: Entry, slot: Slot)
    requires e.settled.None?
    ensures var after := entries + [e];
            && Outstanding(after, slot) == Outstanding(entries, slot) + (if e.slot == slot then e.tokens else 0)
            && Settled(after, slot) == Settled(entries, slot)
            && Overrun(after, slot) == Overrun(entries, slot)
  {
    assert (entries + [e])[..|entries|] == entries;
  }

  predicate Balanced(l: Ledger) {
    && (forall slot :: slot in l.usage ==> l.usage[slot] == Settled(l.entries, slot) + Outstanding(l.entries, slot))
    && (forall e :: e in l.entries ==> e.slot in l.usage)
  }

  lemma {:induction false} NothingRecorded(entries: seq<Entry>, slot: Slot)
    requires forall e :: e in entries ==> e.slot != slot
    ensures Outstanding(entries, slot) == Settled(entries, slot) == Overrun(entries, slot) == 0
  {
    if entries != [] {
      NothingRecorded(entries[..|entries| - 1], slot);
    }
  }

  /** The ledger after a granted reservation. */
  function WithGrant(l: Ledger, slot: Slot, requested: nat): Ledger {
    Ledger(l.usage[slot := UsageOf(l.usage, slot) + requested], l.entries + [Entry(slot, requested, None)])
  }

  lemma ReservationEffect(usage: Usage, slot: Slot, requested: nat, limit: nat)
    ensures var r := Reserve(usage, slot, requested, limit);
            r.Ok? && r.value.1 ==>
              && r.value.0 == usage[slot := UsageOf(usage, slot) + requested]
              && UsageOf(usage, slot) + requested <= limit
  {
  }

  lemma WithGrantBalanced(l: Ledger, slot: Slot, requested: nat)
    requires Balanced(l)
    ensures Balanced(WithGrant(l, slot, requested))
  {
    var l' := WithGrant(l, slot, requested);
    if slot !in l.usage {
      NothingRecorded(l.entries, slot);
    }
    forall s | s in l'.usage ensures l'.usage[s] == Settled(l'.entries, s) + Outstanding(l'.entries, s) {
      GrantingOneEntry(l.entries, Entry(slot, requested, None), s);
    }
  }

  lemma GrantKeepsBalance(l: Ledger, slot: Slot, requested: nat, limit: nat)
    requires Balanced(l)
    ensures Balanced(Apply(l, ReserveStep(slot, requested, limit)))
  {
    ReservationEffect(l.usage, slot, requested, limit);
    WithGrantBalanced(l, slot, requested);
  }

  lemma SettlementKeepsBalance(l: Ledger, grant: nat, actual: nat)
    requires Balanced(l)
    ensures Balanced(Apply(l, SettleStep(grant, actual)))
  {
    var l' := Apply(l, SettleStep(grant, actual));
    if l' != l {
      var entry := l.entries[grant];
      var used := l'.entries[grant].settled.value;
      assert entry in l.entries;
      forall s | s in l'.usage ensures l'.usage[s] == Settled(l'.entries, s) + Outstanding(l'.entries, s) {
        SettlingOneEntry(l.entries, grant, used, s);
      }
    }
  }

  lemma StepKeepsBalance(l: Ledger, step: Step)
    requires Balanced(l)
    ensures Balanced(Apply(l, step))
  {
    match step
    case ReserveStep(slot, requested, limit) => GrantKeepsBalance(l, slot, requested, limit);
    case SettleStep(grant, actual) => SettlementKeepsBalance(l, grant, actual);
  }

  lemma {:induction false} RunKeepsBalance(steps: seq<Step>)
    ensures Balanced(Run(EMPTY, steps))
  {
    if steps != [] {
      RunKeepsBalance(steps[..|steps| - 1]);
      StepKeepsBalance(Run(EMPTY, steps[..|steps| - 1]), steps[|steps| - 1]);
    }
  }

  // ----- Theorems -----

  /** Conservation: whatever ran, the stored usage is what was used plus what is still reserved. */
  lemma UsageIsConserved(steps: seq<Step>, slot: Slot)
    ensures var l := Run(EMPTY, steps);
            UsageOf(l.usage, slot) == Settled(l.entries, slot) + Outstanding(l.entries, slot)
  {
    var l := Run(EMPTY, steps);
    RunKeepsBalance(steps);
    if slot !in l.usage {
      NothingRecorded(l.entries, slot);
    }
  }

  /** The clamp at zero never acts: a settlement of an open reservation always finds enough to take back. */
  lemma ClampNeverActs(steps: seq<Step>, grant: nat, actual: nat)
    requires var l := Run(EMPTY, steps); grant < |l.entries| && l.entries[grant].settled.None?
    ensures var l := Run(EMPTY, steps); var e := l.entries[grant];
            && e.slot in l.usage && l.usage[e.slot] + actual - e.tokens >= 0
            && (Settle(l.usage, e.slot, e.tokens, actual).Ok? ==>
                  Settle(l.usage, e.slot, e.tokens, actual).value
                  == l.usage[e.slot := l.usage[e.slot] + actual - e.tokens])
  {
    var l := Run(EMPTY, steps);
    RunKeepsBalance(steps);
    assert l.entries[grant] in l.entries;
    SettlingOneEntry(l.entries, grant, actual, l.entries[grant].slot);
  }

  /** A reservation is granted exactly when the new usage fits the limit, and then that is the usage. */
  lemma GrantedExactlyWithinLimit(steps: seq<Step>, slot: Slot, requested: nat, limit: nat)
    requires requested <= I64_MAX && limit <= I64_MAX
    requires UsageOf(Run(EMPTY, steps).usage, slot) + requested <= I64_MAX
    ensures var l := Run(EMPTY, steps); var r := Reserve(l.usage, slot, requested, limit);
            && r.Ok?
            && (r.value.1 <==> Settled(l.entries, slot) + Outstanding(l.entries, slot) + requested <= limit)
            && UsageOf(r.value.0, slot) == UsageOf(l.usage, slot) + (if r.value.1 then requested else 0)
  {
    UsageIsConserved(steps, slot);
  }

  /** A reservation fails exactly on numbers beyond 64 bits, as far as the statement comes to see them. */
  lemma ReserveFailsExactly(steps: seq<Step>, slot: Slot, requested: nat, limit: nat)
    ensures var l := Run(EMPTY, steps);
            Reserve(l.usage, slot, requested, limit).Err?
            <==> requested > I64_MAX || limit > I64_MAX
                 || (requested <= limit
                     && Settled(l.entries, slot) + Outstanding(l.entries, slot) + requested > I64_MAX)
  {
    UsageIsConserved(steps, slot);
  }

  /**
   Settling an open reservation of some tokens succeeds exactly if the actual use, and the usage with it, fit 64 bits;
   then the entry is settled and the usage has the actual tokens in place of the reserved ones.
   */
  lemma SettlementSucceedsExactly(steps: seq<Step>, grant: nat, actual: nat)
    requires var l := Run(EMPTY, steps);
             grant < |l.entries| && l.entries[grant].settled.None? && l.entries[grant].tokens != 0
    ensures var l, l' := Run(EMPTY, steps), Apply(Run(EMPTY, steps), SettleStep(grant, actual));
            var e := l.entries[grant];
            && (l' == l <==> Settled(l.entries, e.slot) + Outstanding(l.entries, e.slot) + actual > I64_MAX)
            && (l' != l ==>
                  && l'.entries == l.entries[grant := Entry(e.slot, e.tokens, Some(actual))]
                  && UsageOf(l'.usage, e.slot) == UsageOf(l.usage, e.slot) + actual - e.tokens
                  && forall slot :: slot != e.slot ==> UsageOf(l'.usage, slot) == UsageOf(l.usage, slot))
  {
    var l := Run(EMPTY, steps);
    var e := l.entries[grant];
    RunKeepsBalance(steps);
    assert e in l.entries;
    ReservedWithinWidth(steps, grant);
    UsageIsConserved(steps, e.slot);
    ClampNeverActs(steps, grant, actual);
  }

  /** On any table: a settlement fails exactly beyond 64 bits, never leaves less than nothing, and touches one row. */
  lemma SettleExactly(usage: Usage, slot: Slot, reserved: nat, actual: nat)
    ensures var r := Settle(usage, slot, reserved, actual);
            && (r.Err? <==> reserved > I64_MAX || actual > I64_MAX
                            || (slot in usage && usage[slot] + actual > I64_MAX))
            && (r.Ok? && slot !in usage ==> r.value == usage)
            && (r.Ok? && slot in usage && usage[slot] + actual >= reserved ==>
                  r.value == usage[slot := usage[slot] + actual - reserved])
            && (r.Ok? && slot in usage && usage[slot] + actual < reserved ==> r.value == usage[slot := 0])
  {
  }

  /** A reservation of nothing is settled without storage, as nothing. */
  lemma NothingReservedNothingSettled(l: Ledger, grant: nat, actual: nat)
    requires grant < |l.entries| && l.entries[grant].settled.None? && l.entries[grant].tokens == 0
    ensures Apply(l, SettleStep(grant, actual))
         == Ledger(l.usage, l.entries[grant := Entry(l.entries[grant].slot, 0, Some(0))])
  {
  }

  /** What was granted is a 64-bit number. */
  lemma {:induction false} ReservedWithinWidth(steps: seq<Step>, grant: nat)
    requires grant < |Run(EMPTY, steps).entries|
    ensures Run(EMPTY, steps).entries[grant].tokens <= I64_MAX
  {
    if steps != [] {
      var before := Run(EMPTY, steps[..|steps| - 1]);
      if grant < |before.entries| {
        ReservedWithinWidth(steps[..|steps| - 1], grant);
      }
    }
  }

  predicate LimitsWithin(steps: seq<Step>, slot: Slot, limit: nat) {
    forall step :: step in steps && step.ReserveStep? && step.slot == slot ==> step.limit <= limit
  }

  lemma SettlingKeepsBound(l: Ledger, grant: nat, actual: nat, slot: Slot, limit: nat)
    requires Balanced(l) && UsageOf(l.usage, slot) <= limit + Overrun(l.entries, slot)
    ensures var l' := Apply(l, SettleStep(grant, actual));
            UsageOf(l'.usage, slot) <= limit + Overrun(l'.entries, slot)
  {
    if Apply(l, SettleStep(grant, actual)) != l {
      var e := l.entries[grant];
      var used := if e.tokens == 0 then 0 else actual;
      assert e in l.entries;
      SettlingOneEntry(l.entries, grant, used, slot);
      SettlingOneEntry(l.entries, grant, used, e.slot);
    }
  }

  lemma ReservingKeepsBound(l: Ledger, step: Step, slot: Slot, limit: nat)
    requires Balanced(l) && UsageOf(l.usage, slot) <= limit + Overrun(l.entries, slot)
    requires step.ReserveStep? && (step.slot == slot ==> step.limit <= limit)
    ensures var l' := Apply(l, step); UsageOf(l'.usage, slot) <= limit + Overrun(l'.entries, slot)
  {
    GrantingOneEntry(l.entries, Entry(step.slot, step.requested, None), slot);
    ReservationEffect(l.usage, step.slot, step.requested, step.limit);
  }

  lemma StepKeepsBound(l: Ledger, step: Step, slot: Slot, limit: nat)
    requires Balanced(l) && UsageOf(l.usage, slot) <= limit + Overrun(l.entries, slot)
    requires step.ReserveStep? && step.slot == slot ==> step.limit <= limit
    ensures var l' := Apply(l, step); UsageOf(l'.usage, slot) <= limit + Overrun(l'.entries, slot)
  {
    match step
    case ReserveStep(_, _, _) => ReservingKeepsBound(l, step, slot, limit);
    case SettleStep(grant, actual) => SettlingKeepsBound(l, grant, actual, slot, limit);
  }

  /** Under a constant limit the usage exceeds it by no more than the settled turns exceeded their estimates. */
  lemma {:induction false} UsageBoundedByLimitAndOverrun(steps: seq<Step>, slot: Slot, limit: nat)
    requires LimitsWithin(steps, slot, limit)
    ensures var l := Run(EMPTY, steps); UsageOf(l.usage, slot) <= limit + Overrun(l.entries, slot)
  {
    if steps != [] {
      UsageBoundedByLimitAndOverrun(steps[..|steps| - 1], slot, limit);
      RunKeepsBalance(steps[..|steps| - 1]);
      StepKeepsBound(Run(EMPTY, steps[..|steps| - 1]), steps[|steps| - 1], slot, limit);
    }
  }
}
