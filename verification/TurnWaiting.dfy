/**
 Who waits in the turn protocol, and for how long: a waiter is woken by an owner that goes on, and by nobody after a
 cancelled one. Also what a differing request hash is answered when nothing fails.
 */
module TurnWaiting {
  import opened Prelude
  import opened TurnRecords
  import opened TurnProtocol

  /** The owner of the channel was cancelled before its signal; the waiter waits, or its own request ended. */
  predicate Abandoned(s: State, c: CallerId, channel: CallerId) {
    && c in s.callers && (s.callers[c].phase == AwaitingPeer(channel) || s.callers[c].phase.Cancelled?)
    && channel in s.callers && s.callers[channel].phase.Cancelled? && channel !in s.released
  }

  lemma StepKeepsAbandoned(backend: Backend, s: State, step: Step, c: CallerId, channel: CallerId)
    requires Abandoned(s, c, channel)
    ensures Abandoned(Apply(backend, s, step), c, channel)
  {
    match step
    case Restart(_) =>
    case Cancel(_) =>
      if step.c != c {
        OthersStay(backend, s, step, c);
      }
    case Signal(_) => OthersKeepAbandoned(backend, s, step, c, channel);
    case Wake(_) => OthersKeepAbandoned(backend, s, step, c, channel);
    case _ =>
      QuietStepOrClaim(backend, s, step);
      OthersKeepAbandoned(backend, s, step, c, channel);
  }

  lemma QuietStepOrClaim(backend: Backend, s: State, step: Step)
    requires !step.Signal? && !step.Cancel? && !step.Restart?
    ensures Apply(backend, s, step).released == s.released
  {
    if !step.Claim? && !step.Publish? {
      QuietSteps(backend, s, step);
    }
  }

  lemma OthersKeepAbandoned(backend: Backend, s: State, step: Step, c: CallerId, channel: CallerId)
    requires Abandoned(s, c, channel) && !step.Cancel? && !step.Restart?
    requires step.Signal? || step.Wake? || Apply(backend, s, step).released == s.released
    ensures Abandoned(Apply(backend, s, step), c, channel)
  {
    if step.c in {c, channel} && !step.Wake? {
      NothingToDo(backend, s, step);
    } else if step.c !in {c, channel} {
      OthersStay(backend, s, step, c);
      OthersStay(backend, s, step, channel);
    }
  }

  lemma {:induction false} RunKeepsAbandoned(
    backend: Backend, s: State, steps: seq<Step>, c: CallerId, channel: CallerId)
    requires Abandoned(s, c, channel)
    ensures Abandoned(Run(backend, s, steps), c, channel)
  {
    if steps != [] {
      RunKeepsAbandoned(backend, s, steps[..|steps| - 1], c, channel);
      StepKeepsAbandoned(backend, Run(backend, s, steps[..|steps| - 1]), steps[|steps| - 1], c, channel);
    }
  }

  /** What is left for an owner to do, from any phase on; steps already done do nothing. */
  function OwnerFinishes(channel: CallerId, outcome: Outcome): seq<Step> {
    [] + [Claim(channel)] + [Start(channel)] + [Finish(channel, outcome)] + [Persist(channel, 0, 0, NoFault)]
    + [Publish(channel)] + [Signal(channel)]
  }

  lemma RunOneMore(backend: Backend, s: State, steps: seq<Step>, step: Step)
    ensures Run(backend, s, steps + [step]) == Apply(backend, Run(backend, s, steps), step)
  {
    assert (steps + [step])[..|steps|] == steps;
  }

  /** How far an owner is from having signalled. */
  function Stage(phase: Phase): nat {
    match phase
    case Claiming => 1
    case Claimed => 2
    case Executing => 3
    case Persisting(_) => 4
    case Publishing(_) => 5
    case Signalling(_) => 6
    case _ => 0
  }

  /** The owner of the channel is at least at this stage, or has signalled, and the waiter still waits. */
  predicate Proceeds(s: State, c: CallerId, channel: CallerId, stage: nat) {
    && c in s.callers && s.callers[c].phase == AwaitingPeer(channel)
    && channel in s.callers
    && (channel in s.released || Stage(s.callers[channel].phase) >= stage)
  }

  lemma ClaimProceeds(backend: Backend, s: State, c: CallerId, channel: CallerId)
    requires Inv(s) && Proceeds(s, c, channel, 1) && c != channel
    ensures Proceeds(Apply(backend, s, Claim(channel)), c, channel, 2)
  {
    OthersStay(backend, s, Claim(channel), c);
    var slot := Slot(s.callers[channel].instance, s.callers[channel].key);
    assert slot in s.entries ==> EntryOk(s, slot);
    if s.callers[channel].phase.Claiming? {
      assert CallerOk(s, channel);
    }
  }

  /** The next step of an owner at its stage; at a later stage it does nothing. */
  predicate NextOfOwner(step: Step, channel: CallerId, stage: nat) {
    match stage
    case 2 => step == Start(channel)
    case 3 => step.Finish? && step.c == channel
    case 4 => step.Persist? && step.c == channel
    case 5 => step == Publish(channel)
    case _ => step == Signal(channel)
  }

  lemma OwnerAdvances(backend: Backend, s: State, channel: CallerId, step: Step, stage: nat)
    requires channel in s.callers && Stage(s.callers[channel].phase) >= stage
    requires 2 <= stage <= 5 && NextOfOwner(step, channel, stage)
    ensures var s' := Apply(backend, s, step);
            channel in s'.callers && Stage(s'.callers[channel].phase) >= stage + 1
  {
    if step.Persist? && s.callers[channel].phase.Persisting? {
      PersistAdvances(backend, s, channel, step.nonce, step.now, step.fault);
    }
  }

  lemma PersistAdvances(backend: Backend, s: State, channel: CallerId, nonce: nat, now: int, fault: Fault)
    requires channel in s.callers && s.callers[channel].phase.Persisting?
    ensures DoPersist(backend, s, channel, nonce, now, fault).callers[channel].phase.Publishing?
  {
  }

  lemma OwnerStepProceeds(backend: Backend, s: State, c: CallerId, channel: CallerId, step: Step, stage: nat)
    requires Proceeds(s, c, channel, stage) && c != channel && 2 <= stage <= 5 && NextOfOwner(step, channel, stage)
    ensures Proceeds(Apply(backend, s, step), c, channel, stage + 1)
  {
    OthersStay(backend, s, step, c);
    ActorMoves(backend, s, step);
    if channel !in s.released {
      OwnerAdvances(backend, s, channel, step, stage);
    } else {
      QuietStepOrClaim(backend, s, step);
    }
  }

  lemma SignalWakes(backend: Backend, s: State, c: CallerId, channel: CallerId)
    requires Proceeds(s, c, channel, 6) && c != channel
    ensures var s' := Apply(backend, s, Signal(channel));
            Proceeds(s', c, channel, 0) && channel in s'.released
  {
    OthersStay(backend, s, Signal(channel), c);
  }

  /**
   A waiter whose channel has not been signalled can still be woken exactly if the owner of the channel was not
   cancelled: an owner that goes on wakes it, and after a cancelled one no continuation whatever does.
   */
  lemma WaiterWakesExactlyUnlessAbandoned(backend: Backend, s: State, c: CallerId)
    requires Reachable(backend, s)
    requires c in s.callers && s.callers[c].phase.AwaitingPeer?
    ensures var channel := s.callers[c].phase.channel;
            (exists steps :: var s' := Run(backend, s, steps); c in s'.callers && s'.callers[c].phase.Arrived?)
            <==> channel in s.released || (channel in s.callers && !s.callers[channel].phase.Cancelled?)
  {
    var channel := s.callers[c].phase.channel;
    ReachableInv(backend, s);
    assert CallerOk(s, c);
    if channel in s.released {
      WakeUp(backend, s, [], c, channel);
    } else if !s.callers[channel].phase.Cancelled? {
      OwnerWakes(backend, s, c, channel, Failure(TurnError(500, "")));
    } else {
      forall steps ensures !(var s' := Run(backend, s, steps); c in s'.callers && s'.callers[c].phase.Arrived?) {
        RunKeepsAbandoned(backend, s, steps, c, channel);
      }
    }
  }

  lemma RunProceeds(
    backend: Backend, s: State, c: CallerId, channel: CallerId, steps: seq<Step>, step: Step, stage: nat)
    requires Proceeds(Run(backend, s, steps), c, channel, stage)
    requires c != channel && 2 <= stage <= 5 && NextOfOwner(step, channel, stage)
    ensures Proceeds(Run(backend, s, steps + [step]), c, channel, stage + 1)
  {
    RunOneMore(backend, s, steps, step);
    OwnerStepProceeds(backend, Run(backend, s, steps), c, channel, step, stage);
  }

  lemma OwnerWakes(backend: Backend, s: State, c: CallerId, channel: CallerId, outcome: Outcome)
    requires Inv(s) && c != channel && Proceeds(s, c, channel, 1)
    ensures var s' := Run(backend, s, OwnerFinishes(channel, outcome) + [Wake(c)]);
            c in s'.callers && s'.callers[c].phase.Arrived?
  {
    ClaimProceeds(backend, s, c, channel);
    RunOneMore(backend, s, [], Claim(channel));
    var steps := [] + [Claim(channel)];
    RunProceeds(backend, s, c, channel, steps, Start(channel), 2);
    steps := steps + [Start(channel)];
    RunProceeds(backend, s, c, channel, steps, Finish(channel, outcome), 3);
    steps := steps + [Finish(channel, outcome)];
    RunProceeds(backend, s, c, channel, steps, Persist(channel, 0, 0, NoFault), 4);
    steps := steps + [Persist(channel, 0, 0, NoFault)];
    RunProceeds(backend, s, c, channel, steps, Publish(channel), 5);
    steps := steps + [Publish(channel)];
    assert OwnerFinishes(channel, outcome) == steps + [Signal(channel)];
    RunOneMore(backend, s, steps, Signal(channel));
    SignalWakes(backend, Run(backend, s, steps), c, channel);
    WakeUp(backend, s, OwnerFinishes(channel, outcome), c, channel);
  }

  lemma WakeUp(backend: Backend, s: State, steps: seq<Step>, c: CallerId, channel: CallerId)
    requires var s' := Run(backend, s, steps);
             c in s'.callers && s'.callers[c].phase == AwaitingPeer(channel) && channel in s'.released
    ensures var s' := Run(backend, s, steps + [Wake(c)]); c in s'.callers && s'.callers[c].phase.Arrived?
  {
    RunOneMore(backend, s, steps, Wake(c));
  }

  /** The entry of an owner that was cancelled before its signal. */
  predicate StaleEntry(s: State, slot: Slot, channel: CallerId) {
    && slot in s.entries && s.entries[slot].Running? && s.entries[slot].channel == channel
    && channel in s.callers && s.callers[channel].phase.Cancelled? && channel !in s.released
  }

  lemma PublishKeepsStaleEntry(s: State, c: CallerId, slot: Slot, channel: CallerId)
    requires Inv(s) && StaleEntry(s, slot, channel) && c in s.callers && s.callers[c].phase.Publishing?
    ensures StaleEntry(DoPublish(s, c), slot, channel) && DoPublish(s, c).entries[slot] == s.entries[slot]
  {
    assert CallerOk(s, c) && EntryOk(s, slot);
  }

  lemma StepKeepsStaleEntry(backend: Backend, s: State, step: Step, slot: Slot, channel: CallerId)
    requires Inv(s) && StaleEntry(s, slot, channel) && step != Restart(slot.instance)
    ensures var s' := Apply(backend, s, step);
            StaleEntry(s', slot, channel) && s'.entries[slot] == s.entries[slot]
  {
    match step
    case Publish(c) =>
      if c in s.callers && s.callers[c].phase.Publishing? {
        PublishKeepsStaleEntry(s, c, slot, channel);
      }
    case Restart(_) => LossKeepsStaleEntry(backend, s, step, slot, channel);
    case Cancel(_) => LossKeepsStaleEntry(backend, s, step, slot, channel);
    case Claim(_) => ClaimKeepsStaleEntry(backend, s, step, slot, channel);
    case Signal(_) => SignalKeepsStaleEntry(backend, s, step, slot, channel);
    case _ =>
      ChannelStays(backend, s, step, channel);
      QuietSteps(backend, s, step);
  }

  lemma LossKeepsStaleEntry(backend: Backend, s: State, step: Step, slot: Slot, channel: CallerId)
    requires StaleEntry(s, slot, channel) && (step.Restart? || step.Cancel?) && step != Restart(slot.instance)
    ensures var s' := Apply(backend, s, step);
            StaleEntry(s', slot, channel) && s'.entries[slot] == s.entries[slot]
  {
  }

  lemma SignalKeepsStaleEntry(backend: Backend, s: State, step: Step, slot: Slot, channel: CallerId)
    requires StaleEntry(s, slot, channel) && step.Signal?
    ensures var s' := Apply(backend, s, step);
            StaleEntry(s', slot, channel) && s'.entries[slot] == s.entries[slot]
  {
    ChannelStays(backend, s, step, channel);
  }

  lemma ClaimKeepsStaleEntry(backend: Backend, s: State, step: Step, slot: Slot, channel: CallerId)
    requires StaleEntry(s, slot, channel) && step.Claim?
    ensures var s' := Apply(backend, s, step);
            StaleEntry(s', slot, channel) && s'.entries[slot] == s.entries[slot]
  {
    ChannelStays(backend, s, step, channel);
  }

  lemma ChannelStays(backend: Backend, s: State, step: Step, channel: CallerId)
    requires channel in s.callers && s.callers[channel].phase.Cancelled? && !step.Cancel? && !step.Restart?
    ensures var s' := Apply(backend, s, step); channel in s'.callers && s'.callers[channel].phase.Cancelled?
  {
    if step.c != channel {
      OthersStay(backend, s, step, channel);
    } else if !step.Wake? {
      NothingToDo(backend, s, step);
    }
  }

  predicate SubscribesAt(s: State, c: CallerId, slot: Slot, hash: Hash) {
    && c in s.callers && s.callers[c].phase.Subscribing?
    && Slot(s.callers[c].instance, s.callers[c].key) == slot && s.callers[c].hash == hash
  }

  lemma {:induction false} StaleEntryStays(
    backend: Backend, s: State, steps: seq<Step>, slot: Slot, channel: CallerId)
    requires Inv(s) && StaleEntry(s, slot, channel) && Restart(slot.instance) !in steps
    ensures var s' := Run(backend, s, steps);
            StaleEntry(s', slot, channel) && s'.entries[slot] == s.entries[slot]
  {
    if steps != [] {
      var before := steps[..|steps| - 1];
      StaleEntryStays(backend, s, before, slot, channel);
      RunKeepsInv(backend, s, before);
      StepKeepsStaleEntry(backend, Run(backend, s, before), steps[|steps| - 1], slot, channel);
    }
  }

  /**
   The entry of a cancelled owner stays until its instance restarts, so whoever subscribes with the same key and hash
   on that instance is abandoned in its turn, in every continuation.
   */
  lemma LaterCallersAreAbandoned(
    backend: Backend, s: State, steps: seq<Step>, slot: Slot, channel: CallerId, c: CallerId, more: seq<Step>)
    requires Inv(s) && StaleEntry(s, slot, channel) && Restart(slot.instance) !in steps
    requires SubscribesAt(Run(backend, s, steps), c, slot, s.entries[slot].hash)
    ensures var subscribed := Apply(backend, Run(backend, s, steps), Subscribe(c));
            Abandoned(Run(backend, subscribed, more), c, channel)
  {
    StaleEntryStays(backend, s, steps, slot, channel);
    RunKeepsAbandoned(backend, Apply(backend, Run(backend, s, steps), Subscribe(c)), more, c, channel);
  }

  /** One request reserves the turn and is dropped before it executes. */
  function Drops(instance: Instance, key: Key, hash: Hash, owner: CallerId): seq<Step> {
    [] + [Arrive(owner, instance, key, hash)] + [Validate(owner, true)] + [Insert(owner, NoFault)] + [Claim(owner)]
    + [Cancel(owner)]
  }

  /** A second one with the same hash on the same instance finds the turn in progress. */
  function Joins(before: seq<Step>, instance: Instance, key: Key, hash: Hash, c: CallerId): seq<Step> {
    before + [Arrive(c, instance, key, hash)] + [Validate(c, true)] + [Insert(c, NoFault)]
    + [Select(c, 0, NoFault, true)] + [Subscribe(c)]
  }

  lemma OwnerIsDropped(backend: Backend, instance: Instance, key: Key, hash: Hash, owner: CallerId)
    ensures Run(backend, INITIAL, Drops(instance, key, hash, owner))
            == INITIAL.(rows := map[key := FreshRow(hash)], owners := map[key := owner],
                        entries := map[Slot(instance, key) := Running(hash, owner)],
                        callers := map[owner := Caller(instance, key, hash, Cancelled)])
  {
    var steps: seq<Step> := [];
    RunOneMore(backend, INITIAL, steps, Arrive(owner, instance, key, hash));
    steps := steps + [Arrive(owner, instance, key, hash)];
    RunOneMore(backend, INITIAL, steps, Validate(owner, true));
    steps := steps + [Validate(owner, true)];
    RunOneMore(backend, INITIAL, steps, Insert(owner, NoFault));
    steps := steps + [Insert(owner, NoFault)];
    RunOneMore(backend, INITIAL, steps, Claim(owner));
    steps := steps + [Claim(owner)];
    RunOneMore(backend, INITIAL, steps, Cancel(owner));
  }

  lemma NextJoins(backend: Backend, steps: seq<Step>, instance: Instance, key: Key, hash: Hash, c: CallerId)
    requires var s := Run(backend, INITIAL, steps);
             && c !in s.callers && key in s.rows && s.rows[key] == FreshRow(hash)
             && Slot(instance, key) in s.entries && s.entries[Slot(instance, key)].Running?
             && s.entries[Slot(instance, key)].hash == hash
    ensures var s := Run(backend, INITIAL, steps);
            Run(backend, INITIAL, Joins(steps, instance, key, hash, c))
            == s.(callers := s.callers[c := Caller(instance, key, hash,
                                                   AwaitingPeer(s.entries[Slot(instance, key)].channel))])
  {
    var s, more := Run(backend, INITIAL, steps), steps;
    RunOneMore(backend, INITIAL, more, Arrive(c, instance, key, hash));
    more := more + [Arrive(c, instance, key, hash)];
    RunOneMore(backend, INITIAL, more, Validate(c, true));
    more := more + [Validate(c, true)];
    RunOneMore(backend, INITIAL, more, Insert(c, NoFault));
    more := more + [Insert(c, NoFault)];
    RunOneMore(backend, INITIAL, more, Select(c, 0, NoFault, true));
    more := more + [Select(c, 0, NoFault, true)];
    RunOneMore(backend, INITIAL, more, Subscribe(c));
  }

  /** Abandonment happens, on every instance and for every key: this waiter is woken in no continuation. */
  lemma AbandonedIsReachable(
    backend: Backend, instance: Instance, key: Key, hash: Hash, owner: CallerId, c: CallerId, more: seq<Step>)
    requires owner != c
    ensures var s := Run(backend, INITIAL, Joins(Drops(instance, key, hash, owner), instance, key, hash, c));
            && Reachable(backend, s)
            && Abandoned(s, c, owner) && s.callers[c].phase == AwaitingPeer(owner)
            && Abandoned(Run(backend, s, more), c, owner)
  {
    OwnerIsDropped(backend, instance, key, hash, owner);
    NextJoins(backend, Drops(instance, key, hash, owner), instance, key, hash, c);
    var s := Run(backend, INITIAL, Joins(Drops(instance, key, hash, owner), instance, key, hash, c));
    RunKeepsAbandoned(backend, s, more, c, owner);
  }

  // ----- Refusals without faults -----

  /** No statement the caller issued in this run failed or lost its acknowledgement. */
  predicate NoFaultsFor(steps: seq<Step>, c: CallerId) {
    forall step :: step in steps ==> CleanFor(step, c)
  }

  predicate CleanFor(step: Step, c: CallerId) {
    match step
    case Insert(x, fault) => x == c ==> fault.NoFault?
    case Select(x, _, fault, _) => x == c ==> fault.NoFault?
    case Expire(x, fault) => x == c ==> fault.NoFault?
    case Persist(x, _, _, fault) => x == c ==> fault.NoFault?
    case _ => true
  }

  predicate ReportsUnavailable(phase: Phase) {
    (phase.Publishing? || phase.Signalling? || phase.Answered?) && phase.reply == Refused(StorageUnavailable)
  }

  /** A caller that reports the store as unavailable has met its own hash in the row. */
  predicate HonestRefusal(s: State, c: CallerId) {
    c in s.callers ==>
      var me := s.callers[c];
      ReportsUnavailable(me.phase) ==> me.key in s.rows && s.rows[me.key].hash == me.hash
  }

  lemma OwnStepKeepsHonest(backend: Backend, s: State, step: Step, c: CallerId)
    requires Inv(s) && HonestRefusal(s, c) && CleanFor(step, c) && c in s.callers
    requires step.Insert? || step.Select? || step.Expire? || step.Persist? || step.Claim?
    requires step.c == c
    ensures HonestRefusal(Apply(backend, s, step), c)
  {
    assert CallerOk(s, c);
    if step.Select? && c in s.callers && s.callers[c].phase.Selecting? {
      assert RowOk(s, s.callers[c].key);
    }
    if step.Claim? {
      forall i | Slot(i, s.callers[c].key) in s.entries ensures !s.callers[c].phase.Claiming? {
        assert EntryOk(s, Slot(i, s.callers[c].key));
      }
    }
    if Owning(s.callers[c].phase) {
      assert OwnerOk(s, s.callers[c].key);
    }
  }

  lemma QuietStepKeepsHonest(backend: Backend, s: State, step: Step, c: CallerId)
    requires Inv(s) && HonestRefusal(s, c) && c in s.callers
    requires !(step.Insert? || step.Select? || step.Expire? || step.Persist? || step.Claim?) || step.c != c
    ensures HonestRefusal(Apply(backend, s, step), c)
  {
    var me := s.callers[c];
    QuietStepMoves(backend, s, step, c);
    if me.key in s.rows {
      StepAdvancesRows(backend, s, step, me.key);
    }
  }

  lemma StepKeepsHonest(backend: Backend, s: State, step: Step, c: CallerId)
    requires Inv(s) && HonestRefusal(s, c) && CleanFor(step, c)
    ensures HonestRefusal(Apply(backend, s, step), c)
  {
    if c in s.callers {
      if (step.Insert? || step.Select? || step.Expire? || step.Persist? || step.Claim?) && step.c == c {
        OwnStepKeepsHonest(backend, s, step, c);
      } else {
        QuietStepKeepsHonest(backend, s, step, c);
      }
    }
  }

  /** A step that is none of the caller's statements leaves its reply as it is, or gives none of that kind. */
  lemma QuietStepMoves(backend: Backend, s: State, step: Step, c: CallerId)
    requires c in s.callers
    requires !(step.Insert? || step.Select? || step.Expire? || step.Persist? || step.Claim?) || step.c != c
    ensures var s' := Apply(backend, s, step);
            && c in s'.callers && s'.callers[c].key == s.callers[c].key && s'.callers[c].hash == s.callers[c].hash
            && (ReportsUnavailable(s'.callers[c].phase) ==> ReportsUnavailable(s.callers[c].phase))
  {
    if step.Restart? {
    } else if step.c != c || step.Arrive? {
      OthersStay(backend, s, step, c);
    } else {
      OwnQuietStep(backend, s, step);
    }
  }

  lemma OwnQuietStep(backend: Backend, s: State, step: Step)
    requires !step.Restart? && !step.Arrive? && step.c in s.callers
    requires !(step.Insert? || step.Select? || step.Expire? || step.Persist? || step.Claim?)
    ensures var s' := Apply(backend, s, step);
            var c := step.c;
            && c in s'.callers && s'.callers[c].key == s.callers[c].key && s'.callers[c].hash == s.callers[c].hash
            && (ReportsUnavailable(s'.callers[c].phase) ==> ReportsUnavailable(s.callers[c].phase))
  {
    ActorMoves(backend, s, step);
    if step.Publish? || step.Signal? || step.Cancel? {
      FinishingKeepsReports(backend, s, step);
    } else {
      if step.Validate? || step.Start? || step.Finish? {
        WorkingReportsNothing(backend, s, step);
      } else {
        WaitingReportsNothing(backend, s, step);
      }
    }
  }

  lemma FinishingKeepsReports(backend: Backend, s: State, step: Step)
    requires (step.Publish? || step.Signal? || step.Cancel?) && step.c in s.callers
    ensures var s' := Apply(backend, s, step);
            step.c in s'.callers
            && (ReportsUnavailable(s'.callers[step.c].phase) ==> ReportsUnavailable(s.callers[step.c].phase))
  {
  }

  lemma WorkingReportsNothing(backend: Backend, s: State, step: Step)
    requires step.Validate? || step.Start? || step.Finish?
    requires step.c in s.callers
    ensures var s' := Apply(backend, s, step);
            step.c in s'.callers
            && (ReportsUnavailable(s'.callers[step.c].phase) ==> ReportsUnavailable(s.callers[step.c].phase))
  {
  }

  lemma WaitingReportsNothing(backend: Backend, s: State, step: Step)
    requires step.Subscribe? || step.Wake? || step.Poll?
    requires step.c in s.callers
    ensures var s' := Apply(backend, s, step);
            step.c in s'.callers
            && (ReportsUnavailable(s'.callers[step.c].phase) ==> ReportsUnavailable(s.callers[step.c].phase))
  {
    var c := step.c;
    match step
    case Subscribe(_) => if s.callers[c].phase.Subscribing? { SubscriberReportsNothing(s, c); }
    case Poll(_, ms) => if s.callers[c].phase.Polling? { PollerReportsNothing(s, c, ms); }
    case Wake(_) =>
  }

  lemma SubscriberReportsNothing(s: State, c: CallerId)
    requires c in s.callers && s.callers[c].phase.Subscribing?
    ensures !ReportsUnavailable(DoSubscribe(s, c).callers[c].phase)
  {
  }

  lemma PollerReportsNothing(s: State, c: CallerId, remainingMs: int)
    requires c in s.callers && s.callers[c].phase.Polling?
    ensures !ReportsUnavailable(DoPoll(s, c, remainingMs).callers[c].phase)
  {
  }

  lemma {:induction false} RunKeepsHonest(backend: Backend, steps: seq<Step>, c: CallerId)
    requires NoFaultsFor(steps, c)
    ensures HonestRefusal(Run(backend, INITIAL, steps), c)
  {
    if steps != [] {
      var before := steps[..|steps| - 1];
      RunKeepsHonest(backend, before, c);
      RunKeepsInv(backend, INITIAL, before);
      StepKeepsHonest(backend, Run(backend, INITIAL, before), steps[|steps| - 1], c);
    }
  }

  /**
   A differing hash is a conflict: a caller none of whose statements failed is told about a conflict exactly when it
   gets an answer to a valid request and the row of its key carries another hash.
   */
  lemma OtherHashIsAConflict(backend: Backend, steps: seq<Step>, c: CallerId)
    requires NoFaultsFor(steps, c)
    requires var s := Run(backend, INITIAL, steps);
             c in s.callers && s.callers[c].phase.Answered? && s.callers[c].phase.reply != Refused(InvalidRequest)
    ensures var s := Run(backend, INITIAL, steps);
            var me := s.callers[c];
            && me.key in s.rows
            && (me.phase.reply == Refused(HashConflict) <==> s.rows[me.key].hash != me.hash)
  {
    var s := Run(backend, INITIAL, steps);
    RunKeepsHonest(backend, steps, c);
    RunKeepsInv(backend, INITIAL, steps);
    ConflictExactlyOnOtherHash(backend, s, c);
    assert CallerOk(s, c);
  }
}
