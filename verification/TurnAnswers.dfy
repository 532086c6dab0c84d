/**
 What the turn protocol answers: to the caller that executes a turn in every run, and to any caller whose statements
 work, for every state its row can be in.
 */
module TurnAnswers {
  import opened Prelude
  import opened TurnRecords
  import opened TurnProtocol
  import opened TurnWaiting

  // ----- The caller that executes -----

  /** The fault of the step that ended the caller's final update, once it has happened. */
  function PersistFault(backend: Backend, steps: seq<Step>, c: CallerId): Option<Fault> {
    if steps == [] then None
    else
      var s, step := Run(backend, INITIAL, steps[..|steps| - 1]), steps[|steps| - 1];
      if step.Persist? && step.c == c && c in s.callers && s.callers[c].phase.Persisting? then Some(step.fault)
      else PersistFault(backend, steps[..|steps| - 1], c)
  }

  /** The answer of the executing caller: what it executed, unless its final update reported a failure. */
  predicate AnswersItsOwn(s: State, c: CallerId, reply: Reply, fault: Option<Fault>) {
    && c in s.outcomes && fault.Some?
    && reply == (if fault.value.NoFault? then ReplyOf(s.outcomes[c]) else Refused(StorageUnavailable))
  }

  predicate ReplyInHand(phase: Phase) {
    phase.Publishing? || phase.Signalling? || phase.Answered?
  }

  /** Whatever the executing caller has in hand is its own answer; its row is final exactly if the update arrived. */
  predicate OwnAnswer(s: State, c: CallerId, fault: Option<Fault>) {
    c in s.callers && StartRecord(c, s.callers[c].key) in s.starts ==>
      && (ReplyInHand(s.callers[c].phase) ==>
            && AnswersItsOwn(s, c, s.callers[c].phase.reply, fault)
            && s.callers[c].key in s.rows
            && (s.rows[s.callers[c].key].status.InProgress? <==> fault.value.LostWrite?))
  }

  /** Only owners start, and only once they are past their claim. */
  lemma StartedIsOwner(s: State, c: CallerId)
    requires Inv(s) && c in s.callers && StartRecord(c, s.callers[c].key) in s.starts
    ensures s.callers[c].key in s.owners && s.owners[s.callers[c].key] == c && s.callers[c].key in s.rows
    ensures s.callers[c].phase.Executing? || s.callers[c].phase.Persisting? || ReplyInHand(s.callers[c].phase)
            || s.callers[c].phase.Cancelled?
  {
    assert StartOk(s, StartRecord(c, s.callers[c].key));
    assert OwnerOk(s, s.callers[c].key);
  }

  lemma ExecutedIsStarted(s: State, c: CallerId)
    requires Inv(s) && c in s.callers
    requires s.callers[c].phase.Persisting? || s.callers[c].phase.Publishing? || s.callers[c].phase.Signalling?
    ensures StartRecord(c, s.callers[c].key) in s.starts
  {
    assert CallerOk(s, c) && OutcomeOk(s, c);
  }

  lemma PersistGivesOwnAnswer(
    backend: Backend, s: State, c: CallerId, nonce: nat, now: int, fault: Fault)
    requires Inv(s) && c in s.callers && s.callers[c].phase.Persisting?
    ensures OwnAnswer(DoPersist(backend, s, c, nonce, now, fault), c, Some(fault))
  {
    assert CallerOk(s, c);
  }

  /** A step of somebody else leaves the caller, its outcome and whether it started alone. */
  lemma OthersKeepHistory(backend: Backend, s: State, step: Step, c: CallerId)
    requires c in s.callers && !step.Restart? && (step.c != c || step.Arrive?)
    ensures var s' := Apply(backend, s, step);
            && c in s'.callers && s'.callers[c] == s.callers[c]
            && (c in s.outcomes <==> c in s'.outcomes) && (c in s.outcomes ==> s'.outcomes[c] == s.outcomes[c])
            && forall key :: StartRecord(c, key) in s'.starts <==> StartRecord(c, key) in s.starts
  {
    OthersStay(backend, s, step, c);
    if !step.Start? && !step.Finish? {
      HistoryStays(backend, s, step);
    }
  }

  /** Only the start and the end of an execution are recorded. */
  lemma HistoryStays(backend: Backend, s: State, step: Step)
    requires !step.Start?
    ensures Apply(backend, s, step).starts == s.starts
    ensures !step.Finish? ==> Apply(backend, s, step).outcomes == s.outcomes
  {
    if step.Select? {
      SelectingRecordsNothing(backend, s, step);
    } else if step.Insert? || step.Expire? {
      ReservingRecordsNothing(backend, s, step);
    } else if step.Persist? || step.Claim? || step.Publish? || step.Signal? {
      EndingRecordsNothing(backend, s, step);
    }
  }

  lemma ReservingRecordsNothing(backend: Backend, s: State, step: Step)
    requires step.Insert? || step.Expire?
    ensures Apply(backend, s, step).starts == s.starts && Apply(backend, s, step).outcomes == s.outcomes
  {
    if step.Insert? {
      InsertingRecordsNothing(backend, s, step);
    }
  }

  lemma InsertingRecordsNothing(backend: Backend, s: State, step: Step)
    requires step.Insert?
    ensures Apply(backend, s, step).starts == s.starts && Apply(backend, s, step).outcomes == s.outcomes
  {
  }

  lemma SelectingRecordsNothing(backend: Backend, s: State, step: Step)
    requires step.Select?
    ensures Apply(backend, s, step).starts == s.starts && Apply(backend, s, step).outcomes == s.outcomes
  {
    if step.c in s.callers && s.callers[step.c].phase.Selecting? {
      var me := s.callers[step.c];
      if me.key in s.rows {
        match ReadRow(s.rows[me.key], me.hash, step.now) {
          case Answer(stored) => StoredRecordsNothing(s, step.c, me.phase.poll, stored, step.opens);
          case MustExpire =>
        }
      }
    }
  }

  lemma StoredRecordsNothing(s: State, c: CallerId, poll: bool, stored: StoredTurn, opens: bool)
    requires c in s.callers
    ensures var s' := OnStored(s, c, poll, stored, opens); s'.starts == s.starts && s'.outcomes == s.outcomes
  {
  }

  lemma EndingRecordsNothing(backend: Backend, s: State, step: Step)
    requires step.Persist? || step.Claim? || step.Publish? || step.Signal?
    ensures Apply(backend, s, step).starts == s.starts && Apply(backend, s, step).outcomes == s.outcomes
  {
  }

  /** Another caller's step does not end this caller's reservation. */
  lemma OthersKeepStatus(backend: Backend, s: State, step: Step, c: CallerId)
    requires Inv(s) && c in s.callers && StartRecord(c, s.callers[c].key) in s.starts
    requires step.Restart? || step.Arrive? || step.c != c || !step.Persist?
    ensures var key := s.callers[c].key;
            var s' := Apply(backend, s, step);
            key in s.rows && key in s'.rows
            && (s'.rows[key].status.InProgress? <==> s.rows[key].status.InProgress?)
  {
    var key := s.callers[c].key;
    StartedIsOwner(s, c);
    StepAdvancesRows(backend, s, step, key);
    if step.Persist? && step.c in s.callers && s.callers[step.c].phase.Persisting? {
      assert CallerOk(s, step.c);
    } else if !step.Persist? {
      OnlyPersistEnds(backend, s, step, key);
    }
  }

  lemma OnlyPersistEnds(backend: Backend, s: State, step: Step, key: Key)
    requires key in s.rows && !step.Persist?
    ensures var s' := Apply(backend, s, step);
            key in s'.rows && (s.rows[key].status.InProgress? <==> s'.rows[key].status.InProgress?)
  {
    if step.Validate? || step.Select? || step.Subscribe? {
      WaitersKeepRows(backend, s, step);
    } else if step.Arrive? || step.Wake? || step.Poll? || step.Start? || step.Finish? {
      WaitersAreQuiet(backend, s, step);
    } else if step.Insert? || step.Expire? {
      ReservingEndsNothing(backend, s, step, key);
    } else {
      OwnersKeepRows(backend, s, step);
    }
  }

  lemma ReservingEndsNothing(backend: Backend, s: State, step: Step, key: Key)
    requires key in s.rows && (step.Insert? || step.Expire?)
    ensures var s' := Apply(backend, s, step);
            key in s'.rows && (s.rows[key].status.InProgress? <==> s'.rows[key].status.InProgress?)
  {
    if step.Insert? {
      InsertingEndsNothing(backend, s, step, key);
    }
  }

  lemma InsertingEndsNothing(backend: Backend, s: State, step: Step, key: Key)
    requires key in s.rows && step.Insert?
    ensures var s' := Apply(backend, s, step); key in s'.rows && s'.rows[key] == s.rows[key]
  {
  }

  /** The caller's own steps after its execution hand its answer on. */
  lemma OwnStepKeepsAnswer(backend: Backend, s: State, step: Step, c: CallerId, fault: Option<Fault>)
    requires Inv(s) && OwnAnswer(s, c, fault) && c in s.callers && !step.Restart? && !step.Arrive? && step.c == c
    requires !(step.Persist? && s.callers[c].phase.Persisting?)
    ensures OwnAnswer(Apply(backend, s, step), c, fault)
  {
    var s' := Apply(backend, s, step);
    ActorMoves(backend, s, step);
    if StartRecord(c, s'.callers[c].key) in s'.starts && ReplyInHand(s'.callers[c].phase) && s' != s {
      if step.Start? {
        assert false;
      } else {
        HistoryStays(backend, s, step);
        StartedIsOwner(s, c);
        OthersKeepStatus(backend, s, step, c);
        OwnStepHandsOn(backend, s, step, c);
      }
    }
  }

  lemma OwnStepHandsOn(backend: Backend, s: State, step: Step, c: CallerId)
    requires c in s.callers && !step.Restart? && !step.Arrive? && step.c == c
    requires s.callers[c].phase.Executing? || s.callers[c].phase.Persisting? || ReplyInHand(s.callers[c].phase)
             || s.callers[c].phase.Cancelled?
    requires !(step.Persist? && s.callers[c].phase.Persisting?)
    ensures var s' := Apply(backend, s, step);
            c in s'.callers && ReplyInHand(s'.callers[c].phase) ==>
              && ReplyInHand(s.callers[c].phase) && s'.callers[c].phase.reply == s.callers[c].phase.reply
              && s'.outcomes == s.outcomes
  {
  }

  lemma StepKeepsOwnAnswer(backend: Backend, s: State, step: Step, c: CallerId, fault: Option<Fault>)
    requires Inv(s) && OwnAnswer(s, c, fault)
    requires !(step.Persist? && step.c == c && c in s.callers && s.callers[c].phase.Persisting?)
    ensures OwnAnswer(Apply(backend, s, step), c, fault)
  {
    if c !in s.callers {
      NewcomerHasNotStarted(backend, s, step, c);
    } else if step.Restart? {
      RestartKeepsAnswers(backend, s, step, c);
    } else if step.Arrive? || step.c != c {
      OthersKeepHistory(backend, s, step, c);
      if StartRecord(c, s.callers[c].key) in s.starts {
        OthersKeepStatus(backend, s, step, c);
      }
    } else {
      OwnStepKeepsAnswer(backend, s, step, c, fault);
    }
  }

  lemma RestartKeepsAnswers(backend: Backend, s: State, step: Step, c: CallerId)
    requires step.Restart? && c in s.callers
    ensures var s' := Apply(backend, s, step);
            && c in s'.callers && s'.callers[c].key == s.callers[c].key
            && (s'.callers[c] == s.callers[c] || s'.callers[c].phase.Cancelled?)
            && s'.rows == s.rows && s'.outcomes == s.outcomes && s'.starts == s.starts
  {
  }

  lemma NewcomerHasNotStarted(backend: Backend, s: State, step: Step, c: CallerId)
    requires c !in s.callers
    ensures var s' := Apply(backend, s, step); c in s'.callers ==> !ReplyInHand(s'.callers[c].phase)
  {
  }

  lemma {:induction false} RunKeepsOwnAnswer(backend: Backend, steps: seq<Step>, c: CallerId)
    ensures OwnAnswer(Run(backend, INITIAL, steps), c, PersistFault(backend, steps, c))
  {
    if steps != [] {
      var before, step := steps[..|steps| - 1], steps[|steps| - 1];
      var s := Run(backend, INITIAL, before);
      RunKeepsInv(backend, INITIAL, before);
      if step.Persist? && step.c == c && c in s.callers && s.callers[c].phase.Persisting? {
        PersistGivesOwnAnswer(backend, s, c, step.nonce, step.now, step.fault);
      } else {
        RunKeepsOwnAnswer(backend, before, c);
        StepKeepsOwnAnswer(backend, s, step, c, PersistFault(backend, before, c));
      }
    }
  }

  lemma {:induction false} CleanRunPersistsCleanly(backend: Backend, steps: seq<Step>, c: CallerId)
    requires NoFaultsFor(steps, c) && PersistFault(backend, steps, c).Some?
    ensures PersistFault(backend, steps, c) == Some(NoFault)
  {
    var before, step := steps[..|steps| - 1], steps[|steps| - 1];
    assert step in steps && CleanFor(step, c);
    var s := Run(backend, INITIAL, before);
    if !(step.Persist? && step.c == c && c in s.callers && s.callers[c].phase.Persisting?) {
      CleanRunPersistsCleanly(backend, before, c);
    }
  }

  /**
   Whoever executes a turn is answered with what it executed, in every run: the response or the turn failure, unless its
   one final update reported a failure, and then exactly that the store is unavailable. The turn stays in progress
   for ever exactly if that update did not arrive.
   */
  lemma ExecutorIsAnswered(backend: Backend, steps: seq<Step>, c: CallerId)
    requires var s := Run(backend, INITIAL, steps);
             && c in s.callers && s.callers[c].phase.Answered? && StartRecord(c, s.callers[c].key) in s.starts
    ensures var s := Run(backend, INITIAL, steps);
            var fault := PersistFault(backend, steps, c);
            && c in s.outcomes && fault.Some?
            && s.callers[c].phase.reply
               == (if fault == Some(NoFault) then ReplyOf(s.outcomes[c]) else Refused(StorageUnavailable))
            && (s.callers[c].phase.reply == Refused(StorageUnavailable) <==> fault != Some(NoFault))
            && s.callers[c].key in s.rows
            && (s.rows[s.callers[c].key].status.InProgress? <==> fault == Some(LostWrite))
    ensures NoFaultsFor(steps, c) ==>
              var s := Run(backend, INITIAL, steps);
              c in s.outcomes && s.callers[c].phase.reply == ReplyOf(s.outcomes[c])
  {
    RunKeepsOwnAnswer(backend, steps, c);
    if NoFaultsFor(steps, c) {
      CleanRunPersistsCleanly(backend, steps, c);
    }
  }

  // ----- One pass with statements that work -----

  /** The statements of one pass over the row; the expiry is a step only where the row has to expire. */
  function Pass(backend: Backend, s: State, c: CallerId, now: int): State {
    Apply(backend, Apply(backend, Apply(backend, s, Insert(c, NoFault)), Select(c, now, NoFault, true)),
          Expire(c, NoFault))
  }

  /** What a caller's pass leads to, by the row of its key. */
  ghost predicate PassLeadsTo(s: State, c: CallerId, now: int, s': State)
    requires c in s.callers && s.callers[c].phase.Inserting? && s.callers[c].key in s.rows
  {
    var me, row := s.callers[c], s.rows[s.callers[c].key];
    && c in s'.callers && s'.owners == s.owners && s'.entries == s.entries
    && var phase := s'.callers[c].phase;
    if row.hash != me.hash then phase == Answered(Refused(HashConflict)) && s'.rows == s.rows
    else match row.status
      case InProgress => phase == (if me.phase.poll then Polling else Subscribing) && s'.rows == s.rows
      case Completed =>
        row.expiresAt.Some? &&
        if now < row.expiresAt.value
        then AnswersTheOwners(s, c, phase) && s'.rows == s.rows
        else phase == Answered(Refused(ResultExpired))
             && s'.rows == s.rows[me.key := row.(status := Expired, response := None)]
      case Expired => phase == Answered(Refused(ResultExpired)) && s'.rows == s.rows
      case Failed => AnswersTheOwners(s, c, phase) && s'.rows == s.rows
  }

  predicate AnswersTheOwners(s: State, c: CallerId, phase: Phase)
    requires c in s.callers
  {
    && s.callers[c].key in s.owners && s.owners[s.callers[c].key] in s.outcomes
    && phase == Answered(ReplyOf(s.outcomes[s.owners[s.callers[c].key]]))
  }

  /**
   Every caller whose statements work is answered by the row it finds: a conflict on another hash, the one executed
   result or failure while it is kept, its expiry after that, and a wait while the turn is in progress.
   */
  lemma PassIsAnsweredByTheRow(backend: Backend, s: State, c: CallerId, now: int)
    requires Reachable(backend, s) && c in s.callers && s.callers[c].phase.Inserting? && s.callers[c].key in s.rows
    ensures PassLeadsTo(s, c, now, Pass(backend, s, c, now))
  {
    ReachableInv(backend, s);
    assert RowOk(s, s.callers[c].key);
    InsertFindsTheRow(backend, s, c);
    SelectedByTheRow(backend, Enter(s, c, Selecting(s.callers[c].phase.poll)), c, now);
  }

  lemma SelectedByTheRow(backend: Backend, s: State, c: CallerId, now: int)
    requires c in s.callers && s.callers[c].phase.Selecting? && s.callers[c].key in s.rows
    requires RowOk(s, s.callers[c].key)
    ensures var s' := Apply(backend, Apply(backend, s, Select(c, now, NoFault, true)), Expire(c, NoFault));
            PassLeadsTo(Enter(s, c, Inserting(s.callers[c].phase.poll)), c, now, s')
  {
    assert s.callers[c := s.callers[c].(phase := Inserting(s.callers[c].phase.poll))][c].key == s.callers[c].key;
  }

  /** Where the key has no row the caller's insert reserves the turn, and its claim succeeds. */
  lemma FreshKeyIsReserved(backend: Backend, s: State, c: CallerId)
    requires Reachable(backend, s) && c in s.callers && s.callers[c].phase.Inserting? && s.callers[c].key !in s.rows
    ensures var me := s.callers[c];
            var s1 := Apply(backend, s, Insert(c, NoFault));
            && s1.rows == s.rows[me.key := Row(me.hash, InProgress, None, None, None, None)]
            && s1.owners == s.owners[me.key := c] && s1.callers[c].phase == Claiming
            && var s2 := Apply(backend, s1, Claim(c));
            && s2.rows == s1.rows && s2.starts == s.starts && s2.released == s.released
            && c in s2.callers && s2.callers[c] == me.(phase := Claimed)
  {
    ReachableInv(backend, s);
    assert CallerOk(s, c);
    var slot := Slot(s.callers[c].instance, s.callers[c].key);
    if slot in s.entries {
      EntryHasRow(s, slot);
    }
  }

  lemma EntryHasRow(s: State, slot: Slot)
    requires Inv(s) && slot in s.entries
    ensures slot.key in s.rows
  {
    assert EntryOk(s, slot);
  }

  /** A statement that reports a failure ends the pass as unavailable, and has changed the rows only if it arrived. */
  lemma FaultyStatementsRefuse(backend: Backend, s: State, c: CallerId, fault: Fault, now: int, opens: bool)
    requires c in s.callers && !fault.NoFault?
    ensures s.callers[c].phase.Inserting? ==>
              var s' := Apply(backend, s, Insert(c, fault));
              && s'.callers[c].phase == Answered(Refused(StorageUnavailable))
              && s'.rows == (if fault.LostWrite? then s.rows
                             else InsertIfAbsent(s.rows, s.callers[c].key, s.callers[c].hash))
    ensures s.callers[c].phase.Selecting? ==>
              var s' := Apply(backend, s, Select(c, now, fault, opens));
              s'.callers[c].phase == Answered(Refused(StorageUnavailable)) && s'.rows == s.rows
    ensures s.callers[c].phase.Expiring? ==>
              var s' := Apply(backend, s, Expire(c, fault));
              && s'.callers[c].phase == Answered(Refused(StorageUnavailable))
              && s'.rows == (if fault.LostWrite? then s.rows else MarkExpired(s.rows, s.callers[c].key))
  {
  }

  // ----- Waiting -----

  /** A caller that finds its turn in progress waits for the owner exactly if that is registered on its instance. */
  lemma JoinsTheLocalOwner(backend: Backend, s: State, c: CallerId)
    requires Reachable(backend, s) && c in s.callers && s.callers[c].phase.Subscribing?
    ensures var slot := Slot(s.callers[c].instance, s.callers[c].key);
            var phase := Apply(backend, s, Subscribe(c)).callers[c].phase;
            if slot in s.entries && s.entries[slot].Running?
            then s.callers[c].key in s.owners && phase == AwaitingPeer(s.owners[s.callers[c].key])
            else phase == Polling
  {
    ReachableInv(backend, s);
    assert CallerOk(s, c);
    var slot := Slot(s.callers[c].instance, s.callers[c].key);
    if slot in s.entries {
      assert EntryOk(s, slot);
    }
  }

  /** A poller looks at the row again as long as more than fifty milliseconds are left, and else says what it knows. */
  lemma PollsWhileTimeIsLeft(backend: Backend, s: State, c: CallerId, remainingMs: int)
    requires c in s.callers && s.callers[c].phase.Polling?
    ensures Apply(backend, s, Poll(c, remainingMs))
         == Enter(s, c, if remainingMs > 50 then Inserting(true)
                        else if remainingMs > 0 then Answered(Refused(StillUncertain))
                        else Answered(Refused(DeadlineElapsed)))
  {
  }

  /** A request is looked at once: a valid one goes on to the store, an invalid one is refused and leaves nothing. */
  lemma InvalidRequestsLeaveNothing(backend: Backend, s: State, c: CallerId, valid: bool)
    requires c in s.callers && s.callers[c].phase.Arrived?
    ensures Apply(backend, s, Validate(c, valid))
         == Enter(s, c, if valid then Inserting(false) else Answered(Refused(InvalidRequest)))
  {
  }

  /** Dropping an owner wakes its waiters exactly if its result was already published. */
  lemma DroppedOwnerWakesAfterPublication(backend: Backend, s: State, c: CallerId)
    requires Reachable(backend, s) && c in s.callers && s.callers[c].phase.AwaitingPeer?
    requires var owner := s.callers[c].phase.channel;
             owner != c && owner !in s.released && owner in s.callers && !s.callers[owner].phase.Cancelled?
    ensures var owner := s.callers[c].phase.channel;
            Apply(backend, Apply(backend, s, Cancel(owner)), Wake(c)).callers[c].phase.Arrived?
            <==> s.callers[owner].phase.Signalling?
  {
    ReachableInv(backend, s);
    assert CallerOk(s, c);
  }

  /** A process that ends takes its entries and its unanswered requests along, and no row and nobody else's request. */
  lemma RestartForgetsItsOwn(backend: Backend, s: State, instance: Instance)
    ensures var s' := Apply(backend, s, Restart(instance));
            && s'.rows == s.rows && s'.released == s.released
            && (forall key :: Slot(instance, key) !in s'.entries)
            && (forall slot :: slot in s.entries && slot.instance != instance ==>
                  slot in s'.entries && s'.entries[slot] == s.entries[slot])
            && (forall c :: c in s.callers ==>
                  && c in s'.callers
                  && s'.callers[c] == (if s.callers[c].instance == instance && !s.callers[c].phase.Answered?
                                       then s.callers[c].(phase := Cancelled) else s.callers[c]))
  {
  }

  // ----- A whole turn -----

  /** The steps of an owner from its insert on. */
  function Solo(c: CallerId, outcome: Outcome, nonce: nat, now: int): seq<Step> {
    [] + [Insert(c, NoFault)] + [Claim(c)] + [Start(c)] + [Finish(c, outcome)] + [Persist(c, nonce, now, NoFault)]
    + [Publish(c)] + [Signal(c)]
  }

  /** The row a turn leaves: its sealed response with a window of a day, or its failure. */
  function FinalRow(hash: Hash, outcome: Outcome, nonce: nat, now: int): Row {
    match outcome
    case Success(response) =>
      Row(hash, Completed, Some(Sealed(nonce, response)), Some(SaturatingAdd(now, 24 * 60 * 60)), None, None)
    case Failure(error) => Row(hash, Failed, None, None, Some(error.envelope), Some(error.status))
  }

  /** The same from the claim on, step by step. */
  function Executed(backend: Backend, s: State, c: CallerId, outcome: Outcome, nonce: nat, now: int): State {
    var finished := Apply(backend, Apply(backend, s, Start(c)), Finish(c, outcome));
    Apply(backend, Apply(backend, Apply(backend, finished, Persist(c, nonce, now, NoFault)), Publish(c)), Signal(c))
  }

  lemma SoloRuns(backend: Backend, s: State, c: CallerId, outcome: Outcome, nonce: nat, now: int)
    ensures Run(backend, s, Solo(c, outcome, nonce, now))
         == Executed(backend, Apply(backend, Apply(backend, s, Insert(c, NoFault)), Claim(c)), c, outcome, nonce, now)
  {
    var steps: seq<Step> := [];
    RunOneMore(backend, s, steps, Insert(c, NoFault));
    steps := steps + [Insert(c, NoFault)];
    RunOneMore(backend, s, steps, Claim(c));
    steps := steps + [Claim(c)];
    RunOneMore(backend, s, steps, Start(c));
    steps := steps + [Start(c)];
    RunOneMore(backend, s, steps, Finish(c, outcome));
    steps := steps + [Finish(c, outcome)];
    RunOneMore(backend, s, steps, Persist(c, nonce, now, NoFault));
    steps := steps + [Persist(c, nonce, now, NoFault)];
    RunOneMore(backend, s, steps, Publish(c));
    steps := steps + [Publish(c)];
    RunOneMore(backend, s, steps, Signal(c));
    assert Solo(c, outcome, nonce, now) == steps + [Signal(c)];
  }

  /** Undisturbed, the first caller of a key executes once, is answered with the outcome, and leaves it in the row. */
  lemma UndisturbedTurnSucceeds(
    backend: Backend, s: State, c: CallerId, outcome: Outcome, nonce: nat, now: int)
    requires Reachable(backend, s) && c in s.callers && s.callers[c].phase.Inserting? && s.callers[c].key !in s.rows
    ensures var me := s.callers[c];
            var s' := Run(backend, s, Solo(c, outcome, nonce, now));
            && s'.starts == s.starts + [StartRecord(c, me.key)]
            && c in s'.callers && s'.callers[c].phase == Answered(ReplyOf(outcome))
            && s'.rows == s.rows[me.key := FinalRow(me.hash, outcome, nonce, now)]
            && s'.released == s.released + {c}
  {
    FreshKeyIsReserved(backend, s, c);
    SoloRuns(backend, s, c, outcome, nonce, now);
    var claimed := Apply(backend, Apply(backend, s, Insert(c, NoFault)), Claim(c));
    RewrittenOnce(s.rows, s.callers[c].key, FreshRow(s.callers[c].hash),
                  FinalRow(s.callers[c].hash, outcome, nonce, now));
    ClaimedTurnSucceeds(backend, claimed, c, outcome, nonce, now);
  }

  lemma RewrittenOnce(rows: Table, key: Key, first: Row, second: Row)
    ensures rows[key := first][key := second] == rows[key := second]
  {
  }

  lemma ClaimedTurnSucceeds(backend: Backend, s: State, c: CallerId, outcome: Outcome, nonce: nat, now: int)
    requires c in s.callers && s.callers[c].phase.Claimed? && s.callers[c].key in s.rows
    requires s.rows[s.callers[c].key] == FreshRow(s.callers[c].hash)
    ensures var me := s.callers[c];
            var s' := Executed(backend, s, c, outcome, nonce, now);
            && s'.starts == s.starts + [StartRecord(c, me.key)]
            && c in s'.callers && s'.callers[c].phase == Answered(ReplyOf(outcome))
            && s'.rows == s.rows[me.key := FinalRow(me.hash, outcome, nonce, now)]
            && s'.released == s.released + {c}
  {
    var finished := Apply(backend, Apply(backend, s, Start(c)), Finish(c, outcome));
    assert finished.callers[c] == s.callers[c].(phase := Persisting(outcome));
    assert finished.rows == s.rows && finished.released == s.released;
    PersistedOnce(backend, finished, c, outcome, nonce, now);
    PublishedAndSignalled(backend, Apply(backend, finished, Persist(c, nonce, now, NoFault)), c);
  }

  lemma PublishedAndSignalled(backend: Backend, s: State, c: CallerId)
    requires c in s.callers && s.callers[c].phase.Publishing?
    ensures var s' := Apply(backend, Apply(backend, s, Publish(c)), Signal(c));
            && s'.starts == s.starts && s'.rows == s.rows && s'.released == s.released + {c}
            && c in s'.callers && s'.callers[c].phase == Answered(s.callers[c].phase.reply)
  {
  }

  lemma PersistedOnce(backend: Backend, s: State, c: CallerId, outcome: Outcome, nonce: nat, now: int)
    requires c in s.callers && s.callers[c].phase == Persisting(outcome) && s.callers[c].key in s.rows
    requires s.rows[s.callers[c].key] == FreshRow(s.callers[c].hash)
    ensures var me := s.callers[c];
            var s' := Apply(backend, s, Persist(c, nonce, now, NoFault));
            && s'.starts == s.starts && s'.released == s.released
            && s'.rows == s.rows[me.key := FinalRow(me.hash, outcome, nonce, now)]
            && c in s'.callers && s'.callers[c].phase == Publishing(ReplyOf(outcome))
  {
  }

  /** What a reservation made in one piece answers and leaves, for every row, damaged ones included. */
  lemma ReservationAnswersExactly(t: Table, key: Key, hash: Hash, now: int)
    ensures var (t', stored) := Reserve(t, key, hash, now);
            var lapsed := && key in t && (t[key].status.Expired?
                          || (t[key].status.Completed? && t[key].expiresAt.Some? && t[key].expiresAt.value <= now));
            var damaged := && key in t
                           && ((t[key].status.Completed? && t[key].response.None?)
                               || (t[key].status.Failed? && (t[key].error.None? || t[key].errorStatus.None?)));
            && (stored.Reserved? <==> key !in t)
            && (stored.Conflict? <==> key in t && t[key].hash != hash)
            && (stored.Lapsed? <==> lapsed && t[key].hash == hash)
            && (stored.Corrupt? <==> damaged && !lapsed && t[key].hash == hash)
            && (stored.Pending? <==> key in t && t[key].hash == hash && t[key].status.InProgress?)
            && (stored.Replayable? ==> t[key].status.Completed? && t[key].response == Some(stored.sealed))
            && (stored.Rejected? ==> && t[key].status.Failed? && t[key].errorStatus == Some(stored.error.status)
                                     && t[key].error == Some(stored.error.envelope))
            && (forall k :: k in t' <==> k in t || k == key)
            && (forall k :: k in t && k != key ==> t'[k] == t[k])
            && t'[key].hash == (if key in t then t[key].hash else hash)
            && (stored.Reserved? ==> t'[key].status.InProgress? && t'[key].response.None?)
            && (stored.Lapsed? ==> t'[key].status.Expired?)
            && (!stored.Reserved? && !stored.Lapsed? ==> t' == t)
  {
  }

  /** An insert that works: an existing row is read next, a new one is claimed, or is a surprise to a poller. */
  lemma InsertLeadsOn(backend: Backend, s: State, c: CallerId)
    requires c in s.callers && s.callers[c].phase.Inserting?
    ensures var me := s.callers[c];
            var s' := Apply(backend, s, Insert(c, NoFault));
            && s'.rows == (if me.key in s.rows then s.rows else s.rows[me.key := FreshRow(me.hash)])
            && s'.callers == s.callers[c := me.(phase := if me.key in s.rows then Selecting(me.phase.poll)
                                                         else if me.phase.poll then Answered(Refused(StateChanged))
                                                         else Claiming)]
  {
  }

  /** An entry found after a reservation, which no run reaches: another hash conflicts, otherwise its owner decides. */
  lemma EntryDecidesTheClaim(backend: Backend, s: State, c: CallerId)
    requires c in s.callers && s.callers[c].phase.Claiming?
             && Slot(s.callers[c].instance, s.callers[c].key) in s.entries
    ensures var entry := s.entries[Slot(s.callers[c].instance, s.callers[c].key)];
            var s' := Apply(backend, s, Claim(c));
            && s' == s.(callers := s'.callers) && c in s'.callers
            && if entry.hash != s.callers[c].hash then s'.callers[c].phase == Answered(Refused(HashConflict))
               else if entry.Finished? then s'.callers[c].phase == Answered(entry.reply)
               else && s'.callers[c].phase == AwaitingClaim(entry.channel)
                    && (Apply(backend, s', Wake(c)).callers[c].phase == Claiming <==> entry.channel in s.released)
  {
  }

  /** A row that is missing or damaged is reported as such, and a response that does not open as unavailable. */
  lemma DamagedRowsRefuse(backend: Backend, s: State, c: CallerId, now: int, opens: bool)
    requires c in s.callers && s.callers[c].phase.Selecting?
    ensures var me := s.callers[c];
            var s' := Apply(backend, s, Select(c, now, NoFault, opens));
            var stored := Reserve(s.rows, me.key, me.hash, now).1;
            && s' == s.(callers := s'.callers) && c in s'.callers
            && (me.key !in s.rows || stored.Corrupt? ==> s'.callers[c].phase == Answered(Refused(RecordCorrupt)))
            && (stored.Replayable? ==>
                  s'.callers[c].phase == Answered(if opens then Replied(stored.sealed.plaintext)
                                                  else Refused(StorageUnavailable)))
  {
  }

  /** Only PostgreSQL, which guards the completion, reports that no row in progress was there, which no run reaches. */
  lemma UnmatchedCompletionIsReported(
    backend: Backend, s: State, c: CallerId, response: Response, nonce: nat, now: int)
    requires c in s.callers && s.callers[c].phase == Persisting(Success(response))
    ensures var key := s.callers[c].key;
            var s' := Apply(backend, s, Persist(c, nonce, now, NoFault));
            var reported := backend.Postgres? && !(key in s.rows && s.rows[key].status.InProgress?);
            c in s'.callers && s'.callers[c].phase
                               == Publishing(if reported then Refused(StorageUnavailable) else Replied(response))
  {
  }
}
