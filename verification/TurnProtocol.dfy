/**
 The turn protocol of the Provider Gateway: any number of callers on any number of instances share one
 durable table. Each constructor of `Step` is one atomic action (one SQL statement, one transaction, or one
 critical section on an instance's in-memory map); a step that is not enabled leaves the state alone, so a
 run is any sequence of steps.
 */
module TurnProtocol {
  import opened Prelude
  import opened TurnRecords

  type CallerId = nat
  type Instance = nat

  /** Why a caller is refused. `RecordCorrupt` and `StateChanged` are reported as storage errors. */
  datatype Refusal =
    | InvalidRequest
    | StorageUnavailable
    | RecordCorrupt
    | StateChanged
    | HashConflict
    | ResultExpired
    | DeadlineElapsed
    | StillUncertain
    | TurnFailed(error: TurnError)

  datatype Reply = Replied(response: Response) | Refused(reason: Refusal)

  /** Where a caller is inside `execute_turn`; `poll` tells the durable wait loop from the first pass. */
  datatype Phase =
    | Arrived
    | Inserting(poll: bool)
    | Selecting(poll: bool)
    | Expiring(poll: bool)
    | Subscribing
    | AwaitingPeer(channel: CallerId)
    | Polling
    | Claiming
    | AwaitingClaim(channel: CallerId)
    | Claimed
    | Executing
    | Persisting(outcome: Outcome)
    | Publishing(reply: Reply)
    | Signalling(reply: Reply)
    | Answered(reply: Reply)
    | Cancelled

  datatype Caller = Caller(instance: Instance, key: Key, hash: Hash, phase: Phase)

  /** An entry of an instance's in-memory idempotency map; the channel is named after the caller that made it. */
  datatype Entry =
    | Running(hash: Hash, channel: CallerId)
    | Finished(hash: Hash, reply: Reply)

  datatype Slot = Slot(instance: Instance, key: Key)

  datatype StartRecord = StartRecord(caller: CallerId, key: Key)

  /**
   `starts`, `outcomes` and `owners` record history: every upstream execution in order, what each produced,
   and which caller's INSERT created each row. No step reads them.
   */
  datatype State = State(
    rows: Table,
    entries: map<Slot, Entry>,
    released: set<CallerId>,
    callers: map<CallerId, Caller>,
    starts: seq<StartRecord>,
    outcomes: map<CallerId, Outcome>,
    owners: map<Key, CallerId>)

  const INITIAL := State(map[], map[], {}, map[], [], map[], map[])

  /** A statement may fail before it takes effect, or take effect while its acknowledgement is lost. */
  datatype Fault = NoFault | LostWrite | LostAck

  datatype Step =
    | Arrive(c: CallerId, instance: Instance, key: Key, hash: Hash)
    | Validate(c: CallerId, valid: bool)
    | Insert(c: CallerId, fault: Fault)
    | Select(c: CallerId, now: int, fault: Fault, opens: bool)
    | Expire(c: CallerId, fault: Fault)
    | Subscribe(c: CallerId)
    | Wake(c: CallerId)
    | Poll(c: CallerId, remainingMs: int)
    | Claim(c: CallerId)
    | Start(c: CallerId)
    | Finish(c: CallerId, outcome: Outcome)
    | Persist(c: CallerId, nonce: nat, now: int, fault: Fault)
    | Publish(c: CallerId)
    | Signal(c: CallerId)
    | Cancel(c: CallerId)
    | Restart(instance: Instance)

  const POLL_MARGIN_MS := 50

  function Enter(s: State, c: CallerId, phase: Phase): State
    requires c in s.callers
  {
    s.(callers := s.callers[c := s.callers[c].(phase := phase)])
  }

  function Refuse(s: State, c: CallerId, reason: Refusal): State
    requires c in s.callers
  {
    Enter(s, c, Answered(Refused(reason)))
  }

  function ReplyOf(outcome: Outcome): Reply {
    match outcome
    case Success(response) => Replied(response)
    case Failure(error) => Refused(TurnFailed(error))
  }

  /** Of the callers, only `c` changes, and only its phase. */
  predicate OnlyMoves(s: State, s': State, c: CallerId) {
    c in s.callers && c in s'.callers && s'.callers == s.callers[c := s.callers[c].(phase := s'.callers[c].phase)]
  }

  /** Neither the in-memory maps nor the channels nor the owners change. */
  predicate Quiet(s: State, s': State) {
    s'.entries == s.entries && s'.released == s.released && s'.owners == s.owners
  }

  function DoInsert(s: State, c: CallerId, fault: Fault): (s': State)
    requires c in s.callers && s.callers[c].phase.Inserting?
    ensures OnlyMoves(s, s', c)
  {
    var me := s.callers[c];
    if fault.LostWrite? then Refuse(s, c, StorageUnavailable)
    else
      var inserted := me.key !in s.rows;
      var s1 := s.(rows := InsertIfAbsent(s.rows, me.key, me.hash),
                   owners := if inserted then s.owners[me.key := c] else s.owners);
      if fault.LostAck? then Refuse(s1, c, StorageUnavailable)
      else if !inserted then Enter(s1, c, Selecting(me.phase.poll))
      else OnStored(s1, c, me.phase.poll, Reserved, true)
  }

  /** The arms on the stored turn, for the first pass and for the durable wait loop. */
  function OnStored(s: State, c: CallerId, poll: bool, stored: StoredTurn, opens: bool): (s': State)
    requires c in s.callers
    ensures OnlyMoves(s, s', c) && Quiet(s, s')
    ensures s'.rows == s.rows
  {
    match stored
    case Reserved => if poll then Refuse(s, c, StateChanged) else Enter(s, c, Claiming)
    case Pending => Enter(s, c, if poll then Polling else Subscribing)
    case Replayable(sealed) =>
      if opens then Enter(s, c, Answered(Replied(sealed.plaintext))) else Refuse(s, c, StorageUnavailable)
    case Lapsed => Refuse(s, c, ResultExpired)
    case Rejected(error) => Refuse(s, c, TurnFailed(error))
    case Conflict => Refuse(s, c, HashConflict)
    case Corrupt => Refuse(s, c, RecordCorrupt)
  }

  function DoSelect(s: State, c: CallerId, now: int, fault: Fault, opens: bool): (s': State)
    requires c in s.callers && s.callers[c].phase.Selecting?
    ensures OnlyMoves(s, s', c) && Quiet(s, s')
    ensures s'.rows == s.rows
  {
    var me := s.callers[c];
    if !fault.NoFault? then Refuse(s, c, StorageUnavailable)
    else if me.key !in s.rows then Refuse(s, c, RecordCorrupt)
    else match ReadRow(s.rows[me.key], me.hash, now)
      case Answer(stored) => OnStored(s, c, me.phase.poll, stored, opens)
      case MustExpire => Enter(s, c, Expiring(me.phase.poll))
  }

  function DoExpire(s: State, c: CallerId, fault: Fault): (s': State)
    requires c in s.callers && s.callers[c].phase.Expiring?
    ensures OnlyMoves(s, s', c) && Quiet(s, s')
  {
    var me := s.callers[c];
    var s1 := if fault.LostWrite? then s else s.(rows := MarkExpired(s.rows, me.key));
    if fault.NoFault? then OnStored(s1, c, me.phase.poll, Lapsed, true) else Refuse(s1, c, StorageUnavailable)
  }

  function DoSubscribe(s: State, c: CallerId): (s': State)
    requires c in s.callers && s.callers[c].phase.Subscribing?
    ensures OnlyMoves(s, s', c) && Quiet(s, s')
  {
    var me := s.callers[c];
    var slot := Slot(me.instance, me.key);
    if slot in s.entries && s.entries[slot].Running? && s.entries[slot].hash == me.hash
    then Enter(s, c, AwaitingPeer(s.entries[slot].channel))
    else Enter(s, c, Polling)
  }

  function DoPoll(s: State, c: CallerId, remainingMs: int): (s': State)
    requires c in s.callers && s.callers[c].phase.Polling?
    ensures OnlyMoves(s, s', c)
  {
    if remainingMs <= 0 then Refuse(s, c, DeadlineElapsed)
    else if remainingMs <= POLL_MARGIN_MS then Refuse(s, c, StillUncertain)
    else Enter(s, c, Inserting(true))
  }

  /** The critical section on the in-memory map that follows a successful reservation. */
  function DoClaim(s: State, c: CallerId): (s': State)
    requires c in s.callers && s.callers[c].phase.Claiming?
    ensures OnlyMoves(s, s', c)
  {
    var me := s.callers[c];
    var slot := Slot(me.instance, me.key);
    if slot in s.entries then
      var entry := s.entries[slot];
      if entry.hash != me.hash then Refuse(s, c, HashConflict)
      else match entry
        case Running(_, channel) => Enter(s, c, AwaitingClaim(channel))
        case Finished(_, reply) => Enter(s, c, Answered(reply))
    else
      Enter(s.(entries := s.entries[slot := Running(me.hash, c)]), c, Claimed)
  }

  function DoWake(s: State, c: CallerId): (s': State)
    requires c in s.callers
    ensures OnlyMoves(s, s', c)
  {
    match s.callers[c].phase
    case AwaitingPeer(channel) => if channel in s.released then Enter(s, c, Arrived) else s
    case AwaitingClaim(channel) => if channel in s.released then Enter(s, c, Claiming) else s
    case _ => s
  }

  /** Sealing or storing may fail; the caller then reports a storage error whatever the turn produced. */
  function DoPersist(backend: Backend, s: State, c: CallerId, nonce: nat, now: int, fault: Fault): (s': State)
    requires c in s.callers && s.callers[c].phase.Persisting?
    ensures OnlyMoves(s, s', c) && Quiet(s, s')
  {
    var me := s.callers[c];
    var outcome := me.phase.outcome;
    if fault.LostWrite? then Enter(s, c, Publishing(Refused(StorageUnavailable)))
    else
      var rows := match outcome
        case Success(response) => CompleteRow(backend, s.rows, me.key, Sealed(nonce, response), now)
        case Failure(error) => FailRow(backend, s.rows, me.key, error);
      var refused := fault.LostAck? || (outcome.Success? && backend.Postgres? && !Matches(backend, s.rows, me.key));
      Enter(s.(rows := rows), c, Publishing(if refused then Refused(StorageUnavailable) else ReplyOf(outcome)))
  }

  function DoPublish(s: State, c: CallerId): (s': State)
    requires c in s.callers && s.callers[c].phase.Publishing?
    ensures OnlyMoves(s, s', c)
  {
    var me := s.callers[c];
    Enter(s.(entries := s.entries[Slot(me.instance, me.key) := Finished(me.hash, me.phase.reply)]),
          c, Signalling(me.phase.reply))
  }

  /** A dropped request also drops a sender it holds outside the map, which wakes the subscribers. */
  function DoCancel(s: State, c: CallerId): (s': State)
    requires c in s.callers
    ensures OnlyMoves(s, s', c)
  {
    var phase := s.callers[c].phase;
    if phase.Answered? then s
    else Enter(if phase.Signalling? then s.(released := s.released + {c}) else s, c, Cancelled)
  }

  /** The process ends: its map is gone and so are the requests it was serving. */
  function DoRestart(s: State, instance: Instance): State {
    s.(entries := map slot | slot in s.entries && slot.instance != instance :: s.entries[slot],
       callers := map c | c in s.callers ::
         if s.callers[c].instance == instance && !s.callers[c].phase.Answered?
         then s.callers[c].(phase := Cancelled) else s.callers[c])
  }

  function Apply(backend: Backend, s: State, step: Step): State {
    match step
    case Arrive(c, instance, key, hash) =>
      if c in s.callers then s else s.(callers := s.callers[c := Caller(instance, key, hash, Arrived)])
    case Validate(c, valid) =>
      if c in s.callers && s.callers[c].phase.Arrived?
      then if valid then Enter(s, c, Inserting(false)) else Refuse(s, c, InvalidRequest)
      else s
    case Insert(c, fault) =>
      if c in s.callers && s.callers[c].phase.Inserting? then DoInsert(s, c, fault) else s
    case Select(c, now, fault, opens) =>
      if c in s.callers && s.callers[c].phase.Selecting? then DoSelect(s, c, now, fault, opens) else s
    case Expire(c, fault) =>
      if c in s.callers && s.callers[c].phase.Expiring? then DoExpire(s, c, fault) else s
    case Subscribe(c) =>
      if c in s.callers && s.callers[c].phase.Subscribing? then DoSubscribe(s, c) else s
    case Wake(c) =>
      if c in s.callers then DoWake(s, c) else s
    case Poll(c, remainingMs) =>
      if c in s.callers && s.callers[c].phase.Polling? then DoPoll(s, c, remainingMs) else s
    case Claim(c) =>
      if c in s.callers && s.callers[c].phase.Claiming? then DoClaim(s, c) else s
    case Start(c) =>
      if c in s.callers && s.callers[c].phase.Claimed?
      then Enter(s.(starts := s.starts + [StartRecord(c, s.callers[c].key)]), c, Executing)
      else s
    case Finish(c, outcome) =>
      if c in s.callers && s.callers[c].phase.Executing?
      then Enter(s.(outcomes := s.outcomes[c := outcome]), c, Persisting(outcome))
      else s
    case Persist(c, nonce, now, fault) =>
      if c in s.callers && s.callers[c].phase.Persisting? then DoPersist(backend, s, c, nonce, now, fault) else s
    case Publish(c) =>
      if c in s.callers && s.callers[c].phase.Publishing? then DoPublish(s, c) else s
    case Signal(c) =>
      if c in s.callers && s.callers[c].phase.Signalling?
      then Enter(s.(released := s.released + {c}), c, Answered(s.callers[c].phase.reply))
      else s
    case Cancel(c) =>
      if c in s.callers then DoCancel(s, c) else s
    case Restart(instance) => DoRestart(s, instance)
  }

  function Run(backend: Backend, s: State, steps: seq<Step>): State {
    if steps == [] then s
    else Apply(backend, Run(backend, s, steps[..|steps| - 1]), steps[|steps| - 1])
  }

  // ----- Who moves -----

  /** Of the callers a step moves at most its own. */
  lemma ActorMoves(backend: Backend, s: State, step: Step)
    requires !step.Arrive? && !step.Restart?
    ensures Apply(backend, s, step) == s || OnlyMoves(s, Apply(backend, s, step), step.c)
  {
  }

  /** Everybody else stays as he is, unless his process ends. */
  lemma OthersStay(backend: Backend, s: State, step: Step, c: CallerId)
    requires c in s.callers && !step.Restart? && (step.c != c || step.Arrive?)
    ensures var s' := Apply(backend, s, step); c in s'.callers && s'.callers[c] == s.callers[c]
  {
    if !step.Arrive? {
      ActorMoves(backend, s, step);
    }
  }

  /** Whoever is cancelled or waits for a channel takes part in no step but waking, cancelling and restarting. */
  lemma NothingToDo(backend: Backend, s: State, step: Step)
    requires !step.Wake? && !step.Cancel? && !step.Restart? && step.c in s.callers
    requires s.callers[step.c].phase.Cancelled? || s.callers[step.c].phase.AwaitingPeer?
    ensures Apply(backend, s, step) == s
  {
  }

  lemma WaitersAreQuiet(backend: Backend, s: State, step: Step)
    requires step.Arrive? || step.Wake? || step.Poll? || step.Start? || step.Finish?
    ensures Quiet(s, Apply(backend, s, step)) && Apply(backend, s, step).rows == s.rows
  {
  }

  /** Only few steps touch the in-memory maps and the channels, and only an INSERT makes an owner. */
  lemma QuietSteps(backend: Backend, s: State, step: Step)
    requires !step.Claim? && !step.Publish? && !step.Signal? && !step.Cancel? && !step.Restart?
    ensures var s' := Apply(backend, s, step); s'.entries == s.entries && s'.released == s.released
    ensures !step.Insert? ==> Apply(backend, s, step).owners == s.owners
  {
    if step.Arrive? || step.Wake? || step.Poll? || step.Start? || step.Finish? {
      WaitersAreQuiet(backend, s, step);
    }
  }

  lemma LoudStepsKeepOwners(backend: Backend, s: State, step: Step)
    requires step.Claim? || step.Publish? || step.Signal? || step.Cancel? || step.Restart?
    ensures Apply(backend, s, step).owners == s.owners
  {
  }

  // ----- The invariant -----

  /** Between a successful reservation and the durable write of its result. */
  predicate Holding(phase: Phase) {
    phase.Claiming? || phase.Claimed? || phase.Executing? || phase.Persisting?
  }

  predicate Owning(phase: Phase) {
    Holding(phase) || phase.Publishing? || phase.Signalling?
  }

  /** The caller's own entry stands in the in-memory map. */
  predicate Registered(phase: Phase) {
    phase.Claimed? || phase.Executing? || phase.Persisting? || phase.Publishing?
  }

  /** The caller has seen a row for its key. */
  predicate SawRow(phase: Phase) {
    phase.Selecting? || SawMatch(phase)
  }

  /** The caller has seen a row for its key with its own hash. */
  predicate SawMatch(phase: Phase) {
    || (phase.Selecting? && phase.poll) || (phase.Inserting? && phase.poll)
    || phase.Expiring? || phase.Subscribing? || phase.AwaitingPeer? || phase.Polling?
  }

  predicate HasExecuted(phase: Phase) {
    phase.Persisting? || phase.Publishing? || phase.Signalling?
  }

  predicate OutcomeIs(s: State, key: Key, outcome: Outcome) {
    key in s.owners && s.owners[key] in s.outcomes && s.outcomes[s.owners[key]] == outcome
  }

  /** A reply that reveals a result reveals the one the owner of the key produced. */
  predicate Truthful(s: State, key: Key, reply: Reply) {
    match reply
    case Replied(response) => OutcomeIs(s, key, Success(response))
    case Refused(TurnFailed(error)) => OutcomeIs(s, key, Failure(error))
    case _ => true
  }

  predicate ReplyOk(s: State, caller: Caller, reply: Reply) {
    && Truthful(s, caller.key, reply)
    && (reply.Replied? || reply.reason.TurnFailed? || reply.reason.ResultExpired?
        ==> caller.key in s.rows && s.rows[caller.key].hash == caller.hash)
    && (reply.Refused? ==>
          && !reply.reason.StateChanged? && !reply.reason.RecordCorrupt?
          && (reply.reason.HashConflict? ==> caller.key in s.rows && s.rows[caller.key].hash != caller.hash)
          && (reply.reason.StillUncertain? || reply.reason.DeadlineElapsed?
              ==> caller.key in s.rows && s.rows[caller.key].hash == caller.hash))
  }

  predicate CallerOk(s: State, c: CallerId)
    requires c in s.callers
  {
    var me := s.callers[c];
    && !me.phase.AwaitingClaim?
    && (Owning(me.phase) ==> me.key in s.owners && s.owners[me.key] == c)
    && (Holding(me.phase) ==> me.key in s.rows && s.rows[me.key].status.InProgress?)
    && (SawRow(me.phase) ==> me.key in s.rows)
    && (SawMatch(me.phase) ==> me.key in s.rows && s.rows[me.key].hash == me.hash)
    && (me.phase.Executing? ==> StartRecord(c, me.key) in s.starts)
    && (HasExecuted(me.phase) ==> c in s.outcomes)
    && (me.phase.Persisting? ==> s.outcomes[c] == me.phase.outcome)
    && (me.phase.Publishing? || me.phase.Signalling? ==> ReplyOk(s, me, me.phase.reply))
    && (me.phase.Answered? ==> ReplyOk(s, me, me.phase.reply))
    && (me.phase.AwaitingPeer? ==> WaitOk(s, me, me.phase.channel))
  }

  /** Whoever is waited for has released its channel, is still working towards that, or was cancelled. */
  predicate WaitOk(s: State, me: Caller, channel: CallerId) {
    || channel in s.released
    || (&& channel in s.callers
        && (Owning(s.callers[channel].phase) || s.callers[channel].phase.Cancelled?)
        && s.callers[channel].instance == me.instance && s.callers[channel].key == me.key)
  }

  predicate OwnerOk(s: State, key: Key)
    requires key in s.owners
  {
    var c := s.owners[key];
    && key in s.rows && c in s.callers
    && s.callers[c].key == key && s.callers[c].hash == s.rows[key].hash
    && (Owning(s.callers[c].phase) || s.callers[c].phase.Answered? || s.callers[c].phase.Cancelled?)
  }

  predicate RowOk(s: State, key: Key)
    requires key in s.rows
  {
    var row := s.rows[key];
    && key in s.owners
    && match row.status
       case InProgress => row == FreshRow(row.hash)
       case Completed =>
         row.response.Some? && row.expiresAt.Some? && OutcomeIs(s, key, Success(row.response.value.plaintext))
       case Expired =>
         row.response.None? && s.owners[key] in s.outcomes && s.outcomes[s.owners[key]].Success?
       case Failed =>
         && row.error.Some? && row.errorStatus.Some?
         && OutcomeIs(s, key, Failure(TurnError(row.errorStatus.value, row.error.value)))
  }

  predicate EntryOk(s: State, slot: Slot)
    requires slot in s.entries
  {
    var entry := s.entries[slot];
    && slot.key in s.owners && s.owners[slot.key] in s.callers
    && !s.callers[s.owners[slot.key]].phase.Claiming?
    && slot.key in s.rows && entry.hash == s.rows[slot.key].hash
    && match entry
       case Running(_, channel) =>
         && channel == s.owners[slot.key]
         && s.callers[channel].instance == slot.instance
         && (Registered(s.callers[channel].phase) || s.callers[channel].phase.Cancelled?)
       case Finished(_, reply) => Truthful(s, slot.key, reply)
  }

  predicate StartOk(s: State, start: StartRecord) {
    && start.key in s.owners && s.owners[start.key] == start.caller
    && start.caller in s.callers
    && !s.callers[start.caller].phase.Claiming? && !s.callers[start.caller].phase.Claimed?
  }

  predicate DistinctKeys(starts: seq<StartRecord>) {
    forall i, j :: 0 <= i < j < |starts| ==> starts[i].key != starts[j].key
  }

  predicate OutcomeOk(s: State, c: CallerId) {
    && c in s.callers
    && s.callers[c].key in s.owners && s.owners[s.callers[c].key] == c
    && !s.callers[c].phase.Claiming? && !s.callers[c].phase.Claimed? && !s.callers[c].phase.Executing?
    && StartRecord(c, s.callers[c].key) in s.starts
  }

  /** The triggers make every use of a conjunct explicit, which keeps the proofs about one step small. */
  predicate Inv(s: State) {
    LiveInv(s) && HistoryInv(s)
  }

  predicate LiveInv(s: State) {
    && (forall c {:trigger CallerOk(s, c)} :: c in s.callers ==> CallerOk(s, c))
    && (forall key {:trigger OwnerOk(s, key)} :: key in s.owners ==> OwnerOk(s, key))
    && (forall key {:trigger RowOk(s, key)} :: key in s.rows ==> RowOk(s, key))
    && (forall slot {:trigger EntryOk(s, slot)} :: slot in s.entries ==> EntryOk(s, slot))
  }

  predicate HistoryInv(s: State) {
    && (forall start {:trigger StartOk(s, start)} :: start in s.starts ==> StartOk(s, start))
    && (forall c {:trigger OutcomeOk(s, c)} :: c in s.outcomes ==> OutcomeOk(s, c))
    && DistinctKeys(s.starts)
  }

  /** A caller that holds no reservation moves between phases that hold none. */
  predicate Bystander(phase: Phase) {
    !Owning(phase) && !phase.Answered? && !phase.Cancelled?
  }

  lemma BystanderMoves(s: State, c: CallerId, phase: Phase)
    requires Inv(s) && c in s.callers && Bystander(s.callers[c].phase)
    requires !Owning(phase) && CallerOk(Enter(s, c, phase), c)
    ensures Inv(Enter(s, c, phase))
  {
    var s' := Enter(s, c, phase);
    forall key | key in s.owners ensures OwnerOk(s', key) {
      assert OwnerOk(s, key);
    }
    forall x | x in s'.callers ensures CallerOk(s', x) {
      assert CallerOk(s, x);
    }
    forall key | key in s.rows ensures RowOk(s', key) {
      assert RowOk(s, key);
    }
    forall slot | slot in s.entries ensures EntryOk(s', slot) {
      assert EntryOk(s, slot);
      assert OwnerOk(s, slot.key);
    }
    forall start | start in s.starts ensures StartOk(s', start) {
      assert StartOk(s, start);
    }
    forall x | x in s.outcomes ensures OutcomeOk(s', x) {
      assert OutcomeOk(s, x);
    }
  }

  /** The owner of a row advances its turn; nothing that belongs to another key changes. */
  ghost predicate OwnerFrame(s: State, s': State, c: CallerId)
    requires c in s.callers
  {
    var me := s.callers[c];
    && me.key in s.owners && s.owners[me.key] == c
    && c in s'.callers && s'.callers == s.callers[c := me.(phase := s'.callers[c].phase)]
    && s'.owners == s.owners && s.released <= s'.released
    && s'.rows.Keys == s.rows.Keys
    && (forall key :: key in s.rows && key != me.key ==> s'.rows[key] == s.rows[key])
    && (me.key in s.rows ==> s'.rows[me.key].hash == s.rows[me.key].hash)
    && (forall slot :: slot in s'.entries && slot != Slot(me.instance, me.key)
          ==> slot in s.entries && s'.entries[slot] == s.entries[slot])
    && s.outcomes.Keys <= s'.outcomes.Keys <= s.outcomes.Keys + {c}
    && (forall x :: x in s.outcomes ==> s'.outcomes[x] == s.outcomes[x])
  }

  lemma OwnerMovesCallers(s: State, s': State, c: CallerId)
    requires LiveInv(s) && c in s.callers && OwnerFrame(s, s', c)
    requires CallerOk(s', c) && !s'.callers[c].phase.Claiming?
    requires Owning(s'.callers[c].phase) || s'.callers[c].phase.Cancelled? || c in s'.released
    requires s.starts <= s'.starts
    ensures forall x {:trigger CallerOk(s', x)} :: x in s'.callers ==> CallerOk(s', x)
  {
    forall x | x in s'.callers ensures CallerOk(s', x) {
      assert CallerOk(s, x);
    }
  }

  lemma OwnerMovesLive(s: State, s': State, c: CallerId)
    requires LiveInv(s) && c in s.callers && OwnerFrame(s, s', c)
    requires CallerOk(s', c) && OwnerOk(s', s.callers[c].key) && RowOk(s', s.callers[c].key)
    requires !s'.callers[c].phase.Claiming?
    requires Owning(s'.callers[c].phase) || s'.callers[c].phase.Cancelled? || c in s'.released
    requires Slot(s.callers[c].instance, s.callers[c].key) in s'.entries
             ==> EntryOk(s', Slot(s.callers[c].instance, s.callers[c].key))
    requires s.starts <= s'.starts
    ensures LiveInv(s')
  {
    var me := s.callers[c];
    OwnerMovesCallers(s, s', c);
    forall key | key in s'.owners ensures OwnerOk(s', key) {
      assert OwnerOk(s, key);
    }
    forall key | key in s'.rows ensures RowOk(s', key) {
      assert RowOk(s, key);
    }
    forall slot | slot in s'.entries ensures EntryOk(s', slot) {
      if slot != Slot(me.instance, me.key) {
        assert EntryOk(s, slot);
        assert OwnerOk(s, slot.key);
      }
    }
  }

  lemma OwnerMoves(s: State, s': State, c: CallerId)
    requires Inv(s) && c in s.callers && OwnerFrame(s, s', c)
    requires CallerOk(s', c) && OwnerOk(s', s.callers[c].key) && RowOk(s', s.callers[c].key)
    requires c in s'.outcomes ==> OutcomeOk(s', c)
    requires !s'.callers[c].phase.Claiming?
    requires Owning(s'.callers[c].phase) || s'.callers[c].phase.Cancelled? || c in s'.released
    requires Slot(s.callers[c].instance, s.callers[c].key) in s'.entries
             ==> EntryOk(s', Slot(s.callers[c].instance, s.callers[c].key))
    requires s'.starts == s.starts || s'.starts == s.starts + [StartRecord(c, s.callers[c].key)]
    requires StartRecord(c, s.callers[c].key) in s'.starts ==> StartOk(s', StartRecord(c, s.callers[c].key))
    requires DistinctKeys(s'.starts)
    ensures Inv(s')
  {
    OwnerMovesLive(s, s', c);
    forall start | start in s'.starts ensures StartOk(s', start) {
      if start in s.starts {
        assert StartOk(s, start) && OwnerOk(s, start.key);
      }
    }
    forall x | x in s'.outcomes ensures OutcomeOk(s', x) {
      if x != c {
        assert OutcomeOk(s, x);
      }
    }
  }

  /** The INSERT that wins creates the row and makes the caller its owner. */
  lemma FreshRowKeepsInv(s: State, c: CallerId, phase: Phase)
    requires Inv(s) && c in s.callers && s.callers[c].phase == Inserting(false)
    requires s.callers[c].key !in s.rows
    requires phase.Claiming? || phase == Answered(Refused(StorageUnavailable))
    ensures var me := s.callers[c];
            Inv(Enter(s.(rows := InsertIfAbsent(s.rows, me.key, me.hash), owners := s.owners[me.key := c]), c, phase))
  {
    var me := s.callers[c];
    var s' := Enter(s.(rows := InsertIfAbsent(s.rows, me.key, me.hash), owners := s.owners[me.key := c]), c, phase);
    FreshRowKeepsLive(s, c, phase);
    assert me.key in s.owners ==> OwnerOk(s, me.key);
    forall start | start in s'.starts ensures StartOk(s', start) {
      assert StartOk(s, start) && OwnerOk(s, start.key);
    }
    forall x | x in s'.outcomes ensures OutcomeOk(s', x) {
      assert OutcomeOk(s, x);
    }
  }

  lemma FreshRowKeepsCallers(s: State, c: CallerId, phase: Phase)
    requires LiveInv(s) && c in s.callers && s.callers[c].phase == Inserting(false)
    requires s.callers[c].key !in s.rows
    requires phase.Claiming? || phase == Answered(Refused(StorageUnavailable))
    ensures var me := s.callers[c];
            var s' := Enter(s.(rows := InsertIfAbsent(s.rows, me.key, me.hash),
                               owners := s.owners[me.key := c]), c, phase);
            forall x {:trigger CallerOk(s', x)} :: x in s'.callers ==> CallerOk(s', x)
  {
    var me := s.callers[c];
    var s' := Enter(s.(rows := InsertIfAbsent(s.rows, me.key, me.hash), owners := s.owners[me.key := c]), c, phase);
    assert me.key in s.owners ==> OwnerOk(s, me.key);
    forall x | x in s'.callers ensures CallerOk(s', x) {
      assert CallerOk(s, x);
    }
  }

  lemma FreshRowKeepsLive(s: State, c: CallerId, phase: Phase)
    requires LiveInv(s) && c in s.callers && s.callers[c].phase == Inserting(false)
    requires s.callers[c].key !in s.rows
    requires phase.Claiming? || phase == Answered(Refused(StorageUnavailable))
    ensures var me := s.callers[c];
            LiveInv(Enter(s.(rows := InsertIfAbsent(s.rows, me.key, me.hash),
                             owners := s.owners[me.key := c]), c, phase))
  {
    var me := s.callers[c];
    var s' := Enter(s.(rows := InsertIfAbsent(s.rows, me.key, me.hash), owners := s.owners[me.key := c]), c, phase);
    assert me.key in s.owners ==> OwnerOk(s, me.key);
    FreshRowKeepsCallers(s, c, phase);
    forall key | key in s'.owners ensures OwnerOk(s', key) {
      if key != me.key {
        assert OwnerOk(s, key);
      }
    }
    forall key | key in s'.rows ensures RowOk(s', key) {
      if key != me.key {
        assert RowOk(s, key);
      }
    }
    forall slot | slot in s'.entries ensures EntryOk(s', slot) {
      assert EntryOk(s, slot);
      assert OwnerOk(s, slot.key);
    }
  }

  /** Expiring a completed row, by any caller, takes nothing from anybody. */
  lemma MarkExpiredKeepsInv(s: State, key: Key)
    requires Inv(s)
    ensures Inv(s.(rows := MarkExpired(s.rows, key)))
  {
    var s' := s.(rows := MarkExpired(s.rows, key));
    forall x | x in s'.callers ensures CallerOk(s', x) {
      assert CallerOk(s, x);
    }
    forall k | k in s'.owners ensures OwnerOk(s', k) {
      assert OwnerOk(s, k);
    }
    forall k | k in s'.rows ensures RowOk(s', k) {
      assert RowOk(s, k);
    }
    forall slot | slot in s'.entries ensures EntryOk(s', slot) {
      assert EntryOk(s, slot);
    }
    forall start | start in s'.starts ensures StartOk(s', start) {
      assert StartOk(s, start);
    }
    forall x | x in s'.outcomes ensures OutcomeOk(s', x) {
      assert OutcomeOk(s, x);
    }
  }

  lemma InsertKeepsInv(s: State, c: CallerId, fault: Fault)
    requires Inv(s) && c in s.callers && s.callers[c].phase.Inserting?
    ensures Inv(DoInsert(s, c, fault))
  {
    assert CallerOk(s, c);
    var s' := DoInsert(s, c, fault);
    if !fault.LostWrite? && s.callers[c].key !in s.rows {
      FreshRowKeepsInv(s, c, s'.callers[c].phase);
    } else {
      BystanderMoves(s, c, s'.callers[c].phase);
    }
  }

  lemma SelectKeepsInv(s: State, c: CallerId, now: int, fault: Fault, opens: bool)
    requires Inv(s) && c in s.callers && s.callers[c].phase.Selecting?
    ensures Inv(DoSelect(s, c, now, fault, opens))
  {
    assert CallerOk(s, c);
    assert RowOk(s, s.callers[c].key);
    BystanderMoves(s, c, DoSelect(s, c, now, fault, opens).callers[c].phase);
  }

  lemma ExpireKeepsInv(s: State, c: CallerId, fault: Fault)
    requires Inv(s) && c in s.callers && s.callers[c].phase.Expiring?
    ensures Inv(DoExpire(s, c, fault))
  {
    var s1 := if fault.LostWrite? then s else s.(rows := MarkExpired(s.rows, s.callers[c].key));
    MarkExpiredKeepsInv(s, s.callers[c].key);
    assert CallerOk(s1, c);
    BystanderMoves(s1, c, DoExpire(s, c, fault).callers[c].phase);
  }

  lemma SubscribeKeepsInv(s: State, c: CallerId)
    requires Inv(s) && c in s.callers && s.callers[c].phase.Subscribing?
    ensures Inv(DoSubscribe(s, c))
  {
    assert CallerOk(s, c);
    var slot := Slot(s.callers[c].instance, s.callers[c].key);
    if slot in s.entries {
      assert EntryOk(s, slot);
      assert OwnerOk(s, slot.key);
    }
    BystanderMoves(s, c, DoSubscribe(s, c).callers[c].phase);
  }

  lemma ClaimKeepsInv(s: State, c: CallerId)
    requires Inv(s) && c in s.callers && s.callers[c].phase.Claiming?
    ensures DoClaim(s, c).callers[c].phase.Claimed? && Inv(DoClaim(s, c))
  {
    assert CallerOk(s, c);
    var me := s.callers[c];
    assert OwnerOk(s, me.key) && RowOk(s, me.key);
    assert Slot(me.instance, me.key) in s.entries ==> EntryOk(s, Slot(me.instance, me.key));
    assert c in s.outcomes ==> OutcomeOk(s, c);
    assert StartOk(s, StartRecord(c, me.key)) || StartRecord(c, me.key) !in s.starts;
    OwnerMoves(s, DoClaim(s, c), c);
  }

  lemma StartKeepsInv(s: State, c: CallerId)
    requires Inv(s) && c in s.callers && s.callers[c].phase.Claimed?
    ensures Inv(Apply(Postgres, s, Start(c)))
  {
    var me := s.callers[c];
    assert CallerOk(s, c) && OwnerOk(s, me.key) && RowOk(s, me.key);
    forall i | 0 <= i < |s.starts| ensures s.starts[i].key != me.key {
      assert StartOk(s, s.starts[i]);
    }
    assert Slot(me.instance, me.key) in s.entries ==> EntryOk(s, Slot(me.instance, me.key));
    assert c in s.outcomes ==> OutcomeOk(s, c);
    OwnerMoves(s, Apply(Postgres, s, Start(c)), c);
  }

  lemma FinishKeepsInv(s: State, c: CallerId, outcome: Outcome)
    requires Inv(s) && c in s.callers && s.callers[c].phase.Executing?
    ensures Inv(Apply(Postgres, s, Finish(c, outcome)))
  {
    var me := s.callers[c];
    assert CallerOk(s, c) && OwnerOk(s, me.key) && RowOk(s, me.key);
    assert Slot(me.instance, me.key) in s.entries ==> EntryOk(s, Slot(me.instance, me.key));
    assert c in s.outcomes ==> OutcomeOk(s, c);
    OwnerMoves(s, Apply(Postgres, s, Finish(c, outcome)), c);
  }

  lemma PersistKeepsInv(backend: Backend, s: State, c: CallerId, nonce: nat, now: int, fault: Fault)
    requires Inv(s) && c in s.callers && s.callers[c].phase.Persisting?
    ensures Inv(DoPersist(backend, s, c, nonce, now, fault))
  {
    var me := s.callers[c];
    assert CallerOk(s, c) && OwnerOk(s, me.key) && RowOk(s, me.key);
    assert Slot(me.instance, me.key) in s.entries ==> EntryOk(s, Slot(me.instance, me.key));
    assert OutcomeOk(s, c);
    OwnerMoves(s, DoPersist(backend, s, c, nonce, now, fault), c);
  }

  lemma PublishKeepsInv(s: State, c: CallerId)
    requires Inv(s) && c in s.callers && s.callers[c].phase.Publishing?
    ensures Inv(DoPublish(s, c))
  {
    var me := s.callers[c];
    assert CallerOk(s, c) && OwnerOk(s, me.key) && RowOk(s, me.key);
    assert OutcomeOk(s, c);
    OwnerMoves(s, DoPublish(s, c), c);
  }

  lemma SignalKeepsInv(s: State, c: CallerId)
    requires Inv(s) && c in s.callers && s.callers[c].phase.Signalling?
    ensures Inv(Apply(Postgres, s, Signal(c)))
  {
    var me := s.callers[c];
    assert CallerOk(s, c) && OwnerOk(s, me.key) && RowOk(s, me.key);
    assert OutcomeOk(s, c);
    assert Slot(me.instance, me.key) in s.entries ==> EntryOk(s, Slot(me.instance, me.key));
    OwnerMoves(s, Apply(Postgres, s, Signal(c)), c);
  }

  lemma CancelKeepsInv(s: State, c: CallerId)
    requires Inv(s) && c in s.callers
    ensures Inv(DoCancel(s, c))
  {
    var me := s.callers[c];
    assert CallerOk(s, c);
    if Owning(me.phase) {
      assert OwnerOk(s, me.key) && RowOk(s, me.key);
      assert c in s.outcomes ==> OutcomeOk(s, c);
      assert StartOk(s, StartRecord(c, me.key)) || StartRecord(c, me.key) !in s.starts;
      assert Slot(me.instance, me.key) in s.entries ==> EntryOk(s, Slot(me.instance, me.key));
      OwnerMoves(s, DoCancel(s, c), c);
    } else if Bystander(me.phase) {
      BystanderMoves(s, c, Cancelled);
    } else {
      assert DoCancel(s, c) == s;
    }
  }

  lemma RestartKeepsCallers(s: State, instance: Instance)
    requires Inv(s)
    ensures var s' := DoRestart(s, instance);
            forall x {:trigger CallerOk(s', x)} :: x in s'.callers ==> CallerOk(s', x)
  {
    var s' := DoRestart(s, instance);
    forall x | x in s'.callers ensures CallerOk(s', x) {
      assert CallerOk(s, x);
    }
  }

  lemma RestartKeepsInv(s: State, instance: Instance)
    requires Inv(s)
    ensures Inv(DoRestart(s, instance))
  {
    var s' := DoRestart(s, instance);
    RestartKeepsCallers(s, instance);
    forall key | key in s'.owners ensures OwnerOk(s', key) {
      assert OwnerOk(s, key);
    }
    forall key | key in s'.rows ensures RowOk(s', key) {
      assert RowOk(s, key);
    }
    forall slot | slot in s'.entries ensures EntryOk(s', slot) {
      assert EntryOk(s, slot);
      assert OwnerOk(s, slot.key);
    }
    forall start | start in s'.starts ensures StartOk(s', start) {
      assert StartOk(s, start);
    }
    forall x | x in s'.outcomes ensures OutcomeOk(s', x) {
      assert OutcomeOk(s, x);
    }
  }

  lemma ArriveKeepsInv(s: State, c: CallerId, instance: Instance, key: Key, hash: Hash)
    requires Inv(s) && c !in s.callers
    ensures Inv(s.(callers := s.callers[c := Caller(instance, key, hash, Arrived)]))
  {
    var s' := s.(callers := s.callers[c := Caller(instance, key, hash, Arrived)]);
    forall x | x in s'.callers ensures CallerOk(s', x) {
      assert x != c ==> CallerOk(s, x);
    }
    forall k | k in s'.owners ensures OwnerOk(s', k) {
      assert OwnerOk(s, k);
    }
    forall k | k in s'.rows ensures RowOk(s', k) {
      assert RowOk(s, k);
    }
    forall slot | slot in s'.entries ensures EntryOk(s', slot) {
      assert EntryOk(s, slot);
      assert OwnerOk(s, slot.key);
    }
    forall start | start in s'.starts ensures StartOk(s', start) {
      assert StartOk(s, start);
    }
    forall x | x in s'.outcomes ensures OutcomeOk(s', x) {
      assert OutcomeOk(s, x);
    }
  }

  lemma WakeKeepsInv(s: State, c: CallerId)
    requires Inv(s) && c in s.callers
    ensures Inv(DoWake(s, c))
  {
    assert CallerOk(s, c);
    if DoWake(s, c) != s {
      BystanderMoves(s, c, Arrived);
    }
  }

  lemma PollKeepsInv(s: State, c: CallerId, remainingMs: int)
    requires Inv(s) && c in s.callers && s.callers[c].phase.Polling?
    ensures Inv(DoPoll(s, c, remainingMs))
  {
    assert CallerOk(s, c);
    BystanderMoves(s, c, DoPoll(s, c, remainingMs).callers[c].phase);
  }

  lemma ValidateKeepsInv(s: State, c: CallerId, valid: bool)
    requires Inv(s) && c in s.callers && s.callers[c].phase.Arrived?
    ensures Inv(if valid then Enter(s, c, Inserting(false)) else Refuse(s, c, InvalidRequest))
  {
    BystanderMoves(s, c, if valid then Inserting(false) else Answered(Refused(InvalidRequest)));
  }

  lemma ReservationStepKeepsInv(backend: Backend, s: State, step: Step)
    requires Inv(s)
    requires step.Arrive? || step.Insert? || step.Select? || step.Expire? || step.Subscribe?
    ensures Inv(Apply(backend, s, step))
  {
    if Apply(backend, s, step) != s {
      match step
      case Arrive(c, instance, key, hash) => ArriveKeepsInv(s, c, instance, key, hash);
      case Insert(c, fault) => InsertKeepsInv(s, c, fault);
      case Select(c, now, fault, opens) => SelectKeepsInv(s, c, now, fault, opens);
      case Expire(c, fault) => ExpireKeepsInv(s, c, fault);
      case Subscribe(c) => SubscribeKeepsInv(s, c);
    }
  }

  lemma OwnerStepKeepsInv(backend: Backend, s: State, step: Step)
    requires Inv(s)
    requires step.Claim? || step.Start? || step.Finish? || step.Persist? || step.Publish? || step.Signal?
    ensures Inv(Apply(backend, s, step))
  {
    if Apply(backend, s, step) != s {
      match step
      case Claim(c) => ClaimKeepsInv(s, c);
      case Start(c) => StartKeepsInv(s, c);
      case Finish(c, outcome) => FinishKeepsInv(s, c, outcome);
      case Persist(c, nonce, now, fault) => PersistKeepsInv(backend, s, c, nonce, now, fault);
      case Publish(c) => PublishKeepsInv(s, c);
      case Signal(c) => SignalKeepsInv(s, c);
    }
  }

  lemma StepKeepsInv(backend: Backend, s: State, step: Step)
    requires Inv(s)
    ensures Inv(Apply(backend, s, step))
  {
    match step
    case Cancel(c) => if c in s.callers { CancelKeepsInv(s, c); }
    case Restart(instance) => RestartKeepsInv(s, instance);
    case Validate(c, valid) => if c in s.callers && s.callers[c].phase.Arrived? { ValidateKeepsInv(s, c, valid); }
    case Wake(c) => if c in s.callers { WakeKeepsInv(s, c); }
    case Poll(c, ms) => if c in s.callers && s.callers[c].phase.Polling? { PollKeepsInv(s, c, ms); }
    case Arrive(_, _, _, _) => ReservationStepKeepsInv(backend, s, step);
    case Insert(_, _) => ReservationStepKeepsInv(backend, s, step);
    case Select(_, _, _, _) => ReservationStepKeepsInv(backend, s, step);
    case Expire(_, _) => ReservationStepKeepsInv(backend, s, step);
    case Subscribe(_) => ReservationStepKeepsInv(backend, s, step);
    case _ => OwnerStepKeepsInv(backend, s, step);
  }

  lemma {:induction false} RunKeepsInv(backend: Backend, s: State, steps: seq<Step>)
    requires Inv(s)
    ensures Inv(Run(backend, s, steps))
  {
    if steps != [] {
      RunKeepsInv(backend, s, steps[..|steps| - 1]);
      StepKeepsInv(backend, Run(backend, s, steps[..|steps| - 1]), steps[|steps| - 1]);
    }
  }

  // ----- Theorems over every run -----

  /** Every state some run can reach from the empty store. */
  ghost predicate Reachable(backend: Backend, s: State) {
    exists steps :: s == Run(backend, INITIAL, steps)
  }

  lemma ReachableInv(backend: Backend, s: State)
    requires Reachable(backend, s)
    ensures Inv(s)
  {
    var steps :| s == Run(backend, INITIAL, steps);
    RunKeepsInv(backend, INITIAL, steps);
  }

  /** At most one upstream execution per durable key, whatever fails, is cancelled or restarts. */
  lemma AtMostOneExecution(backend: Backend, steps: seq<Step>, i: nat, j: nat)
    requires i < j < |Run(backend, INITIAL, steps).starts|
    ensures Run(backend, INITIAL, steps).starts[i].key != Run(backend, INITIAL, steps).starts[j].key
  {
    RunKeepsInv(backend, INITIAL, steps);
  }

  /**
   Every response handed out for a key is the one its only execution produced, so any two of them agree;
   the same holds for replayed turn failures.
   */
  lemma EveryReplyIsTheExecutedOne(backend: Backend, s: State, c: CallerId)
    requires Reachable(backend, s)
    requires c in s.callers && s.callers[c].phase.Answered?
    requires s.callers[c].phase.reply.Replied? || s.callers[c].phase.reply.reason.TurnFailed?
    ensures exists e :: e in s.outcomes && StartRecord(e, s.callers[c].key) in s.starts
                        && s.callers[c].phase.reply == ReplyOf(s.outcomes[e])
    ensures forall start :: start in s.starts && start.key == s.callers[c].key ==>
              start.caller in s.outcomes && s.callers[c].phase.reply == ReplyOf(s.outcomes[start.caller])
  {
    ReachableInv(backend, s);
    assert CallerOk(s, c);
    var e := s.owners[s.callers[c].key];
    assert OutcomeOk(s, e) && OwnerOk(s, s.callers[c].key);
    assert e in s.outcomes && StartRecord(e, s.callers[c].key) in s.starts;
    forall start | start in s.starts && start.key == s.callers[c].key
      ensures start.caller == s.owners[s.callers[c].key]
    {
      assert StartOk(s, start);
    }
  }

  /**
   A caller is told about a hash conflict exactly when the row of its key carries another hash; such a caller
   never learns a result, and otherwise can only see its request rejected or the store unavailable.
   */
  lemma ConflictExactlyOnOtherHash(backend: Backend, s: State, c: CallerId)
    requires Reachable(backend, s)
    requires c in s.callers && s.callers[c].phase.Answered?
    ensures var caller, reply := s.callers[c], s.callers[c].phase.reply;
            && (reply == Refused(HashConflict) ==> caller.key in s.rows && s.rows[caller.key].hash != caller.hash)
            && (caller.key in s.rows && s.rows[caller.key].hash != caller.hash ==>
                  reply in {Refused(HashConflict), Refused(InvalidRequest), Refused(StorageUnavailable)})
  {
    ReachableInv(backend, s);
    assert CallerOk(s, c);
  }

  /** The arms the code keeps for states that cannot arise are never taken. */
  lemma DefensiveArmsAreUnreachable(backend: Backend, s: State, c: CallerId)
    requires Reachable(backend, s) && c in s.callers
    ensures s.callers[c].phase.Claiming? ==> forall i :: Slot(i, s.callers[c].key) !in s.entries
    ensures s.callers[c].phase.Inserting? && s.callers[c].phase.poll ==> s.callers[c].key in s.rows
    ensures s.callers[c].phase.Selecting? || s.callers[c].phase.Expiring? ==> s.callers[c].key in s.rows
    ensures s.callers[c].phase.Persisting? ==> Matches(Postgres, s.rows, s.callers[c].key)
    ensures !s.callers[c].phase.AwaitingClaim?
    ensures s.callers[c].phase != Answered(Refused(StateChanged))
            && s.callers[c].phase != Answered(Refused(RecordCorrupt))
  {
    ReachableInv(backend, s);
    assert CallerOk(s, c);
    forall i | Slot(i, s.callers[c].key) in s.entries ensures !s.callers[c].phase.Claiming? {
      assert EntryOk(s, Slot(i, s.callers[c].key));
    }
  }

  /**
   No wake-up is lost: whoever waits on a channel can be woken already, or the caller that owns the channel,
   on the same instance and for the same key, is still before its signal (unless that request was cancelled).
   */
  lemma NoLostWakeUp(backend: Backend, s: State, c: CallerId)
    requires Reachable(backend, s)
    requires c in s.callers && s.callers[c].phase.AwaitingPeer?
    ensures var channel := s.callers[c].phase.channel;
            || Apply(backend, s, Wake(c)).callers[c].phase.Arrived?
            || (&& channel in s.callers
                && s.callers[channel].key == s.callers[c].key
                && s.callers[channel].instance == s.callers[c].instance
                && (Owning(s.callers[channel].phase) || s.callers[channel].phase.Cancelled?))
  {
    ReachableInv(backend, s);
    assert CallerOk(s, c);
  }

  predicate WritesRows(step: Step) {
    step.Insert? || step.Expire? || step.Persist?
  }

  lemma WaitersKeepRows(backend: Backend, s: State, step: Step)
    requires step.Validate? || step.Select? || step.Subscribe?
    ensures Apply(backend, s, step).rows == s.rows
  {
  }

  lemma OwnersKeepRows(backend: Backend, s: State, step: Step)
    requires step.Claim? || step.Publish? || step.Signal? || step.Cancel? || step.Restart?
    ensures Apply(backend, s, step).rows == s.rows
  {
  }

  lemma PersistAdvancesRows(
    backend: Backend, s: State, c: CallerId, nonce: nat, now: int, fault: Fault, key: Key)
    requires Inv(s) && key in s.rows && c in s.callers && s.callers[c].phase.Persisting?
    ensures var s' := DoPersist(backend, s, c, nonce, now, fault); key in s'.rows && Advances(s.rows[key], s'.rows[key])
  {
    assert CallerOk(s, c);
  }

  lemma WriterAdvancesRows(backend: Backend, s: State, step: Step, key: Key)
    requires Inv(s) && key in s.rows && WritesRows(step)
    ensures var s' := Apply(backend, s, step); key in s'.rows && Advances(s.rows[key], s'.rows[key])
  {
    if step.Persist? && step.c in s.callers && s.callers[step.c].phase.Persisting? {
      PersistAdvancesRows(backend, s, step.c, step.nonce, step.now, step.fault, key);
    }
  }

  /** No step moves a row other than along in progress -> {failed, completed -> expired}. */
  lemma StepAdvancesRows(backend: Backend, s: State, step: Step, key: Key)
    requires Inv(s) && key in s.rows
    ensures var s' := Apply(backend, s, step); key in s'.rows && Advances(s.rows[key], s'.rows[key])
  {
    if WritesRows(step) {
      WriterAdvancesRows(backend, s, step, key);
    } else if step.Validate? || step.Select? || step.Subscribe? {
      WaitersKeepRows(backend, s, step);
    } else if step.Arrive? || step.Wake? || step.Poll? || step.Start? || step.Finish? {
      WaitersAreQuiet(backend, s, step);
    } else {
      OwnersKeepRows(backend, s, step);
    }
  }

  /** The forward closure of `Advances`: what a row may have become after any number of moves. */
  predicate Evolves(before: Row, after: Row) {
    && after.hash == before.hash
    && match before.status
       case InProgress => true
       case Completed => after == before || after == before.(status := Expired, response := None)
       case Expired => after == before
       case Failed => after == before
  }

  /** From any reachable state on: no row disappears, changes its hash, or has its final answer rewritten. */
  lemma {:induction false} RowsEvolve(backend: Backend, s: State, steps: seq<Step>, key: Key)
    requires Inv(s) && key in s.rows
    ensures var s' := Run(backend, s, steps); key in s'.rows && Evolves(s.rows[key], s'.rows[key])
  {
    if steps != [] {
      var mid := Run(backend, s, steps[..|steps| - 1]);
      RowsEvolve(backend, s, steps[..|steps| - 1], key);
      RunKeepsInv(backend, s, steps[..|steps| - 1]);
      StepAdvancesRows(backend, mid, steps[|steps| - 1], key);
    }
  }

  /**
   In every state of every run the unguarded SQLite updates and the guarded PostgreSQL ones do the same, up to
   nothing at all: the two stores go through identical states under identical schedules.
   */
  lemma {:induction false} SqliteRefinesPostgres(steps: seq<Step>)
    ensures Run(Sqlite, INITIAL, steps) == Run(Postgres, INITIAL, steps)
  {
    if steps != [] {
      SqliteRefinesPostgres(steps[..|steps| - 1]);
      var s, step := Run(Postgres, INITIAL, steps[..|steps| - 1]), steps[|steps| - 1];
      RunKeepsInv(Postgres, INITIAL, steps[..|steps| - 1]);
      if step.Persist? && step.c in s.callers && s.callers[step.c].phase.Persisting? {
        assert CallerOk(s, step.c);
        assert RowOk(s, s.callers[step.c].key);
      }
    }
  }

  /** Off the protocol the guard matters: on a row that is already final the two stores part ways. */
  lemma GuardMattersExactlyOffProtocol(t: Table, key: Key, sealed: Sealed, now: int)
    requires key in t
    ensures CompleteRow(Sqlite, t, key, sealed, now) == CompleteRow(Postgres, t, key, sealed, now)
            <==> t[key].status.InProgress?
                 || t[key] == Row(t[key].hash, Completed, Some(sealed),
                                  Some(SaturatingAdd(now, REPLAY_WINDOW_SECONDS)), None, None)
  {
    if !t[key].status.InProgress? {
      assert CompleteRow(Postgres, t, key, sealed, now) == t;
      assert CompleteRow(Sqlite, t, key, sealed, now)[key]
          == Row(t[key].hash, Completed, Some(sealed), Some(SaturatingAdd(now, REPLAY_WINDOW_SECONDS)), None, None);
    }
  }

  /** For failures the stores also differ on a row in progress that has an expiry, which PostgreSQL clears. */
  lemma FailuresAgreeExactly(t: Table, key: Key, error: TurnError)
    requires key in t
    ensures FailRow(Sqlite, t, key, error) == FailRow(Postgres, t, key, error)
            <==> (t[key].status.InProgress? && t[key].expiresAt.None?)
                 || t[key] == Row(t[key].hash, Failed, None, t[key].expiresAt, Some(error.envelope), Some(error.status))
  {
    var sqlite := FailRow(Sqlite, t, key, error)[key];
    assert sqlite == Row(t[key].hash, Failed, None, t[key].expiresAt, Some(error.envelope), Some(error.status));
    if t[key].status.InProgress? {
      assert FailRow(Postgres, t, key, error)[key] == sqlite.(expiresAt := None);
    } else {
      assert FailRow(Postgres, t, key, error) == t;
    }
  }

  /**
   Replay: once a turn is stored as completed, a later caller with the same hash whose statements succeed
   within the replay window gets exactly the executed response, and after the window gets it never again.
   */
  lemma CompletedTurnIsReplayed(backend: Backend, s: State, c: CallerId, now: int)
    requires Reachable(backend, s) && c in s.callers && s.callers[c].phase.Inserting?
    requires s.callers[c].key in s.rows && s.rows[s.callers[c].key].hash == s.callers[c].hash
    requires s.rows[s.callers[c].key].status.Completed?
    ensures var row := s.rows[s.callers[c].key];
            var s1 := Apply(backend, Apply(backend, s, Insert(c, NoFault)), Select(c, now, NoFault, true));
            && row.expiresAt.Some? && s.callers[c].key in s.owners && s.owners[s.callers[c].key] in s.outcomes
            && (now < row.expiresAt.value ==>
                  s1.rows == s.rows
                  && s1.callers[c].phase == Answered(ReplyOf(s.outcomes[s.owners[s.callers[c].key]])))
            && (now >= row.expiresAt.value ==>
                  var s2 := Apply(backend, s1, Expire(c, NoFault));
                  s2.callers[c].phase == Answered(Refused(ResultExpired))
                  && s2.rows[s.callers[c].key].status.Expired?
                  && s2.rows[s.callers[c].key].response.None?)
  {
    ReachableInv(backend, s);
    assert RowOk(s, s.callers[c].key);
    InsertFindsTheRow(backend, s, c);
  }

  lemma InsertFindsTheRow(backend: Backend, s: State, c: CallerId)
    requires c in s.callers && s.callers[c].phase.Inserting? && s.callers[c].key in s.rows
    ensures Apply(backend, s, Insert(c, NoFault)) == Enter(s, c, Selecting(s.callers[c].phase.poll))
  {
  }
}
