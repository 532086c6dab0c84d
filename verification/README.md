# Provider Gateway and workspace channel: a verified model

This project models the parts of the repository in which several processes, several tables or a whole history have to
agree, and proves what they promise over every run and every input.

- **Turns** (`TurnRecords`, `TurnProtocol`, `TurnWaiting`, `TurnAnswers`). Gateway instances share one durable table. A
  turn is reserved by insert-if-absent, executed by at most one caller, persisted, and replayed to everybody else; an
  in-memory map with a wake-up channel is only a cache. Every SQL statement, locked transaction or in-memory critical
  section is one step of a state machine, and a run is any sequence of steps by any number of callers on any number of
  instances, with lost writes, lost acknowledgements, dropped requests and restarts.
- **What one turn holds** (`Leases`, `ScopeKeys`, `Quota`, `TurnExecution`, `Circuit`). Leases acquired statement by
  statement under an advisory lock while turns go on, the daily token ledger, the candidate-switching loop with its
  retries, and the circuit breaker.
- **Configuration** (`Revisions`, `ConfigurationCache`). Revisioned rows with one current mark and optimistic
  compare-and-swap, and the snapshot an instance keeps of several tables by reading them between two looks at a version.
- **Translations** (`TurnInput`, `ToolAliases`, `ToolHistory`, `ProviderResponse`, `Selection`). The two-way map of
  tool names, the repair of compacted tool-call histories, the closure of parsed responses, and the weighted pick with
  its fallback order.
- **Workspace channel** (`Frames`, `ReplayGuard`, `ArchiveWalk`). WebSocket frames of RFC 6455 (sections 5.2 and 5.3)
  and the handler that takes them from chunks, the log of consumed token ids, and the bounded walk of an exported tree.
- **Failure hook** (`FailureHook`). The streak of equal failures the runtime counts.

`Prelude`, `Lists` and `ByteOrder` hold shared vocabulary. Code that updates state in place is a class whose methods are
proved against functions of the old state; theorems over runs are about these functions.

Reading guide: in the state machines a disabled step leaves the state as it is, so a quantification over step sequences
is a quantification over all interleavings. Clocks, randomness, digests, JSON and everything a provider or a database
decides are parameters, and the theorems hold for all of them.

## Findings

Places where a promise holds only under a condition; each has a theorem that says exactly when, or a schedule that shows
it fail.

- The lease scope key joins policy id, revision, workspace and project by colons and is not injective
  (`ScopeKeys.PoliciesShareKeysExactlyWhenNested`); the lease bound then counts both policies together.
- Two overlapping refreshes can leave the older configuration in memory under the newer version
  (`ConfigurationCache.OverlapIsReachable`); with one refresh at a time the snapshot is coherent.
- A request that is dropped while it executes leaves its in-memory entry behind: whoever waits for it on that instance
  is woken in no continuation, and later callers join the wait until the instance restarts
  (`TurnWaiting.WaiterWakesExactlyUnlessAbandoned`, `TurnWaiting.LaterCallersAreAbandoned`; every key can get there,
  `TurnWaiting.AbandonedIsReachable`).
- A nonzero token reservation stays open exactly if the lease statement after it fails, where nothing tries to give it
  back, or its one settlement statement fails. A lease stays held exactly if a settlement its turn needs fails, which
  skips the release, or the release fails (`TurnExecution.Turn.Execute`, `TurnExecution.ConcludedLeaves`).
- The SQLite store adds thirty seconds to a failure time without saturating, so at the very end of 64-bit time it parts
  ways with the PostgreSQL store (`Circuit.SqliteKeepsTheSameCircuit`).
- The fallback list loses the duplicates of the pick: it is a permutation for every selection key exactly if each
  candidate that can be picked is listed once (`Selection.AlwaysAPermutationExactlyWithoutDuplicates`). Validated
  policies have unique ids.
- An assistant message that declares tool calls keeps none of its content, images included; images of all other
  messages are kept (`ToolHistory.ImagesAreKept`, `ToolHistory.ImagesAreLostExactlyBesideCalls`).
- The fuzzy lookup of tool names, meant to forgive a wrong digest, does so exactly for prefixes without a double
  underscore that no other tool shares (`ToolAliases.WrongDigestIsForgiven`).
- Behind a close frame or a refused header, what the channel does depends on chunking: exactly if a text, binary or
  close frame or a refused header follows the first close, or any byte the first refused header
  (`Frames.CutsMatterExactly`).
- A token can be accepted twice exactly if some reading of the clock is later than one before it and one after it
  (`ReplayGuard.SomeTokenGetsInTwiceExactlyAfterAPeak`); for a given token, if the readings reach its expiry and fall
  behind it again.
- A comment in `services/provider-gateway/src/lib.rs` (lines 6376-6379) relies on the digest to keep aliases apart; the
  code does not and checks for collisions, which is what the model follows.

## Model

| member | source | states |
|---|---|---|
| TurnRecords.TurnStore.ReserveTurn | services/provider-gateway/src/postgres_store.rs:62-121 | a turn is reserved exactly when its key had no row; a conflict is answered exactly when the stored hash differs; otherwise the row and answer are those of the reservation transaction, including expiry |
| TurnRecords.TurnStore.CompleteTurn | services/provider-gateway/src/postgres_store.rs:418-493 | the guarded (PostgreSQL) or unguarded (SQLite) update stores the sealed response with a 24 hour window and reports whether a row matched |
| TurnRecords.TurnStore.FailTurn | services/provider-gateway/src/storage.rs:891-900 | the failure is stored where the update matches, with the two stores' different treatment of the expiry column |
| TurnProtocol.AtMostOneExecution | services/provider-gateway/src/lib.rs:943-1133 | over every interleaving of callers, instances, failures, cancellations and restarts, no durable key is executed twice |
| TurnProtocol.EveryReplyIsTheExecutedOne | services/provider-gateway/src/lib.rs:943-1133 | every success or turn failure answered for a key is what its one execution produced, and every execution record of the key is that one |
| TurnProtocol.ConflictExactlyOnOtherHash | services/provider-gateway/src/lib.rs:976-1059 | faults included: a conflict is answered only if the stored hash differs, and a caller whose hash differs gets a conflict or an error that reveals nothing |
| TurnProtocol.DefensiveArmsAreUnreachable | services/provider-gateway/src/lib.rs:1035-1080 | after a successful reservation the local map has no entry for the key, polls never see a fresh reservation or a missing row, and the guarded completion always matches |
| TurnProtocol.NoLostWakeUp | services/provider-gateway/src/lib.rs:1008-1032 | a waiter on a channel can be woken now, or the channel's owner (same key, same instance) is still before its signal or was cancelled |
| TurnWaiting.WaiterWakesExactlyUnlessAbandoned | services/provider-gateway/src/lib.rs:1008-1032 | in every reachable state some continuation wakes a waiter exactly if its channel was signalled or the channel's owner was not cancelled |
| TurnWaiting.RunKeepsAbandoned | services/provider-gateway/src/lib.rs:1082-1133 | whoever waits for a cancelled owner waits in every continuation, until its own request ends |
| TurnWaiting.OwnerWakes | services/provider-gateway/src/lib.rs:1109-1131 | an owner that goes on, from any stage, leads to the waiter's wake-up |
| TurnWaiting.LaterCallersAreAbandoned | services/provider-gateway/src/lib.rs:1008-1028 | the entry of a cancelled owner stays until its instance restarts, and everybody who subscribes to it is abandoned as well |
| TurnWaiting.AbandonedIsReachable | services/provider-gateway/src/lib.rs:1008-1028 | for every instance, key and hash a request dropped after its claim and a second one that joins it reach such a wait |
| TurnWaiting.OtherHashIsAConflict | services/provider-gateway/src/lib.rs:976-1059 | a caller none of whose statements failed is told about a conflict exactly when the stored hash differs, an invalid request aside |
| TurnAnswers.ExecutorIsAnswered | services/provider-gateway/src/lib.rs:1082-1133 | in every run a caller that executed is answered with what it executed, exactly unless its final update reported a failure, and then that the store is unavailable; without faults always with what it executed; its row stays in progress exactly if that update was lost |
| TurnAnswers.PassIsAnsweredByTheRow | services/provider-gateway/src/lib.rs:976-1007 | a caller whose statements work is answered by the row it finds: a conflict, the executed result or failure, its expiry, or a wait while the turn is in progress |
| TurnAnswers.ReservationAnswersExactly | services/provider-gateway/src/postgres_store.rs:62-121 | for every row, damaged ones included, which of the seven answers a reservation gives, and the whole table it leaves |
| TurnAnswers.EntryDecidesTheClaim | services/provider-gateway/src/lib.rs:1035-1080 | an entry found after a reservation, though no run reaches it, decides: a conflict on another hash, the finished answer, or a wait that ends exactly once the owner has signalled |
| TurnAnswers.DamagedRowsRefuse | services/provider-gateway/src/lib.rs:976-990 | a missing or damaged row and a response that does not open end the pass with a storage error, an opened one with the stored response |
| TurnAnswers.FreshKeyIsReserved | services/provider-gateway/src/lib.rs:1035-1080 | without a row the caller's insert reserves the turn and its claim succeeds |
| TurnAnswers.FaultyStatementsRefuse | services/provider-gateway/src/lib.rs:976-990 | a statement that reports a failure ends the pass as unavailable, and the rows change exactly if it arrived |
| TurnAnswers.JoinsTheLocalOwner | services/provider-gateway/src/lib.rs:1008-1028 | a caller of a turn in progress waits for its owner exactly if that is registered on the same instance, and polls otherwise |
| TurnAnswers.PollsWhileTimeIsLeft | services/provider-gateway/src/lib.rs:1163-1187 | a poller looks again exactly while more than fifty milliseconds are left, and otherwise gives the matching refusal |
| TurnAnswers.InvalidRequestsLeaveNothing | services/provider-gateway/src/lib.rs:943-975 | an invalid request is refused and changes nothing else, a valid one goes on to the store |
| TurnAnswers.DroppedOwnerWakesAfterPublication | services/provider-gateway/src/lib.rs:1109-1131 | dropping an owner wakes its waiters exactly if its result was already published |
| TurnAnswers.RestartForgetsItsOwn | services/provider-gateway/src/lib.rs:905-935 | a restart takes exactly the instance's own entries and unanswered requests along, and no row |
| TurnAnswers.UndisturbedTurnSucceeds | services/provider-gateway/src/lib.rs:943-1133 | from every reachable state the first caller of a key, undisturbed, executes once, is answered with the outcome, and leaves it in the row with a window of a day |
| TurnProtocol.StepKeepsInv | services/provider-gateway/src/lib.rs:943-1237 | every atomic step of every caller keeps the protocol invariant |
| TurnProtocol.RunKeepsInv | services/provider-gateway/src/lib.rs:943-1237 | the invariant holds in every state of every run |
| TurnProtocol.FreshRowKeepsInv | services/provider-gateway/src/postgres_store.rs:62-80 | the winning INSERT creates the row and its only owner without disturbing any other turn |
| TurnProtocol.MarkExpiredKeepsInv | services/provider-gateway/src/postgres_store.rs:90-104 | expiring a completed row, by any caller, takes nothing from anybody |
| TurnProtocol.PersistKeepsInv | services/provider-gateway/src/postgres_store.rs:418-507 | a final update, lost or not acknowledged or not, keeps every turn's record truthful |
| TurnProtocol.CancelKeepsInv | services/provider-gateway/src/lib.rs:1082-1133 | dropping a request at any point keeps the invariant |
| TurnProtocol.RestartKeepsInv | services/provider-gateway/src/lib.rs:905-935 | losing an instance's memory and its requests keeps the invariant |
| TurnProtocol.StepAdvancesRows | services/provider-gateway/src/postgres_store.rs:418-507 | one step moves a row only from in progress to completed or failed, or from completed to expired, with its hash fixed |
| TurnProtocol.RowsEvolve | services/provider-gateway/src/postgres_store.rs:418-507 | from any reachable state on, no row disappears, changes its hash or has its final answer rewritten |
| TurnProtocol.SqliteRefinesPostgres | services/provider-gateway/src/storage.rs:831-900 | the unguarded SQLite updates take every run through exactly the states of the guarded PostgreSQL ones |
| TurnProtocol.GuardMattersExactlyOffProtocol | services/provider-gateway/src/storage.rs:831-889 | applied to an arbitrary row the two completions agree exactly when the row is in progress or already holds that very result |
| TurnProtocol.FailuresAgreeExactly | services/provider-gateway/src/storage.rs:891-900 | applied to an arbitrary row the two failure updates agree exactly when it is in progress without an expiry or already holds that very failure |
| TurnProtocol.CompletedTurnIsReplayed | services/provider-gateway/src/postgres_store.rs:82-121 | a later caller with the same hash gets exactly the executed response within the window, and after it the result is erased and refused |
| Leases.LeaseStore.Acquire | services/provider-gateway/src/postgres_store.rs:345-384 | granted exactly when fewer unexpired rows than the limit remain in the scope; the expired ones are gone and the new row is the only addition |
| Leases.LeaseStore.Release | services/provider-gateway/src/postgres_store.rs:386-394 | exactly the row of the lease id is removed |
| Leases.UndisturbedAcquisition | services/provider-gateway/src/postgres_store.rs:345-384 | the four statements of the interleaved transaction, undisturbed, grant exactly when fewer unexpired rows than the limit are there, leave exactly the unexpired rows and the new one, and free the lock |
| Leases.ReleasesItsOwnLease | services/provider-gateway/src/postgres_store.rs:386-394 | a turn's release removes exactly its own row |
| Leases.LockedScopesWait | services/provider-gateway/src/lib.rs:1585-1619 | a transaction begins exactly under a limit above zero, with the lock of its scope free, and once in an execution |
| Leases.CrashRollsBack | services/provider-gateway/src/postgres_store.rs:345-384 | a process that ends loses exactly its own open transactions and their locks, grants nothing and leaves every row |
| Leases.TurnsRunAsBefore | services/provider-gateway/src/lib.rs:1585 | where no limit is configured every run of turns is exactly the run of the turn protocol |
| Leases.ScopeNeverExceedsItsLimit | services/provider-gateway/src/postgres_store.rs:345-394 | for every interleaving and every hash function behind the advisory lock, a scope never holds more rows than the largest limit asked for it |
| Leases.InsertNeverConflicts | services/provider-gateway/src/postgres_store.rs:372-383 | at every INSERT the lease id is absent: the ON CONFLICT branch never fires, because a turn executes at most once |
| Leases.GrantedLeaseIsOwned | services/provider-gateway/src/postgres_store.rs:345-394 | a granted lease keeps its own row, scope and expiry until released or purged after its expiry, and no two grants share a row |
| Leases.NoRowBeforeGrant | services/provider-gateway/src/lib.rs:1604-1650 | an executing turn that has not acquired its lease has no row |
| Leases.CommitKeepsBound | services/provider-gateway/src/postgres_store.rs:345-384 | the count made under the lock still bounds the rows when the INSERT commits, whatever was released in between |
| Leases.StepKeepsInv | services/provider-gateway/src/postgres_store.rs:345-394 | every statement, release, turn step and crash keeps the lease invariant |
| Leases.RunKeepsInv | services/provider-gateway/src/postgres_store.rs:345-394 | the lease invariant holds in every state of every run |
| Leases.RestartKeepsInv | services/provider-gateway/src/postgres_store.rs:345-394 | a crash rolls open transactions back and frees their locks without losing the invariant |
| ScopeKeys.KeyIdentifiesTheProject | services/provider-gateway/src/lib.rs:1604-1607 | under one policy revision different workspaces or projects never share a scope key |
| ScopeKeys.PoliciesShareKeysExactlyWhenNested | services/provider-gateway/src/lib.rs:1604-1607 | two different policy revisions can share a scope key exactly when one id begins with the other's id, revision and a workspace name joined by colons |
| ScopeKeys.ColonFreeIdsAreSafe | services/provider-gateway/src/lib.rs:1604-1607 | policies whose ids have no colon never share a scope key |
| ScopeKeys.NestedExample | services/provider-gateway/src/lib.rs:1604-1607 | two concrete policies and projects with the same scope key |
| ScopeKeys.DecimalReadsBack | services/provider-gateway/src/lib.rs:1604-1607 | the decimal digits of a revision read back as the revision |
| Quota.QuotaStore.ReserveTokens | services/provider-gateway/src/postgres_store.rs:318-343 | the conditional upsert as a whole: new usage, grant and the 64-bit storage errors |
| Quota.QuotaStore.SettleUsage | services/provider-gateway/src/postgres_store.rs:396-416 | the settlement update as a whole: clamp, missing row and the 64-bit storage errors |
| Quota.UsageIsConserved | services/provider-gateway/src/lib.rs:1543-1762 | after any history the stored usage of a period and project is the settled actuals plus the outstanding reservations |
| Quota.ClampNeverActs | services/provider-gateway/src/postgres_store.rs:396-416 | settling any open reservation never reaches the clamp at zero |
| Quota.GrantedExactlyWithinLimit | services/provider-gateway/src/postgres_store.rs:318-343 | a reservation is granted exactly when settled plus outstanding plus requested fits the limit |
| Quota.ReserveFailsExactly | services/provider-gateway/src/postgres_store.rs:318-343 | a reservation fails exactly on numbers, or a sum with the recorded usage, beyond 64 bits |
| Quota.SettlementSucceedsExactly | services/provider-gateway/src/postgres_store.rs:396-416 | settling an open reservation takes effect exactly if the sum fits 64 bits: the entry is settled and the usage has the actual tokens for the reserved ones |
| Quota.SettleExactly | services/provider-gateway/src/postgres_store.rs:396-416 | on any table: when a settlement fails, and what it leaves, never less than zero |
| Quota.NothingReservedNothingSettled | services/provider-gateway/src/lib.rs:1660-1689 | a reservation of zero is settled as zero without storage |
| Quota.UsageBoundedByLimitAndOverrun | services/provider-gateway/src/lib.rs:1543-1762 | under a constant limit usage exceeds it by at most what settled turns used beyond their reservations |
| Quota.SettlingOneEntry | services/provider-gateway/src/lib.rs:1660-1689 | one settlement moves exactly its tokens from outstanding to settled |
| Quota.RunKeepsBalance | services/provider-gateway/src/lib.rs:1543-1762 | every sequence of reservations and settlements keeps the ledger balanced |
| TurnExecution.Turn.Execute | services/provider-gateway/src/lib.rs:1385-1493 | a provider is reached exactly with a compatible resource and quota and lease granted; every other guard refuses with its own error and leaves its exact books; a turn that ran concludes with one settlement statement, a walk along the compatible list and a truthful summary, under every storage fault; a reservation stays open, and a lease held, exactly under the stated faults |
| TurnExecution.Turn.OnQuota | services/provider-gateway/src/lib.rs:1415-1493 | on compatible resources the turn runs exactly if quota and lease are granted, and concludes or is refused with exact books |
| TurnExecution.Turn.Switching | services/provider-gateway/src/lib.rs:1419-1493 | the loop tries a prefix of the compatible list, ends inside the loop exactly where the turn may not move on, and issues exactly one settlement on every path |
| TurnExecution.Turn.Deliver | services/provider-gateway/src/lib.rs:1427-1454 | a delivered call answers exactly if its success is recorded and settlement and release work; it settles what was used, or zero where the success could not be recorded |
| TurnExecution.Turn.AfterFailure | services/provider-gateway/src/lib.rs:1455-1481 | the turn moves to the next resource exactly if the failure was recorded and the policy allows the switch; otherwise it settles zero and ends with its own error unless a storage operation failed |
| TurnExecution.Turn.RecordFailure | services/provider-gateway/src/lib.rs:1456-1464 | a retryable failure is counted against the resource's circuit, any other is not, and the answer says whether that worked |
| TurnExecution.Turn.EndFailed | services/provider-gateway/src/lib.rs:1478-1479 | a turn that ends with a failed call settles zero and reports the call's error unless a storage operation failed |
| TurnExecution.Turn.MoveOn | services/provider-gateway/src/lib.rs:1473-1476 | the switch goes to the next resource and remembers where from and why |
| TurnExecution.Turn.AskCircuits | services/provider-gateway/src/lib.rs:1402-1407 | every circuit can be read, or the turn is refused; kept are exactly the positions whose circuit answers true, in ascending order |
| TurnExecution.OnlyOneConclusion | services/provider-gateway/src/lib.rs:1417-1493 | the contracts leave no choice: environment, list and grants determine where a turn ends, its books and its answer |
| TurnExecution.DeliveredTurnsSucceed | services/provider-gateway/src/lib.rs:1426-1480 | on storage that does not fail a turn that reached a provider answers exactly when its last call delivered, and settles what it used |
| TurnExecution.Turn.TryNext | services/provider-gateway/src/lib.rs:1421-1425 | one more resource of the compatible list is called and recorded |
| TurnExecution.Turn.AcquireQuota | services/provider-gateway/src/lib.rs:1543-1658 | success exactly when quota and lease are granted, each refusal exactly under its own condition; a refused turn's nonzero reservation stays open exactly if the lease statement or the settlement fails |
| TurnExecution.Turn.SettleTokens | services/provider-gateway/src/lib.rs:1715-1746 | a nonzero reservation gets one settlement statement, which counts exactly if it works, and a zero one none |
| TurnExecution.Turn.SettleQuota | services/provider-gateway/src/lib.rs:1660-1713 | one settlement statement, and one release statement unless the settlement failed; it succeeds exactly if the statements it needs do |
| TurnExecution.ConcludedLeaves | services/provider-gateway/src/lib.rs:1660-1713 | what a concluded turn leaves behind: its reservation stays open exactly if its settlement fails, its lease stays held exactly if a needed settlement or the release fails |
| TurnExecution.Turn.CallResource | services/provider-gateway/src/lib.rs:1910-1963 | the retry loop makes exactly the attempts, and has exactly the outcome, of the recursive retry specification |
| TurnExecution.Retry | services/provider-gateway/src/lib.rs:1910-1963 | every attempt before the last failed retryably with time and attempts left, the last did not, and its outcome is the call's unless only time was missing |
| TurnExecution.CallsAreTriedInOrder | services/provider-gateway/src/lib.rs:1873-1963 | a call is refused by the bulkhead or the preflight checks without an attempt, or made of exactly as many attempts as it takes to deliver, to fail for good, or to run out of attempts or time |
| TurnExecution.OnlyUpstreamTroubleIsRetried | services/provider-gateway/src/lib.rs:598-607 | exactly the four retryable upstream codes are retried and counted, none of the gateway's own refusals |
| TurnExecution.Filtered | services/provider-gateway/src/lib.rs:1386-1392 | exactly the enabled resources with the required capabilities, in their order and as often as they are listed |
| TurnExecution.TrailIsBounded | services/provider-gateway/src/lib.rs:1417-1493 | at most the configured number of switches, each to the next resource for an allowed reason, and attempts within the passed resources' maxima |
| TurnExecution.GoesAsFarAsAllowed | services/provider-gateway/src/lib.rs:1417-1493 | a turn leaves every resource before the last tried one and not that one; switches, attempts and counted failures are those of its calls |
| TurnExecution.LeavesResourceExactly | services/provider-gateway/src/lib.rs:1455-1481 | a resource is left exactly after a failed call whose code is listed, with switches enabled and left, a next resource, and a recorded failure where one counts |
| TurnExecution.AttemptsAreBounded | services/provider-gateway/src/lib.rs:1910-1963 | upstream attempts of the whole turn never exceed the sum of the tried resources' maxima |
| Revisions.RevisionStore.FindCurrent | services/provider-gateway/src/postgres_store.rs:1141-1147 | the revision marked current, if any |
| Revisions.RevisionStore.FindLargest | services/provider-gateway/src/postgres_store.rs:886-892 | the largest stored revision of an id |
| Revisions.RevisionStore.SaveRevision | services/provider-gateway/src/postgres_store.rs:817-913 | a save transaction: the resulting table and number, or its error and no change |
| Revisions.RevisionStore.ActivateRevision | services/provider-gateway/src/postgres_store.rs:915-968 | an activation transaction: the resulting table, or its error and no change |
| Revisions.SaveIsCompareAndSwap | services/provider-gateway/src/postgres_store.rs:817-913 | a save succeeds exactly against the current revision; its number exceeds all earlier ones, it becomes current, and nothing else changes |
| Revisions.ActivateIsCompareAndSwap | services/provider-gateway/src/postgres_store.rs:915-968 | an activation succeeds exactly when the target exists and the expected revision is current; it moves only the mark |
| Revisions.NewRevisionIsLargest | services/provider-gateway/src/postgres_store.rs:1141-1160 | a new number is above every stored revision of its id |
| Revisions.NumbersFollowOn | services/provider-gateway/src/postgres_store.rs:817-913 | a new number is one, or one more than the largest stored revision of its id |
| Revisions.SaveRefusesWith | services/provider-gateway/src/postgres_store.rs:1149-1160 | a refused save reports a conflict exactly against another current revision, and otherwise exhausted numbers |
| Revisions.ActivateRefusesWith | services/provider-gateway/src/postgres_store.rs:915-968 | a refused activation reports numbers beyond 64 bits, then a missing target, then another current revision |
| Revisions.AppendingKeepsOneCurrent | services/provider-gateway/src/postgres_store.rs:832-851 | demoting and inserting leaves exactly one current revision per id |
| Revisions.CommitKeepsValid | services/provider-gateway/src/postgres_store.rs:817-968 | every save and activation keeps one current revision per id, and for resources current is largest |
| Revisions.HistoryIsKept | services/provider-gateway/src/storage.rs:1212-1352 | in every run each known id has one current revision and no stored content ever changes |
| Revisions.OnlyActivationRestores | services/provider-gateway/src/postgres_store.rs:915-968 | a stored revision that is not current becomes current again in a run only by being activated, and for resources never |
| Revisions.NoLostUpdate | services/provider-gateway/src/postgres_store.rs:1149-1160 | after a successful save against a revision a second save against the same one succeeds only if it was re-activated in between, and for resources never, so no save is overwritten unseen |
| ConfigurationCache.AcceptedReadIsTheDurableConfiguration | services/provider-gateway/src/lib.rs:4787-4832 | when the version before and after agree, the separately read tables are the durable configuration of that version, whatever was committed in between |
| ConfigurationCache.SnapshotIsCoherent | services/provider-gateway/src/lib.rs:4787-4832 | with one refresh at a time, in every run with crashes, failing reads and dropped requests, observed version equal to durable version implies the snapshot is the resolved durable configuration, start-up included |
| ConfigurationCache.OverlapLosesCoherence | services/provider-gateway/src/lib.rs:2374-2381 | from any state with two idle refreshes, a schedule of two overlapping refreshes and one write ends with the durable version announced for the older configuration |
| ConfigurationCache.OverlapIsReachable | services/provider-gateway/src/lib.rs:4787-4832 | that schedule runs from the empty store through a first start, for every configuration and every provider connection that makes a difference |
| ConfigurationCache.StartsCoherent | services/provider-gateway/src/lib.rs:880-928 | a first start on an empty store leaves exactly the configured rows and their resolved snapshot |
| ConfigurationCache.InitializedView | services/provider-gateway/src/postgres_store.rs:539-574 | an initialization of an empty store stores exactly the configured rows, all current, under the same version |
| ConfigurationCache.CommitBumpsOrKeeps | services/provider-gateway/src/postgres_store.rs:1108-1124 | every write but an initialization either raises the version by one or changes nothing |
| ConfigurationCache.WritesCompareAndSwap | services/provider-gateway/src/postgres_store.rs:618-660 | every write takes its effect, exactly the new current content under the next number and the next version, if and only if it is made against the current number within 64 bits, and else changes nothing |
| ConfigurationCache.StaleInstancesRefresh | services/provider-gateway/src/lib.rs:2374-2381 | an instance that looks for changes starts a refresh exactly if it is behind the durable version |
| ConfigurationCache.DisturbedReadsAreRepeated | services/provider-gateway/src/lib.rs:4787-4815 | an attempt that saw the version move is repeated up to the third and installs nothing |
| ConfigurationCache.UndisturbedRefreshCatchesUp | services/provider-gateway/src/lib.rs:4787-4832 | an undisturbed refresh installs and announces the stored configuration if it resolves, and else leaves the instance as it was |
| ConfigurationCache.DroppedRefreshesAreGone | services/provider-gateway/src/lib.rs:4787-4832 | a dropped refresh leaves service and store alone |
| ConfigurationCache.LaterStartsServeTheStore | services/provider-gateway/src/lib.rs:880-928 | a start on a store with rows serves what is stored, whatever it is configured with, and changes nothing |
| ConfigurationCache.StartsExactlyWhenConfigured | services/provider-gateway/src/lib.rs:880-903 | a start goes on exactly with resources and policies and, on an empty store, one row per id of both; otherwise the process ends and the store is as it was |
| ConfigurationCache.CommitKeepsStoreValid | services/provider-gateway/src/postgres_store.rs:539-574 | every write, initialization included, keeps both revision tables valid |
| ConfigurationCache.RunKeepsLoads | services/provider-gateway/src/lib.rs:4787-4815 | in every run, overlapping refreshes included, what a refresh has read so far is right for its version |
| ConfigurationCache.RunKeepsInv | services/provider-gateway/src/lib.rs:897-928 | in every run with serialised refreshes the snapshot and the announced version stay consistent, from the first read of the start-up on |
| TurnInput.AllHistoricalNames | services/provider-gateway/src/lib.rs:6309-6316 | every name a message mentions is in the list of historical names |
| TurnInput.HistoricalNamesAreMentioned | services/provider-gateway/src/lib.rs:6309-6316 | every historical name is mentioned by a message |
| TurnInput.MentionedByMessage | services/provider-gateway/src/lib.rs:6309-6316 | a message mentions exactly the names of its calls and its own tool name |
| ToolAliases.AliasIsLegal | services/provider-gateway/src/lib.rs:6376-6408 | for every name and every digest an alias is a legal function name of at most 63 characters |
| ToolAliases.PrefixLiesBetweenUnderscores | services/provider-gateway/src/lib.rs:6380-6408 | the prefix is the part of the first 45 sanitized characters between its outer underscores, or a fixed word where there is none |
| ToolAliases.LegalNamesStay | services/provider-gateway/src/lib.rs:6380-6408 | a short name of legal characters without outer underscores is its own prefix |
| ToolAliases.AliasesAgreeExactly | services/provider-gateway/src/lib.rs:6376-6408 | two names share an alias exactly if they share the prefix and the first sixteen digits of the digest |
| ToolAliases.AddTools | services/provider-gateway/src/lib.rs:6282-6308 | both maps of the offered tools, or a refusal exactly when two different tools share an alias |
| ToolAliases.FromRequest | services/provider-gateway/src/lib.rs:6282-6338 | the maps exist exactly when aliases are injective on tools and history; the inverse maps exactly these aliases back |
| ToolAliases.FindOnlyCandidate | services/provider-gateway/src/lib.rs:6365-6371 | the fuzzy lookup finds a name exactly when one candidate matches, whatever the order of iteration |
| ToolAliases.LookUpRuntimeName | services/provider-gateway/src/lib.rs:6346-6373 | exact alias, then the tool's own name, then the only fuzzy match |
| ToolAliases.OwnNameIsUnderstood | services/provider-gateway/src/lib.rs:6346-6354 | a tool's own name is understood exactly unless it is the alias of another name |
| ToolAliases.BarePrefixIsUnderstood | services/provider-gateway/src/lib.rs:6351-6372 | a name without a double underscore that matches no map is understood exactly as the only tool with that prefix |
| ToolAliases.EmittedNamesReadBack | services/provider-gateway/src/lib.rs:6340-6373 | names emitted for tools, past calls and orphans read back as the original, and different names are emitted differently |
| ToolAliases.ReadableExactlyWithoutClash | services/provider-gateway/src/lib.rs:6282-6338 | refusing a request is necessary: a map with which everything emitted reads back exists exactly when no two names share an alias |
| ToolAliases.WrongDigestIsForgiven | services/provider-gateway/src/lib.rs:6351-6372 | an alias with a wrong digest is understood exactly when no other tool has its prefix and the prefix has no double underscore |
| ToolAliases.SplitBehindPrefix | services/provider-gateway/src/lib.rs:6355-6364 | the split at the first double underscore gives prefix and digest back unless the prefix has a double underscore of its own |
| ToolAliases.SplitOnce | services/provider-gateway/src/lib.rs:6355-6364 | the split is at the first double underscore, and there is none exactly if the text has no double underscore |
| ToolAliases.ReadNamesBelongToRequest | services/provider-gateway/src/lib.rs:6346-6373 | whatever a provider sends, a name that reads back is a tool or historical name of the request |
| ToolHistory.NormalizeMessages | services/provider-gateway/src/lib.rs:5973-6111 | the loop computes the normalization, or the error of the first message that is refused |
| ToolHistory.NormalizeNext | services/provider-gateway/src/lib.rs:5982-6108 | one turn of the loop: what it pushes and which ids stay pending |
| ToolHistory.CollectOrphans | services/provider-gateway/src/lib.rs:6029-6061 | the inner loop collects the whole run of tool results, or the first missing id or name |
| ToolHistory.LookForOrphans | services/provider-gateway/src/lib.rs:6028-6062 | orphans are collected exactly for a tool result whose id is not pending |
| ToolHistory.EveryResultAnswersItsDeclaration | services/provider-gateway/src/lib.rs:5973-6111 | in every successful output each tool result answers a call of the nearest preceding declaration, with only other results and image-carrying user messages between, so no call is answered twice |
| ToolHistory.ErasureGivesTheInputBack | services/provider-gateway/src/lib.rs:5973-6111 | the output without what was synthesized is the system prompt and then each input message's own conversion, one to one and in order; only declarations and image messages are synthesized |
| ToolHistory.NamedHistoriesAreAccepted | services/provider-gateway/src/lib.rs:6023-6061 | if every tool result carries id and name, the history is accepted exactly when each message converts on its own |
| ToolHistory.DeclaredNamesReadBack | services/provider-gateway/src/lib.rs:5996-6061 | every name in an emitted declaration reads back through the alias map to a name of the history |
| ToolHistory.ImagesAreKept | services/provider-gateway/src/lib.rs:5991-6107 | an accepted message that declares tool calls keeps none of its content; every other one keeps its images, a user message in place and the others in a user message with the same blocks, which exactly images cause |
| ToolHistory.ImagesAreLostExactlyBesideCalls | services/provider-gateway/src/lib.rs:5991-6107 | the images of an accepted message are lost exactly if it declares tool calls |
| ToolHistory.BlocksConvertOneByOne | services/provider-gateway/src/lib.rs:6113-6153 | content blocks are converted one by one, images to images with their type and data, everything else to its own text |
| ToolHistory.BlocksConvertExactly | services/provider-gateway/src/lib.rs:6113-6153 | exactly text, JSON and resolved image blocks convert; otherwise the first other block decides the refusal |
| ToolHistory.CallsConvertOneByOne | services/provider-gateway/src/lib.rs:5996-6018 | calls convert exactly if all have an id and a name, one by one to their own id, the emitted form of their name, and their input or an empty object |
| ToolHistory.FirstBadCallRefuses | services/provider-gateway/src/lib.rs:5996-6018 | the first call without an id or a name decides the refusal |
| ToolHistory.ConvertsExactly | services/provider-gateway/src/lib.rs:5982-6108 | which messages convert on their own |
| ToolHistory.ContentIsTakenFrom | services/provider-gateway/src/lib.rs:6084-6098 | a message is read from its content, else its text, else a system message of some kind from its whole JSON |
| ToolHistory.RefusesWith | services/provider-gateway/src/lib.rs:5984-6098 | the refusals of a message without a known role, of a result without an id, and of a message without content |
| ToolHistory.ConvertsTo | services/provider-gateway/src/lib.rs:5991-6107 | a converted message is its calls, the text of its result under its id, its blocks, or its text under its role |
| ToolHistory.TextOfBlock | services/provider-gateway/src/lib.rs:6163-6190 | what one block contributes to a text |
| ToolHistory.TextsOfBlocks | services/provider-gateway/src/lib.rs:6163-6190 | the texts of blocks come in the order of the blocks |
| ToolHistory.JoinedByLines | services/provider-gateway/src/lib.rs:6163-6190 | texts are joined one to a line |
| ToolHistory.OrphansCoverTheRun | services/provider-gateway/src/lib.rs:6029-6061 | a synthesized declaration covers exactly the ids of the run of tool results it precedes |
| ToolHistory.OrphansAreTheRun | services/provider-gateway/src/lib.rs:6029-6061 | the synthesized declaration has exactly the results of the run in order, each under its id and emitted name, and exists exactly if each has both |
| ToolHistory.FirstBadOrphanRefuses | services/provider-gateway/src/lib.rs:6029-6061 | the first result of the run without an id or a name decides the refusal |
| ToolHistory.DeclaredHistoriesNeedNoRepair | services/provider-gateway/src/lib.rs:5973-6111 | a history whose results each answer, once, a call of the nearest assistant message with only results between is accepted exactly if each message converts, tool names or not, and is output without repairs; every other accepted history is repaired |
| ToolHistory.StepIsSound | services/provider-gateway/src/lib.rs:5982-6108 | one turn keeps every emitted result answered and every pending id of the coming run open |
| ProviderResponse.Parse | services/provider-gateway/src/lib.rs:6494-6732 | a response is accepted exactly when it is complete and well formed; then it has only offered tools, distinct ids and text or calls, with the reported usage and reason; an unknown tool and excess size are reported exactly where they are the fault |
| ProviderResponse.ParseCalls | services/provider-gateway/src/lib.rs:6524-6601 | all calls read back through the alias map, or the error of the first that cannot be read |
| ProviderResponse.CallsAreReadOneByOne | services/provider-gateway/src/lib.rs:6524-6601 | calls are read exactly if nothing is in the way of any, one by one to their own id, runtime name and parsed arguments |
| ProviderResponse.FirstObstacleIsReported | services/provider-gateway/src/lib.rs:6524-6601 | otherwise the first obstacle of the first such call is the error |
| ProviderResponse.HasDuplicateIds | services/provider-gateway/src/lib.rs:6603-6622 | true exactly when two calls share an id |
| ProviderResponse.ReadCallsBelongToRequest | services/provider-gateway/src/lib.rs:6494-6732 | read calls name tools of the request or its history, and the recovery happens only for a historical tool that is not offered |
| Selection.WeightedCandidateId | services/provider-gateway/src/lib.rs:5438-5460 | the bucket loop returns the candidate whose share contains the bucket and never runs off the end when there is weight |
| Selection.DigestFallsIntoShare | services/provider-gateway/src/lib.rs:5438-5460 | the pick is the candidate into whose share the digest falls, counted in rounds of the total weight |
| Selection.PickExactlyWithWeight | services/provider-gateway/src/lib.rs:5438-5460 | there is a pick exactly if there is any weight |
| Selection.ExactlyItsWeight | services/provider-gateway/src/lib.rs:5438-5460 | of the bucket values below the total weight exactly as many pick a candidate as its weight says |
| Selection.HeadIsLowest | services/provider-gateway/src/lib.rs:5407-5436 | the list is empty exactly when no candidate is known, and otherwise starts with one of the lowest priority number |
| Selection.PickThenFallbacks | services/provider-gateway/src/lib.rs:5407-5436 | the pick comes first if any candidate can be picked, then everything else in the stable priority order |
| Selection.WithoutConcat | services/provider-gateway/src/lib.rs:5427-5434 | the fallbacks keep their order without the pick |
| Selection.TailIsTheStableSort | services/provider-gateway/src/lib.rs:5407-5436 | with unique ids the list is a permutation of the known candidates: a head, then their stable priority sort with the head removed |
| Selection.PermutationExactlyWithoutDuplicatePick | services/provider-gateway/src/lib.rs:5407-5436 | without that assumption the list is a permutation exactly when the picked id is listed once |
| Selection.AlwaysAPermutationExactlyWithoutDuplicates | services/provider-gateway/src/lib.rs:5407-5436 | the list is a permutation for every selection key exactly if each candidate some key picks (known, of the first priority, with a weight) is listed once |
| Selection.StableSortIsStable | services/provider-gateway/src/lib.rs:5412-5413 | the sort is sorted and keeps the order of candidates of equal priority |
| Selection.SortCommutesWithKnown | services/provider-gateway/src/lib.rs:5427-5434 | dropping unknown candidates before or after the sort is the same |
| Circuit.HealthStore.ResourceCircuitAllows | services/provider-gateway/src/postgres_store.rs:187-228 | the transaction's row and its answer |
| Circuit.HealthStore.RecordResourceSuccess | services/provider-gateway/src/postgres_store.rs:230-248 | the row is reset and no other row changes |
| Circuit.HealthStore.RecordResourceRetryableFailure | services/provider-gateway/src/postgres_store.rs:250-296 | the row after one more failure and whether it opened the circuit; no other row changes |
| Circuit.RowDescribesHistory | services/provider-gateway/src/postgres_store.rs:187-296 | after any calls the row holds the saturating failure count since the last success, closed below three, open exactly while no later question was admitted |
| Circuit.DeniesExactlyWhileTripped | services/provider-gateway/src/postgres_store.rs:187-228 | a question is refused exactly when three failures came since the last success, nothing was admitted since the last, and it is less than 30 seconds old, for this resource revision alone |
| Circuit.OpensAtTheThirdFailure | services/provider-gateway/src/postgres_store.rs:250-296 | a failure report opens the circuit exactly at the third failure or later since the last success |
| Circuit.SqliteKeepsTheSameCircuit | services/provider-gateway/src/storage.rs:639-722 | over every history both stores keep the same circuit exactly unless three failures opened it and the last came in the last thirty seconds a 64-bit time can name |
| Frames.EncodedFrameDecodes | infra/agent-sandbox/base/workspace-channel-server.js:756-772 | an encoded frame followed by any bytes decodes to opcode, payload and those bytes, in all three length forms up to 2^53-1, and beyond is refused |
| Frames.ClientFrameDecodes | infra/agent-sandbox/base/workspace-channel-server.js:786-833 | a client's masked frame decodes to its payload for every mask |
| Frames.TryDecodeFrame | infra/agent-sandbox/base/workspace-channel-server.js:786-833 | the decoder as written, with the payload unmasked in place, computes the decoding specification |
| Frames.ReadLength | infra/agent-sandbox/base/workspace-channel-server.js:786-811 | the header part of the decoder: length, mask flag and offset |
| Frames.UnmaskInPlace | infra/agent-sandbox/base/workspace-channel-server.js:821-826 | every payload byte is replaced by its exclusive or with the mask byte at its position modulo four |
| Frames.MaskedTwice | infra/agent-sandbox/base/workspace-channel-server.js:821-826 | masking twice with the same mask is the identity |
| Frames.XorTwice | infra/agent-sandbox/base/workspace-channel-server.js:824-824 | exclusive or with the same byte twice is the identity |
| Frames.XorIsBitwise | infra/agent-sandbox/base/workspace-channel-server.js:824-824 | a bit of the exclusive or is set exactly where the two bytes differ |
| Frames.BitsDetermine | infra/agent-sandbox/base/workspace-channel-server.js:824-824 | eight bits determine a byte |
| Frames.MaskedWithZeros | infra/agent-sandbox/base/workspace-channel-server.js:821-826 | a mask of zeros hides nothing |
| Frames.StandardHello | infra/agent-sandbox/base/workspace-channel-server.js:786-833 | the examples of RFC 6455, section 5.7: the text Hello unmasked and masked |
| Frames.StandardLengths | infra/agent-sandbox/base/workspace-channel-server.js:756-772 | the examples of RFC 6455, section 5.7: binary messages of 256 bytes and 64 KiB |
| Frames.BigEndianRoundTrip | infra/agent-sandbox/base/workspace-channel-server.js:760-770 | a length written in k big-endian bytes reads back |
| Frames.FirstByteCountsMost | infra/agent-sandbox/base/workspace-channel-server.js:786-805 | network order: the first byte of a length counts most |
| Frames.DecodeIsStable | infra/agent-sandbox/base/workspace-channel-server.js:786-833 | bytes that arrive later change neither a decoded frame nor a refusal, and every frame consumes at least two bytes |
| Frames.Channel.OnData | infra/agent-sandbox/base/workspace-channel-server.js:1056-1080 | one data event drains exactly what the buffered bytes and the chunk hold; the loop ends |
| Frames.DrainInTwoSteps | infra/agent-sandbox/base/workspace-channel-server.js:1055-1080 | draining a buffer and then more is draining both at once, except behind a close or a refusal |
| Frames.ChunkingDoesNotMatter | infra/agent-sandbox/base/workspace-channel-server.js:1055-1080 | however a byte stream is cut into data events, the events up to the first close or refusal are those of decoding it at once |
| Frames.MessagesArriveInOrder | infra/agent-sandbox/base/workspace-channel-server.js:1055-1080 | end to end: however a client's masked messages are cut, the requests up to its first close are its text and binary payloads in order |
| Frames.RefusalIsForever | infra/agent-sandbox/base/workspace-channel-server.js:1056-1080 | after a length that is too large every further chunk only repeats the refusal |
| Frames.CutsMatterExactly | infra/agent-sandbox/base/workspace-channel-server.js:1055-1080 | all ways of cutting a byte stream into data events give the same events exactly if no text, binary or close frame and no refused header follows the first close, and nothing follows the first refused header |
| Frames.ChunkingMattersAfterClose | infra/agent-sandbox/base/workspace-channel-server.js:1061-1066 | such a stream: a close and a text give different events in one chunk and in two |
| ReplayGuard.Server.constructor | infra/agent-sandbox/base/workspace-channel-server.js:63-75 | start-up leaves in memory what reading the log back record by record gives |
| ReplayGuard.Server.Authenticate | infra/agent-sandbox/base/workspace-channel-server.js:202-211 | purge, check, remember and log as one step, with the outcome of a failing write |
| ReplayGuard.Server.Purge | infra/agent-sandbox/base/workspace-channel-server.js:202-204 | exactly the expired ids are dropped, in order |
| ReplayGuard.Server.Persist | infra/agent-sandbox/base/workspace-channel-server.js:77-93 | append, count and compact, with either write failing |
| ReplayGuard.AcceptedAtMostOnce | infra/agent-sandbox/base/workspace-channel-server.js:58-95 | over every run with restarts, compactions and failed writes on a clock without a peak, such as one that never goes back, a token is accepted at most once and its id not again before it expired |
| ReplayGuard.AcceptedExactlyUnlessInUse | infra/agent-sandbox/base/workspace-channel-server.js:202-211 | where no write fails and the clock has no peak, a token is let in exactly if it is unexpired and no earlier accepted token of its id is |
| ReplayGuard.AcceptsExactlyFreshIds | infra/agent-sandbox/base/workspace-channel-server.js:202-211 | in every run a presentation whose writes work is let in exactly if it is unexpired and memory holds no unexpired record of its id |
| ReplayGuard.FreshIdsAreLogged | infra/agent-sandbox/base/workspace-channel-server.js:77-93 | what a fresh id leaves in memory and log, with every 256th write compacting, and when a failing write refuses it |
| ReplayGuard.PutKeepsPlaces | infra/agent-sandbox/base/workspace-channel-server.js:63-75 | a present key keeps its place and everything else too, a new one comes last |
| ReplayGuard.UnexpiredConcat | infra/agent-sandbox/base/workspace-channel-server.js:202-204 | the purge looks at each record for itself and keeps the order |
| ReplayGuard.AcceptedAgainOnlyAfterExpiry | infra/agent-sandbox/base/workspace-channel-server.js:58-95 | on any clock: between two acceptances of one token id the clock has read the expiry of the first, or later |
| ReplayGuard.HeldUntilExpiry | infra/agent-sandbox/base/workspace-channel-server.js:58-95 | on any clock: an accepted id stays in memory and stays what the log gives back, until the clock reads its expiry |
| ReplayGuard.SomeTokenGetsInTwiceExactlyAfterAPeak | infra/agent-sandbox/base/workspace-channel-server.js:202-211 | for given clock readings some run accepts a token twice exactly if a reading is later than one before it and one after it |
| ReplayGuard.TokenGetsInTwiceExactlyOverItsExpiry | infra/agent-sandbox/base/workspace-channel-server.js:202-211 | for given clock readings some run accepts this token twice exactly if they reach its expiry after one reading and before another that do not |
| ReplayGuard.ReloadGivesTheUnexpiredMap | infra/agent-sandbox/base/workspace-channel-server.js:63-95 | on a clock that never goes back, reading the log back gives exactly the unexpired part of the map in its order, unless an append failed, and then a part of it |
| ReplayGuard.LogIsIncreasing | infra/agent-sandbox/base/workspace-channel-server.js:77-93 | on a clock that never goes back, records of one hash in the log have strictly increasing expiries |
| ReplayGuard.RunKeepsInv | infra/agent-sandbox/base/workspace-channel-server.js:58-95 | memory and log stay consistent over every run on a clock that never goes back |
| ReplayGuard.LoadIsUnexpired | infra/agent-sandbox/base/workspace-channel-server.js:63-75 | where unexpired records have distinct hashes, reading back is filtering |
| ArchiveWalk.CollectArchiveFiles | infra/agent-sandbox/base/workspace-channel-server.js:870-910 | the stack walk ends, succeeds exactly when there is no symbolic link and all files to export are within the limits, and then lists them sorted by path with their total size |
| ArchiveWalk.VisitDirectory | infra/agent-sandbox/base/workspace-channel-server.js:876-904 | one directory: all its files are listed and directories pushed, and a refusal is justified by the whole tree |
| ArchiveWalk.VisitEntry | infra/agent-sandbox/base/workspace-channel-server.js:880-903 | one entry: listed, pushed, passed over or refused, with what was listed and what is left always making up the whole tree |
| ArchiveWalk.OnlyOneSortedList | infra/agent-sandbox/base/workspace-channel-server.js:906-909 | with names as a file system has them the result is the one sorted list of the recursively collected files |
| ArchiveWalk.SelectedAreTheFiles | infra/agent-sandbox/base/workspace-channel-server.js:880-888 | the selected files are exactly the files names lead to, with their size and digest, at paths that are not excluded |
| ArchiveWalk.PathIsSlashed | infra/agent-sandbox/base/workspace-channel-server.js:880-882 | an exported path is the names on the way joined by slashes |
| ArchiveWalk.UncleanHasALink | infra/agent-sandbox/base/workspace-channel-server.js:883-883 | the tree is refused for links exactly if names lead to a symbolic link, excluded or not |
| ArchiveWalk.ListedOnce | infra/agent-sandbox/base/workspace-channel-server.js:897-903 | no file is listed twice |
| ByteOrder.LeqIsLexicographic | infra/agent-sandbox/base/workspace-channel-server.js:877-880 | the order of names: a prefix first, otherwise by the first differing byte |
| ArchiveWalk.PathsDetermine | infra/agent-sandbox/base/workspace-channel-server.js:880-882 | two exported files with the same path are the same file |
| ArchiveWalk.SortedEntries | infra/agent-sandbox/base/workspace-channel-server.js:877-880 | the order in which a directory is visited changes neither its files nor its symbolic links nor the work left |
| ArchiveWalk.SameLimits | infra/agent-sandbox/base/workspace-channel-server.js:888-895 | the limits do not depend on the order of the files |
| ArchiveWalk.TooMuch | infra/agent-sandbox/base/workspace-channel-server.js:888-895 | a file that breaks a running limit breaks it for the whole tree |
| FailureHook.Hook.Apply | services/runtime/src/agent_hooks.rs:442-503 | the new streak, and guidance and partial end exactly from the second and third repetition |
| FailureHook.FirstFingerprint | services/runtime/src/agent_hooks.rs:442-458 | a batch counts for its first recoverable failure, and for none exactly if it has none |
| FailureHook.AttemptsAreTheTrailingRun | services/runtime/src/agent_hooks.rs:442-503 | after any history the stored attempts are the length of the trailing run of batches with the same fingerprint |
| FailureHook.PartialExactlyAfterThree | services/runtime/src/agent_hooks.rs:490-498 | the run ends partially exactly when the last three batches failed in the same way |

## Left out

- HTTP handlers, routing, authorization headers, admin wrappers, metrics, audit rows, retry-after hints, request ids on errors and the fetch of visual artifacts: plumbing around the modelled state.
- Cryptography: sealing a response is an inverse pair with a nonce, digests are arbitrary functions or arbitrary numbers, signatures and TLS are not modelled.
- SQL text and JSON serialization: tables are maps, a statement or locked transaction is one atomic step, JSON values are carried as text and codecs are parameters.
- Execution snapshots written beside a completed turn: they are not read by the protocol.
- SQLite interleavings between processes: its lease and save sequences are not transactions; its statements are covered where they run one store at a time.
- Integer widths: the 64-bit limits of token counts, revisions and versions and the saturating sums are modelled; `u32` retry, switch and streak counters are not.
- Circuit: sums are those of a build without overflow checks; a checked build stops at the overflow instead.
- Frames.EncodedFrameDecodes: payloads of 2^64 bytes and more, which no buffer can hold, are excluded.
- Frames: a data event carries at least one byte, as a socket delivers it; responses are written asynchronously and their order is not modelled; text payloads are kept as bytes, without UTF-8 decoding.
- ReplayGuard: writes to the log are atomic, and the log holds only records this server wrote (foreign or damaged lines are not modelled).
- ArchiveWalk: the tree does not change during the walk; reading and hashing files is a field of the tree.
- TurnExecution: capability matching is one flag per resource; credential, DNS and network checks are one preflight answer per call; bulkheads and deadlines are answers of the environment; a storage statement that fails has had no effect.
- Selection: how evenly the digest fills the buckets is not modelled, only that each candidate owns exactly its weight of them.
- ConfigurationCache: resolving connections and validating is one partial function of what was loaded; secrets and the file-based configuration are not modelled.
- ToolHistory: the request's tool list and model parameters around the messages are not modelled. The token estimate, and the policy and resource matching that precede a turn, are inputs.
- FailureHook: fingerprints are given; path normalization, guidance texts and tool tables are not modelled, nor what the caller does after a partial end.
- Managed processes, the fixture gateway, the preview server, the web application and the shared packages.
