# Verification of the SIEM/SOAR response protocols

The back end keeps its response state in tables that several workers, sweepers, operators and request handlers change
through short guarded transactions. This project models those tables and transactions and proves what holds over every
finite run of them, for any number of workers, any interleaving and any clock that does not go back.

How it is organised:

- Each store is a class whose fields are its tables; its methods do what the source's functions do, statement by
  statement, and each is proved equal to a specification function on the table's value. `PlaybookStore`, `Approvals`,
  `ResponseQueue`, `ResponseCommandService`, `NotificationDelivery`, `InternetNoise`, `ResponseOutcomes`.
- Each `...Protocol` module makes those specification functions the steps of a state machine and proves its invariant:
  every step keeps it, so every run does. `...Theorems` modules, `PlaybookBlankWrites` and the last part of the other files draw the
  conclusions.
- Each `...Effects` module says what the calls leave without naming the specification functions: first value by value for
  one call, with the source's own constants, then over whole runs, reading a row's present content off the steps that reached it
  (`PlaybookEffects`, `ApprovalEffects`, `QueueEffects`, `RegistryEffects`, `NoiseEffects`, `OutcomeEffects`,
  `AttackerContextEffects`; `PfsenseExactness` does it for the log adapter).
- `EvidencePagination`, `ObservationWindows`, `IdempotencyKeys` and `PfsenseFilterlog`/`PfsenseAgreement` hold the
  algorithmic parts. `Common`, `Text` and `ActionVocabulary` are shared.

Conventions. One committed call is one step. `FOR UPDATE SKIP LOCKED` is a set of locked rows: a claim or sweep that locks
and commits in two statements is two steps of the lease protocol, with other steps in between; elsewhere the rows that
other transactions hold are a parameter of the step. Times are integers and are passed in; the creation time of an approval
request is when its transaction began, at or before its insert. Ids are drawn from a sequence. A partial unique index of
the schema is a refusal of the insert or update that would violate it. Text that a store strips is stripped before it
reaches the specification. A query with `ORDER BY ... LIMIT` is given by what it returns. A `ValueError` or a database
error is an `Err`, a `Refused` or a `Raised` answer.

## What the proofs found

- **A terminal playbook execution is final only once its lease is gone.** Abandoning leaves the lease, and owner-guarded
  writes look at the owner alone. `TerminalStatusChangesExactlyWhen` gives the exact steps that can change a terminal
  row's status; `AbandonedRunsAgainExactlyWhen` says that an abandoned row still held by its worker runs again exactly when
  no other execution of its playbook and alert is active; `SettledForever` is what does hold.
- **A blank owner is no guard.** In runs with blank writes leases still belong to the last claimant, pending rows carry none
  (`LeaseSurvivesBlankWrites`), and claims stay within max_attempts + 1 (`ClaimBudgetSurvivesBlankWrites`). The recovery budget
  holds throughout such a run exactly when no pause revives a row that has used it up (`BudgetHoldsExactlyWhen`);
  `BlankOwnerBreaksTheBudget` is a run from the empty table in which one does.
- **A parked queue row can be claimed as approved and skipped as denied at the same time**, although at most one of its
  requests is ever active: exactly when a denied or expired request of it began later, by creation time, than the approved one
  (`ClaimableAndSkippableExactlyWhen`). Creation time is when the inserting transaction began, so this is reachable from the
  empty tables (`LateInsertAllowsBoth`); when requests are inserted in the order they began it never happens
  (`ClaimAndSkipExclude`). The same order decides whether the step helper reuses a live request or runs into the unique index
  (`HelperReusesExactlyWhen`, and `HelperMissesLiveRequest` for a run from empty tables in which it does).
- **Registry row and event log always agree, but "every monitored row has a deadline" is false.** Stopping a monitor
  under a key the log already holds writes no event and keeps the row monitored, yet clears its deadline, so no sweep
  ever expires it: `RepeatedStopStrandsTheRow` is such a run. `DeadlinesHoldExactlyWhen` gives the condition, both ways.
- **A block that has run out locks its address.** Nothing but a removal marks it inactive, the look-up ignores it and the
  insert refuses because of it: in every reachable state an admissible `block_ip` raises exactly when the address has such a
  block (`BlockRaisesExactlyWhen`), two commands lead there (`SecondBlockRaises`), and every later one raises until the
  tracking is removed (`LapsedBlockRaisesUntilRemoved`).
- **A command answers the disposition it means to leave, and the row shows that exactly when the command's key is fresh or the
  row showed it before** (`AnswerAgreesExactlyWhen`); both are read off the tables before the call.
- **Notification deduplication lets every eleventh identical notification through**, because each suppressed duplicate is
  logged under the same key and pushes the delivered one out of the ten-row look-up (`EveryEleventhGoesOut`). The bound of
  one in eleven is met with equality.
- **The floor of one hour in `returned_after_hours` never acts**: with two windows the value is at least six
  (`ReturnIsNeverSoonerThanTheGap`).
- **The per-mode rules of `validate_outcome_booleans` amount to one rule per flag** (`ValidFlags`).

## Model

| member | source | states |
|---|---|---|
| PlaybookTheorems.LeaseBelongsToLastClaimant | core/playbook_store.py:133-382 | fencing: in every reachable state a set lease owner is the worker that claimed or resumed the row last, and pending rows carry no lease |
| PlaybookTheorems.OnlyLastClaimantCanWrite | core/playbook_store.py:120-130 | in every reachable state a heartbeat, release or owner-guarded write by anyone but the last claimant changes nothing |
| PlaybookTheorems.FencedWorkerIsErased | core/playbook_store.py:385-473 | a worker that lost its lease and does not claim again can be deleted from the run: the final state is the same |
| PlaybookTheorems.OpenClaimsAreExclusive | core/playbook_store.py:210-294 | two open claims never hold one row, and a claim that holds its row always lands and takes the lease |
| PlaybookTheorems.LockedStaleRowsRecover | core/playbook_store.py:508-599 | a sweep holding a still-leased row under its lock recovers it when it commits |
| PlaybookTheorems.RecoveryBudget | core/playbook_store.py:545-585 | from zero counters recoveries equal attempts, or one more on an unleased failed row; claims and recoveries never exceed max_attempts + 1 |
| PlaybookTheorems.SettledForever | core/playbook_store.py:626-679 | a terminal row without a lease keeps status, counters and log for ever, except failed to permanently_failed |
| PlaybookTheorems.TerminalStatusChangesExactlyWhen | core/playbook_store.py:1481-1611 | with its lease in place, exactly which one step changes a terminal row's status; a pause only while no other execution of the pair is active |
| PlaybookTheorems.AbandonedRunsAgainExactlyWhen | core/playbook_store.py:1186-1211 | an abandoned row still held by its worker runs again, by a pause and a resume, exactly when no other execution of its pair is active; otherwise it stays as it is |
| PlaybookTheorems.AbandonedCanRunAgain | core/playbook_store.py:1186-1211 | in every run, abandoning a running execution leaves it able to run again |
| PlaybookTheorems.RunKeepsPairs | schema.sql:581-584 | claims, resumes, recoveries and writes never make two executions of one playbook and alert active, so only inserts and pauses of terminal rows meet the unique index |
| PlaybookTheorems.DiligentWorkerKeepsLease | core/playbook_store.py:385-505 | a worker whose heartbeats, whenever they were stamped, each arrive before the lease they ask for is over is never recovered and owns the row to the end of the run |
| PlaybookBlankWrites.LeaseSurvivesBlankWrites | core/playbook_store.py:126-130 | in runs with any number of writes under a blank owner, a lease still belongs to the last claimant and pending rows carry none |
| PlaybookBlankWrites.BudgetHoldsExactlyWhen | core/playbook_store.py:545-585 | with writes under any owner, recoveries equal attempts, or one more on a terminal row without attempts left, in every state of a run exactly when no pause revives such a row |
| PlaybookBlankWrites.BudgetBreaksExactlyWhen | core/playbook_store.py:1585-1611 | one step breaks that exactly when it is a pause that reaches an unlocked row recovered once more than its attempts, its pair being free |
| PlaybookBlankWrites.ClaimBudgetSurvivesBlankWrites | core/playbook_store.py:133-207 | in the same runs claims never exceed attempts + 1 nor attempts max_attempts, and the counter counts the recoveries |
| PlaybookBlankWrites.BlankOwnerBreaksTheBudget | core/playbook_store.py:1585-1611 | a run from the empty table: an execution as its insert leaves it is recovered until it fails, revived by a blank pause and recovered beyond max_attempts + 1 |
| PlaybookProtocol.StepKeeps | core/playbook_store.py:133-679 | every claim, acquire, resume, heartbeat, release, recovery, write, abandon, dead-letter, lock and tick keeps the row and lock invariants |
| PlaybookProtocol.RunKeeps | core/playbook_store.py:133-679 | the invariants hold after every finite run |
| PlaybookStore.Store.CreatePlaybookExecution | core/playbook_store.py:916-950 | inserts a pending execution, or the integrity error while its pair has an active one |
| PlaybookStore.Store.CreatePendingPlaybookExecutionOnce | core/playbook_store.py:953-1000 | the same insert, answering nothing on a conflict |
| PlaybookStore.Store.AcquireExecutionLease | core/playbook_store.py:133-207 | takes the lease of a pending row whose lease is free, and touches nothing otherwise |
| PlaybookStore.Store.ClaimNextPendingWithLease | core/playbook_store.py:210-294 | claims the first pending unlocked row in creation order, or none |
| PlaybookStore.Store.AcquireAwaitingApprovalResumeLease | core/playbook_store.py:297-382 | resumes a paused row whose lease is free or run out |
| PlaybookStore.Store.HeartbeatExecutionLease | core/playbook_store.py:385-433 | extends a live lease of its owner and nothing else |
| PlaybookStore.Store.ReleaseExecutionLease | core/playbook_store.py:436-473 | clears the owner's lease fields and nothing else |
| PlaybookStore.Store.MarkStaleExecutionForRecovery | core/playbook_store.py:508-599 | returns a stale row to pending, or fails it when its attempts are used up, counting the recovery |
| PlaybookStore.Store.WriteExecution | core/playbook_store.py:1454-1611 | the owner-guarded step-log, finish and pause writes, what each stores, and the pause the unique index refuses |
| PlaybookStore.Store.AbandonPlaybookExecution | core/playbook_store.py:1186-1211 | abandons a row that is not terminal, leaving its lease |
| PlaybookStore.Store.MarkPermanentlyFailed | core/playbook_store.py:626-679 | dead-letters an eligible row under a non-blank reason |
| PlaybookEffects.WriteLeaves | core/playbook_store.py:1454-1611 | an owner's write that is not refused leaves the given step log and last step, the status and end it asks for, and every other column as it was; any other write leaves the table as it was |
| PlaybookEffects.RowShowsLastLog | core/playbook_store.py:1454-1611 | in every run a row's step log and last completed step are those of the last write or resume that landed on it |
| PlaybookEffects.LogFromCreation | core/playbook_store.py:916-950 | from the empty table they are the empty log and no step until one lands |
| PlaybookEffects.SelectionLeaves | core/playbook_store.py:210-294 | a claim locks exactly the pending row that nobody holds and that was created before all other such rows |
| PlaybookEffects.ClaimTakesEffect | core/playbook_store.py:210-294 | if its lease is free the two statements of the claim leave it running under the caller's lease |
| PlaybookEffects.ResumeLeaves | core/playbook_store.py:297-382 | a resume lands exactly on a paused row without a live lease, and leaves the given log, a running row without end and the new lease |
| PlaybookEffects.RowShowsLastLease | core/playbook_store.py:133-599 | in every run the four lease columns are those of the last claim or resume, renewed by its owner's heartbeats in time, until a release or recovery |
| PlaybookEffects.LeaseFromCreation | core/playbook_store.py:133-599 | from the empty table they are blank until the first claim |
| PlaybookEffects.TimesFitThroughout | core/playbook_store.py:1186-1611 | in every run a row has an end exactly while terminal, a start while running, and its first start never changes |
| QueueProtocol.ParkedRowsRunOnlyApproved | core/response_action_queue_store.py:175-275 | a row ever parked for approval that is now pending, running, success or failed has an approved request for its own id and action |
| QueueProtocol.WitnessSurvives | core/response_action_queue_store.py:339-428 | that witness, and the row's action, outlive every later recovery, requeue, claim and approval step |
| QueueProtocol.RetryBudget | core/response_action_queue_store.py:339-428 | retry_count never exceeds max(1, max_retries), live rows have a retry left, and recovery's exhausted branch needs max_retries = 0 |
| QueueProtocol.FinishedForever | core/response_action_queue_store.py:463-492 | success and skipped rows never change status or retry count |
| QueueProtocol.ClaimableAndSkippableExactlyWhen | core/response_action_queue_store.py:175-275 | in every run, a row claimable through an approved request is skippable too exactly when another request of its row and action is later by creation time |
| QueueProtocol.ClaimAndSkipExclude | core/response_action_queue_store.py:227-275 | in every run whose requests are inserted in the order they began, no row can be both claimed and skipped |
| QueueProtocol.LateInsertAllowsBoth | core/approval_store.py:199-262 | a run from empty tables, under both unique indexes and with creation times at or before their inserts, after which a row can be claimed and skipped |
| QueueProtocol.StepKeeps | core/response_action_queue_store.py:153-492 | every queue and approval step keeps budget and witness of every row |
| ResponseQueue.Store.ClaimNextPendingAction | core/response_action_queue_store.py:153-172 | the lowest unlocked pending row runs, or nothing changes |
| ResponseQueue.Store.ClaimNextApprovedAwaitingAction | core/response_action_queue_store.py:175-202 | the lowest unlocked parked row with an approved request of its own runs |
| ResponseQueue.Store.SkipNextTerminalApprovalAction | core/response_action_queue_store.py:227-275 | the lowest unlocked parked row whose latest request is denied or expired is skipped, with that reason |
| ResponseQueue.Store.SweepTerminalApprovalQueueRows | core/response_action_queue_store.py:278-328 | skips the lowest such rows up to the clamped cap and returns them with their verdicts |
| ResponseQueue.Store.TransitionActionStatus | core/response_action_queue_store.py:463-492 | moves a row in the required status and reports an error otherwise, changing nothing |
| ResponseQueue.Store.MarkActionFailed | core/response_action_queue_store.py:339-358 | fails a running row and counts the retry |
| ResponseQueue.Store.RequeueFailedAction | core/response_action_queue_store.py:361-379 | returns a failed row with retries left to pending |
| ResponseQueue.Store.RecordActionFailure | core/response_action_queue_store.py:382-386 | fails the row and requeues it when the failure is retryable |
| ResponseQueue.Store.RecoverStaleRunningActions | core/response_action_queue_store.py:389-428 | returns to pending or fails the stale running rows of a locked batch, and returns them |
| QueueEffects.FailureLeaves | core/response_action_queue_store.py:382-386 | a failed running row waits for another try exactly when the failure is retryable and a retry is left, else it is failed; one retry more and the message are stored, nothing else changes |
| QueueEffects.PermanentFailureStays | core/response_action_queue_store.py:339-386 | in every run an action failed for good, or with its retries used up, stays failed with its message until it is requeued by hand |
| QueueEffects.StaleRecoveredExactlyWhen | core/response_action_queue_store.py:389-428 | a sweep without a limit recovers a running row exactly when it is unlocked and as old as the cutoff |
| QueueEffects.StepLeaves | core/response_action_queue_store.py:153-492 | what every protocol step makes of every row, column by column: who may be claimed, skipped, swept or recovered, and what is stored |
| QueueEffects.RowShowsItsSteps | core/response_action_queue_store.py:153-492 | in every run a row is what the steps that landed on it left, in order |
| QueueEffects.EnqueueLeaves | core/ip_helpers.py:585-604 | an enqueue adds one pending row under the next id exactly when no row has its key |
| QueueEffects.ClaimSelects | core/response_action_queue_store.py:175-202 | the claim looks at exactly the unlocked parked rows with an approved request of their own id and action |
| QueueEffects.SkipSelects | core/response_action_queue_store.py:205-275 | a parked row is skipped exactly when its latest request is denied or expired, and the reason says which |
| ApprovalProtocol.RequestAgreesWithLog | core/approval_store.py:102-262 | in every run a request's events are its creation and at most one decision ending at the row's status; approver, decision time and expiry follow the status |
| ApprovalProtocol.OneLiveRequestPerStep | core/approval_store.py:199-347 | however a step's requests are created, every one but the newest is denied or expired |
| ApprovalProtocol.HelperReusesExactlyWhen | core/approval_store.py:281-347 | in every run the step helper reuses a live request exactly when no other request of the step began later; otherwise its insert is refused, and nothing changes either way |
| ApprovalProtocol.HelperMissesLiveRequest | core/approval_store.py:265-347 | a run from empty tables after which the helper overlooks a step's live request and its insert is refused |
| ApprovalProtocol.SweepIsARun | core/approval_store.py:591-615 | the sweep is a run of single expiries at one instant: same rows, same events, same order |
| ApprovalProtocol.SweepKeeps | core/approval_store.py:591-615 | rows and log agree after a sweep as before it |
| ApprovalProtocol.SweepExpiresExactly | core/approval_store.py:591-615 | the sweep expires its batch and nothing else |
| ApprovalProtocol.UncappedSweepLeavesNoneOverdue | core/approval_store.py:591-615 | with room under the cap and nothing locked no overdue request is left |
| ApprovalProtocol.StepKeeps | core/approval_store.py:158-615 | creation, decision, late decision, expiry and sweep keep rows and log in agreement, one live request per queue action and one per playbook step |
| Approvals.Store.CreateApprovalRequest | core/approval_store.py:199-262 | checks target, action and the two active-request indexes, then inserts row and created event |
| Approvals.Store.ApproveRequest | core/approval_store.py:454-520 | approves a pending request in time; a late one is expired and refused |
| Approvals.Store.DenyRequest | core/approval_store.py:523-588 | denies a pending request in time; a late one is expired and refused |
| Approvals.Store.MaterializeExpiration | core/approval_store.py:158-196 | refuses a request that is not pending, else marks it expired, appends the event and returns the row |
| Approvals.Store.ExpirePendingRequests | core/approval_store.py:591-615 | expires the locked batch in order and returns the expired rows |
| Approvals.Store.CreatePlaybookStepApprovalRequest | core/approval_store.py:317-347 | reuses the step's latest request while it is pending or approved, and creates one otherwise |
| ApprovalEffects.DecisionLeaves | core/approval_store.py:454-588 | a decision in time stores its actor, choice, comment and time in the request and an event; a late one stores the expiry; any other changes nothing |
| ApprovalEffects.DecisionIsRecorded | core/approval_store.py:454-588 | in every run the first decision on a pending request names its actor, choice, comment and time in the request, and its last event, in every later state |
| ApprovalEffects.CreationIsRecorded | core/approval_store.py:199-262 | in every run an accepted creation names its target, action, requester, reason, beginning and expiry in every later state |
| ApprovalEffects.StepLeaves | core/approval_store.py:158-615 | what every protocol step makes of every request, column by column |
| ApprovalEffects.StepRequestLeaves | core/approval_store.py:281-347 | the step helper inserts exactly when the step's latest request by creation time and id is neither pending nor approved, or there is none |
| ApprovalEffects.BatchSelects | core/approval_store.py:591-615 | the sweep's batch holds pending overdue unlocked requests, at most a hundred, and misses one only for earlier ones |
| RegistryTheorems.RowAgreesWithLog | core/indicator_response_registry.py:194-322 | in every reachable state a row shows its newest event's disposition, or "expired" where that event said "monitored", or "observed" without events |
| RegistryTheorems.BlocklistPointersAreSound | core/indicator_response_registry.py:297-321 | at most one active block per IP, and a set pointer names exactly it, even when keys are reused |
| RegistryTheorems.DeadlinesHoldExactlyWhen | core/response_command_service.py:794-866 | every monitored row has a deadline throughout a run exactly when no monitor is stopped under a key already in the log |
| RegistryTheorems.RepeatedStopStrandsTheRow | core/response_command_service.py:794-866 | a run from empty tables after which a row stays monitored without a deadline and no sweep expires it |
| RegistryTheorems.AnswerAgreesExactlyWhen | core/response_command_service.py:248-325 | unless it raises, a command answers the disposition its tables and request call for, and the row then shows it exactly when the key is fresh or the row showed it before |
| RegistryTheorems.SweepLeavesOnlyLiveMonitors | core/indicator_response_registry.py:787-803 | in every run that loses no deadline, whatever a sweep leaves monitored has a deadline still to come |
| RegistryTheorems.LoggedDispositionsAreDerived | core/indicator_response_registry.py:162-191 | every event any run has logged stores the disposition that its action and outcome derive |
| RegistryTheorems.BlockRaisesExactlyWhen | core/response_command_service.py:99-133 | in every reachable state an admissible block_ip raises, changing nothing, exactly when the IP has a lapsed block still marked active |
| RegistryTheorems.LapsedBlockRaisesUntilRemoved | core/response_command_service.py:99-133 | from a lapsed block on, whatever else runs, every admissible block_ip of the IP raises until a remove_tracking of it |
| RegistryTheorems.SecondBlockRaises | core/db.py:38-86 | two commands from empty tables reach it |
| RegistryTheorems.BlockThenRemove | core/response_command_service.py:869-939 | after an answered block its id is the IP's one active block; after a removal none is active and the pointer is clear |
| RegistryProtocol.StepKeeps | core/response_command_service.py:248-1015 | every command, sweep and direct block record keeps row/log agreement, one active block per IP and pointer soundness |
| ResponseCommandService.Service.AppendRegistryEvent | core/indicator_response_registry.py:194-322 | a known key writes nothing and returns the stored event; a new event is appended, folded into its row and returned |
| ResponseCommandService.Service.UpsertIndicatorIdentity | core/indicator_response_registry.py:113-132 | creates an observed row once and returns the row |
| ResponseCommandService.Service.CreateBlockedIpRecord | core/db.py:38-86 | refuses an unknown alert or an IP with an active row, else inserts the active row |
| ResponseCommandService.Service.ExecuteBlockIp | core/response_command_service.py:328-515 | refusal, reuse, creation or a raised error with nothing changed |
| ResponseCommandService.Service.ExecuteMonitor | core/response_command_service.py:518-663 | renews the deadline of a monitored row, else records the monitor event |
| ResponseCommandService.Service.ExecuteEscalate | core/response_command_service.py:666-791 | records the escalation of the target, if there is one |
| ResponseCommandService.Service.ExecuteStopMonitor | core/response_command_service.py:794-866 | stops a monitored row and clears its deadline |
| ResponseCommandService.Service.ExecuteRemoveTracking | core/response_command_service.py:869-966 | deactivates the newest active block, records it and clears the pointer |
| ResponseCommandService.Service.ExecuteAddNote | core/response_command_service.py:969-1015 | appends a note that repeats the row's disposition and leaves the row alone |
| ResponseCommandService.Service.ExecuteResponseCommand | core/response_command_service.py:248-325 | the dispatch checks and the command they lead to |
| ResponseCommandService.Service.ApplyMonitorExpiry | core/indicator_response_registry.py:787-803 | expires exactly the lapsed monitored rows and returns their number |
| RegistryEffects.RenewalLeaves | core/response_command_service.py:530-560 | a renewal moves the deadline to the one asked for, or a week from now, and changes nothing else |
| RegistryEffects.MonitorLastsExactly | core/response_command_service.py:518-663 | after a monitor command that renews, or whose key is new, no sweep before the deadline asked for (a week by default) expires the address and every sweep at or after it does, until another command for the address |
| RegistryEffects.NewBlockLeaves | core/response_command_service.py:328-515 | an admissible block without an active one records the next block, its event under the command's key and the pointer to it |
| RegistryEffects.RemovalLeaves | core/response_command_service.py:869-966 | a removal under a new key deactivates the newest active block, logs it and clears the pointer, and nothing else |
| RegistryEffects.SweepLeaves | core/indicator_response_registry.py:787-803 | a sweep expires exactly the monitored rows whose deadline has come and touches nothing else |
| RegistryEffects.NoteLeaves | core/response_command_service.py:969-1015 | a note under a new key is logged with what the row shows and leaves the row |
| RegistryEffects.DispatchedExactlyWhen | core/response_command_service.py:248-325 | a command runs exactly when its name is known, its indicator is well formed, its target present and, for a note, its text not blank |
| RegistryEffects.DerivedByOutcome | core/indicator_response_registry.py:162-191 | the disposition of every outcome and action |
| ActionVocabulary.OrdersExactlyWhen | core/canonical_action_vocabulary.py:268-278 | the six command names and the two aliases, each for one command |
| EvidencePagination.WalkIsExact | core/nist_evidence_store.py:331-373 | following next_cursor reads exactly the boundary's runs of the first page's table, newest first and each once, is told to stop after exactly the pages they fill, and runs added meanwhile above them change nothing |
| EvidencePagination.WalkNeverRepeats | core/nist_evidence_store.py:331-373 | whatever runs are added between pages, every run read is the boundary's, none is read twice and none present at the start is missed |
| EvidencePagination.PageHolds | core/nist_evidence_store.py:331-373 | a page holds only runs of the boundary below the cursor, newest first, at most the limit clamped to 1..50, and misses none above its last row; it names a cursor exactly when a run lies below; half a cursor is refused |
| NotificationDelivery.DeliveriesAreBounded | core/notification_policy_service.py:438-680 | in every run of deduplicated deliveries, two that went out under a key are at least eleven attempts apart, so at most one in eleven, rounded up, went out |
| NotificationDelivery.SpacingBreaksExactlyWhen | core/notification_policy_service.py:538-577 | one delivery breaks the spacing exactly when it is recorded, undeduplicated, successful and close to another |
| NotificationDelivery.EveryEleventhGoesOut | core/notification_policy_service.py:368-377 | a caller that keeps asking gets through exactly every eleventh time: the bound is attained |
| NotificationDelivery.Service.ExistingPolicyDelivery | core/notification_policy_service.py:368-377 | finds a delivery exactly when one of the key's newest ten attempts went out |
| NotificationDelivery.NewestAreRecent | core/notification_delivery_store.py:395-411 | the newest-first query returns the last attempts of the key, in reverse |
| NotificationDelivery.Service.DeliverNotification | core/notification_policy_service.py:438-680 | when the adapter is called, when the delivery is a duplicate, and what is logged |
| NotificationDelivery.DeliverLeaves | core/notification_policy_service.py:438-680 | the attempt row, if any, is blocked when the policy is silent or one of the key's newest ten attempts went out, and else success, timeout, blocked or failed by the adapter's answer |
| NotificationDelivery.RecentlyOutExactlyWhen | core/notification_policy_service.py:368-377 | the lookup hits exactly when an attempt that went out has fewer than ten later attempts under its key |
| InternetNoise.OneRefreshPerIp | core/internet_noise.py:244-272 | under every interleaving of lock sections at most one unfinished refresh per IP, in flight exactly until it pops itself; submissions exceed pops by exactly that one |
| InternetNoise.AnswersAreFresh | core/internet_noise.py:182-241 | a non-neutral answer is the newest stored result for its IP, still within its time to live; cache_hits counts the cached answers |
| InternetNoise.EnqueueLeavesARefresh | core/internet_noise.py:258-264 | a caller told that a refresh is due finds one live after its second section, whatever ran in between |
| InternetNoise.StepKeeps | core/internet_noise.py:182-272 | every lock section keeps all of this |
| InternetNoise.NoiseCache.GetInternetNoiseAssessment | core/internet_noise.py:182-241 | the answer and the tables after one undisturbed call, in every branch |
| InternetNoise.NoiseCache.LookUpSection | core/internet_noise.py:204-217 | a hit is counted and left; an expired entry is dropped and reported with the in-flight state |
| InternetNoise.NoiseCache.EnqueueRefresh | core/internet_noise.py:258-264 | submits a task unless one is in flight |
| InternetNoise.NoiseCache.RefreshTask | core/internet_noise.py:244-272 | stores the result unless the lookup raised, and always pops |
| NoiseEffects.ServedExactlyWhen | core/internet_noise.py:204-217 | after any interleaving a look-up is served from the cache exactly when the IP's newest result is within its time to live and no look-up since found it expired, and it is served that result |
| NoiseEffects.MissIsRefreshed | core/internet_noise.py:219-264 | whoever may enqueue and finds nothing fresh finds a refresh live already or leaves one live after its second section, whatever ran in between |
| NoiseEffects.NothingSubmitted | core/internet_noise.py:219-241 | an IP that nobody may enqueue is never submitted |
| NoiseEffects.LookUpLeaves | core/internet_noise.py:204-241 | the answer, the hit counter, the dropped entry and the caller's next section, by what the cache held |
| NoiseEffects.StoreLeaves | core/internet_noise.py:244-255 | a result is kept for the configured time, and never for less than a minute |
| ObservationWindows.SplitIsUnique | core/investigation_intelligence.py:115-127 | there is exactly one way to cut the timestamps into bursts that lie six hours or more apart |
| ObservationWindows.SplitIsSplit | core/investigation_intelligence.py:115-127 | the cut the windows come from is such a cut |
| ObservationWindows.SplitCount | core/investigation_intelligence.py:115-127 | its size is one plus the number of large gaps |
| ObservationWindows.WindowsPartition | core/investigation_intelligence.py:115-127 | windows are ordered, at least the gap apart, and each timestamp lies in exactly one |
| ObservationWindows.ContextIgnoresOrder | core/investigation_intelligence.py:105-156 | neither storage order nor unparsable timestamps change the context |
| ObservationWindows.ReturnIsNeverSoonerThanTheGap | core/investigation_intelligence.py:145-156 | returned_after_hours is at least six with two windows and zero otherwise; the headline follows is_returning |
| ObservationWindows.BuildObservationWindows | core/investigation_intelligence.py:115-127 | the loop returns the first and last timestamp of each burst of the unique cut |
| ObservationWindows.NormalizeObservedTimestamps | core/investigation_intelligence.py:105-112 | the loop and sort return the parsed timestamps, sorted |
| ObservationWindows.SortSorts | core/investigation_intelligence.py:105-112 | the sort is a sorted rearrangement |
| ObservationWindows.BuildReturningAttackerContext | core/investigation_intelligence.py:130-156 | the derived context of a history |
| AttackerContextEffects.WindowsCountReturns | core/investigation_intelligence.py:115-156 | from the set of sightings alone: one window more than there are sightings six hours after all earlier ones; the hours are those from the sighting before the last of these to it, rounded half to even |
| AttackerContextEffects.ReturningExactlyWhen | core/investigation_intelligence.py:130-156 | is_returning holds exactly when two sightings fall on different days or one comes six hours after all earlier ones; days observed is the largest of the stored count, the span and the days seen |
| IdempotencyKeys.DecodePreImage | core/ip_helpers.py:580-582 | the hashed text determines alert id, address and action, however many colons the address has |
| IdempotencyKeys.KeyIdentifies | core/ip_helpers.py:580-582 | under a collision-free hash two queue keys are equal exactly when all three fields are |
| IdempotencyKeys.OneRowPerRequest | core/ip_helpers.py:585-604 | in every run of calls by name (aliases, blanks and refused names included) mixed with every queue step, a row exists for an alert, address and canonical action exactly when some call's name stands for it, and never two |
| IdempotencyKeys.EnqueueResponseAction | core/ip_helpers.py:585-604 | an invalid name is refused; a known key inserts nothing; else one pending row under the canonical action |
| ActionVocabulary.QueuesExactlyWhen | core/canonical_action_vocabulary.py:240-265 | the queue takes its three actions under their own names and escalate for flag_high_priority, and nothing else |
| ActionVocabulary.RefusesExactlyWhen | core/canonical_action_vocabulary.py:240-265 | the error code of every refused name |
| ResponseOutcomes.BulkRefinesSingle | core/soar_response_outcomes.py:860-888 | the bulk map holds exactly the ids that have events, each with what the single read returns |
| ResponseOutcomes.OutcomeStore.GetLatestOutcomesForAlertsBulk | core/soar_response_outcomes.py:860-888 | the loop over the query's rows fills that map |
| ResponseOutcomes.RealExecutionIsNeverClaimedFalsely | core/soar_response_outcomes.py:423-460 | every stored event is labelled "Real executed" exactly when external_executed is set; no two flags are set together |
| ResponseOutcomes.RepeatedKeyChangesNothing | core/soar_response_outcomes.py:669-675 | a stored key answers every later valid call under it with the stored event, whatever ran between, and leaves the log unchanged |
| ResponseOutcomes.RunIsSound | core/soar_response_outcomes.py:601-754 | appends only extend the log, keep its keys unique and its flags valid |
| ResponseOutcomes.NewOutcomeShowsExactlyWhen | core/soar_response_outcomes.py:773-806 | an appended outcome becomes its alert's latest exactly when it did not occur before the latest one |
| ResponseOutcomes.LatestIsUnique | core/soar_response_outcomes.py:773-806 | the single read returns the one event that follows all others of the alert |
| ResponseOutcomes.ValidFlags | core/soar_response_outcomes.py:207-268 | the flag checks hold exactly when each set flag is in its own mode, and external and tracking flags in succeeded |
| ResponseOutcomes.OutcomeStore.AppendOutcomeEvent | core/soar_response_outcomes.py:601-754 | every refusal in order, the repeated key, and the stored event |
| OutcomeEffects.AppendLeaves | core/soar_response_outcomes.py:601-754 | a call stores its event exactly when every check holds, its key is new and its step index not negative; the event has the caller's alert or else its decision's, and the caller's time or else the clock's; otherwise the log stays |
| OutcomeEffects.RefusesInOrder | core/soar_response_outcomes.py:601-754 | the first check that fails names the refusal |
| OutcomeEffects.EventsComeFromCalls | core/soar_response_outcomes.py:601-754 | in every run every stored event is what some valid call said |
| OutcomeEffects.CallsLeaveEvents | core/soar_response_outcomes.py:601-754 | in every run every valid call leaves its event in place for good, or under a known key the earlier event |
| OutcomeEffects.LabelsExactly | core/soar_response_outcomes.py:423-460 | the label of every stored event by state, mode and flags, each label exactly when |
| OutcomeEffects.LatestExactly | core/soar_response_outcomes.py:773-806 | the single read answers the alert's event after all others by occurrence, creation and id, and nothing exactly when there is none |
| OutcomeEffects.BulkResultExists | core/soar_response_outcomes.py:860-888 | the bulk query has an answer for every log and list of ids |
| PfsenseAgreement.AcceptedExactlyWhen | adapters/pfsense_filterlog_adapter.py:479-610 | a parsed and normalised event is accepted, unchanged in every field, exactly when the interface is not blank and the direction is blank, in or out; otherwise its payload is refused |
| PfsenseAgreement.EventCarriesFields | adapters/pfsense_filterlog_adapter.py:201-331 | addresses, protocol, ports and event type of the event are those of the fields they were logged in |
| PfsenseAgreement.TcpBlockIsAccepted | adapters/pfsense_filterlog_adapter.py:229-235 | a TCP block between any two addresses and ports parses and is accepted |
| PfsenseAgreement.DottedQuad | adapters/pfsense_filterlog_adapter.py:384-391 | four octets joined by dots are an address |
| PfsenseAgreement.ParsedIsWell | adapters/pfsense_filterlog_adapter.py:201-266 | what parsing guarantees of every field, for every protocol and ICMP variant |
| PfsenseAgreement.NumberReadsBack | adapters/pfsense_filterlog_adapter.py:394-415 | a stored port or ICMP number is read back as itself by the validator |
| PfsenseAgreement.PayloadHolds | adapters/pfsense_filterlog_adapter.py:283-318 | the payload holds every required key and exactly the optional keys with a value |
| PfsenseFilterlog.NormalizePfsenseFilterlogEvent | adapters/pfsense_filterlog_adapter.py:269-331 | the loop over optional keys builds the specified event |
| PfsenseFilterlog.ValidateRawPayload | adapters/pfsense_filterlog_adapter.py:536-610 | the sequential checks and loops accept exactly the specified payloads |
| PfsenseExactness.LineParsesExactlyWhen | adapters/pfsense_filterlog_adapter.py:201-266 | a line parses exactly when it has twenty fields, IPv4, one of thirteen protocols, block or pass, two addresses, for TCP and UDP two ports, and for ICMP a parsable type |
| PfsenseExactness.IcmpParsesExactlyWhen | adapters/pfsense_filterlog_adapter.py:418-457 | an ICMP line has a type from 0 to 255 with no code or one from 0 to 255, or one of thirteen words with the details that word calls for; the failures in order |
| PfsenseExactness.LineRefusedInOrder | adapters/pfsense_filterlog_adapter.py:201-236 | the first thing wrong with a line names its failure |
| PfsenseExactness.ParsedHolds | adapters/pfsense_filterlog_adapter.py:238-266 | every parsed value by the field it was logged in |
| PfsenseExactness.OptionalFieldsHold | adapters/pfsense_filterlog_adapter.py:294-297 | the optional keys of an event, each present exactly when its field has a value |
| PfsenseExactness.LogTextsHold | adapters/pfsense_filterlog_adapter.py:289-318 | the sender, log texts, 160-character summary and timestamp notes, each under its key exactly when there is one |
| PfsenseExactness.EventHolds | adapters/pfsense_filterlog_adapter.py:319-343 | type, severity, source, message, environment and required keys of an event |
| PfsenseExactness.ValidExactlyWhen | adapters/pfsense_filterlog_adapter.py:479-610 | the validator takes an arbitrary event exactly when every field and payload key fits, and answers it with texts stripped and severity folded |
| PfsenseExactness.RefusedInOrder | adapters/pfsense_filterlog_adapter.py:479-526 | the first field that does not fit names the refusal |
| PfsenseExactness.AddressExactly | adapters/pfsense_filterlog_adapter.py:384-391 | an address is exactly four numbers up to 255 in plain decimal joined by dots |
| PfsenseExactness.IntegersExactly | adapters/pfsense_filterlog_adapter.py:394-415 | an integer is exactly an optional sign and digits with single underscores between them, read without the underscores |
| Text.ReadShowInt | core/ip_helpers.py:580-582 | decimal rendering of an integer reads back as that integer |
| Text.StripCuts | core/playbook_store.py:133-150 | stripping cuts white space off both ends and nothing else |

## Left out

- ResponseCommandService.Service.ExecuteBlockIp: does not model the response decision, action log, outcome event and alert columns it also writes, because they depend on the registry but nothing in the registry depends on them.
- ResponseCommandService.Service.ExecuteMonitor: does not model the decision, action log, outcome event and alert writes, for the same reason.
- ResponseCommandService.Service.ExecuteEscalate: does not model finding or creating the incident, which is an input, nor the decision, log, outcome and alert writes.
- ResponseCommandService.Service.ExecuteResponseCommand: does not model the resolution of the target from an alert or incident nor the hashing of a default key; both are inputs.
- ResponseCommandService.Service.CreateBlockedIpRecord: does not model the address validation, because the command service has validated the address before.
- NotificationDelivery.Service.DeliverNotification: does not model policy evaluation, the construction of the key and the returned record; eligibility and key are inputs.
- ObservationWindows.BuildReturningAttackerContext: does not model the reasons, the summary and the prior counts, which are display texts and copied numbers.
- ResponseOutcomes.OutcomeStore.AppendOutcomeEvent: does not model the vocabularies of actors, reasons and correlation ids; each is valid or not.
- SQL beyond what is stated: isolation anomalies, deadlocks, JSONB, column types.
- Playbook runs contain no operator edits of attempt metadata, no `update_execution_status`, and no unleased claim or resume: those writes are outside the lease protocol and would break it by design.
- The retry of a failed or abandoned execution, which is an insert after its own check, and definitions, linkage columns and listings of `core/playbook_store.py`.
- Registry surrogate ids: (type, value) is unique and the type is always "ip", so rows are keyed by the address. Alerts, incidents, decisions, action logs, risk levels, audit entries and the backfill script are not part of this model; escalation's incident is an input.
- What a caller commits: a raised error is taken to roll the whole command back. A late approval decision is modelled with the expiry it writes; a caller that rolls back instead leaves the request pending, which the model also allows.
- SHA-256 and UUIDs: the key hash is an arbitrary collision-free function; event keys of commands are arbitrary texts.
- Rows whose alert is deleted later (the column is set to NULL) and NULL addresses in the queue. The queue key hashes the address as it was given while the column is an INET, so two spellings of one IPv6 address are two keys and two rows; addresses here are the given texts.
- Notification routing, message texts and Slack: the adapter's answer is an input.
- Internet-noise provider calls, retries, texts and the other counters; the reset used by tests; the decision built from an assessment.
- Timestamp parsing: a timestamp is absent or a number of microseconds. `returned_after_hours` is rounded exactly, halves to even, where the source divides floating-point seconds. Reasons and summary texts of the context.
- Metadata redaction of outcomes and the other bulk reads, which repeat the alert one with more columns.
- pfSense: packet decoding, syslog timestamps and CSV splitting; the model starts from the field list. Unicode case folding, Unicode digits and Python's limit on the length of integer texts. A payload check on a non-dictionary event.
- Dead letters, incident status, investigation scores, recon classification, legacy outcome inference, AI explanations and the front end: shallow case analysis or plumbing.
