# Verified model of the agent service's storage protocols and rankings

This project models, in Dafny 4.11, the parts of the service where correctness depends on many steps agreeing: the
durable run protocol, the audit hash chain with its approval state machine, file ingest, chunking and ranking, source
selection and search merging, evidence citations, alerts and the authentication backoff. `dafny verify dfyconfig.toml`
checks all of it.

How the model is set up:

- A table is a map or a sequence, a transaction is a function on the whole table value, and a class holds the tables
  and carries each transaction out in place; every method's contract ties the new state to that function. Results
  about all runs are proved about the functions, over every sequence of steps.
- A request handler is a program counter that takes one storage call at a time, so that handlers, heartbeats, sweeps
  and crashes interleave freely. A storage call can succeed, be rolled back, or commit and lose its reply; the last
  two look the same to the handler. `RunHandlers` and `Ingest.DocumentStore.IngestDocument` run the handlers straight
  through and are proved to do what the program counters do.
- A digest is any function of what is hashed. Theorems that need it to be injective say so.
- Clocks are parameters. Scores, delays and thresholds are exact reals.

Modules, by part: `RunStages`, `MessageHistory`, `RunTables`, `RunLeases`, `RunProtocol`, `RunHeartbeats`, `RunHandlers`,
`RunReplies`, `RunStageOrder`, `RunStageExamples`, `RunStageDrops`, `RunOutcomes`, `RunLostReplies`, `RunClaims` (runs);
`AuditChain`, `AuditTransactions`, `PendingActions`, `ActionOutcomes` (audit and approval); `Ingest`, `IngestAnswers`,
`Text`, `Chunking`, `HybridRanking`, `RankingOrder` (files); `GreedySelection`, `SearchMerge`, `MergeOrder` (sources);
`DelimitedText`, `Numerals`, `Citations`, `EvidenceText`, `CitationTransport`, `TraceScan` (citations); `Alerts`,
`AlertTransitions`, `AlertRules`, `AlertRaces`, `AlertCommits`, `AuthBackoff`, `AuthStreaks`; `Common` and `Ordering` are
shared.

## Where the code does less than it suggests

Each of these is a lemma with a concrete run or an exact condition.

- `finish_run` is not fenced by worker or lease, so how an ended run ended is not stable. A chat request that lost the
  reply of its own succeeding finish fails the run again, and a recovery that had claimed the run succeeds a failed one.
  `RunOutcomes` gives the exact condition for each over every interleaving, with a reached run for both; the first is
  all that can fail a succeeded run while no handler writes after another has claimed it (`RunLostReplies`). What holds
  without condition is that an ended run never runs again, and that after a recovery undid a failure the run is never
  failed again.
- The stored stage can move backwards even when no handler writes after another has claimed its run: when a chat
  request's failing finish is rolled back, after a finish that failed too or an append whose reply was lost, its
  `failed` checkpoint commits while the row still runs, and a recovery that read `response_ready` earlier then writes
  `response_persisted`; one that read `response_persisted` writes `completed` over `failed`.
  `RunStageOrder.StageMovesBackExactlyWhen` and `TerminalStageChangesExactlyWhen` give the exact conditions, and
  `RunStageDrops.StageDropsExactlyWhen` the one for executions in which late handlers do write.
- A release names a run and a worker, not a claim, and all recoveries of one process use one worker id. A recovery that
  backs out after its lease ran out gives back the claim of the next one in the same process
  (`RunClaims.StaleReleaseTakesTheClaim`, exact condition in `ClaimIsLostExactlyWhen`).
- `ingest_document` treats a failed store as having written nothing. If the store commits and only its
  reply is lost, the cleanup deletes a source that the new document names
  (`Ingest.LostReplyDeletesANamedSource`, exact condition in `Ingest.NamedSourceIsGoneExactlyWhen`).
- With a non-empty idempotency key, `create_pending_action` finds its own fresh row and logs an idempotency hit on the
  first insert, so its action has no created event; with the empty key and a conflict it commits a created event for a
  missing row and then fails. `PendingActions.CreatedEventExactlyWhen` says for every run which ids have the event. The
  repository's one caller passes the hex digest of a SHA-256 hash, so the empty key needs another caller.
- The row lock of an alert batch guards only rows that exist. Batches racing on a rule's first row can open it twice,
  close it silently or lose its suppression count. `AlertCommits` gives the exact condition for what batches commit over
  every interleaving, `AlertRaces` the one for what the holder of the lock sees before it commits or aborts, and
  `Alerts.RulesStayInOrder` is the case of one batch after another.
- A trust value outside capitals and underscores prints a citation that no reader accepts, and line numbers with
  leading zeros or non-ASCII digits are read but never printed.

## Model

| member | source | states |
|---|---|---|
| RunStages.RunState.Transition | run_state.py:49-55 | a move succeeds exactly when the table allows it; a refused move leaves the stage alone |
| RunStages.PathsFollowTheLine | run_state.py:24-32 | any chain of legal moves from `created` follows the one happy path up to its last stage, is at most six stages long, completes only by passing every stage, and never leaves a terminal stage |
| MessageHistory.SequencesAreGapless | persistence_runs.py:739-772 | over any order of committed appends, a session's rows are numbered exactly 1..n and carry the batches joined in commit order |
| MessageHistory.SequencesAreUnique | persistence_runs.py:739-772 | no two rows share a session and a sequence number, so the unique constraint never refuses an append |
| MessageHistory.HistoryIsTail | persistence_runs.py:41-66 | loading with a limit (newest first, reversed) returns the last min(limit, n) messages of the batches joined in commit order |
| MessageHistory.OnceLoggedHasItsBatch | persistence_runs.py:739-772 | a run that appended once has exactly that batch as its rows, in order |
| RunTables.RunStore.Create | persistence_runs.py:69-121 | the new state and reply of creating a run, including the bad lease and the duplicate run id |
| RunTables.RunStore.Finish | persistence_runs.py:124-150 | finishing rewrites status, error, owner, lease and recovery of any existing row, terminal or not |
| RunTables.RunStore.Renew | persistence_runs.py:558-584 | a renewal takes effect exactly for the running row's current holder with an unexpired lease |
| RunTables.RunStore.MarkLapsed | persistence_runs.py:587-607 | every active running row whose lease has expired becomes orphaned, and no other row changes |
| RunTables.RunStore.Claim | persistence_runs.py:647-679 | a claim takes effect exactly on a running orphaned row, with a new lease and both counters raised |
| RunTables.RunStore.Release | persistence_runs.py:682-702 | only the current worker of a running row gives it back |
| RunTables.RunStore.SaveCheckpoint | persistence_events.py:94-150 | the checkpoint row and the run's stage change together |
| RunTables.RunStore.AppendNewMessages | persistence_runs.py:717-785 | the row-by-row loop leaves exactly the batch, numbered on from the session's last number |
| RunTables.RunStore.LoadMessageHistory | persistence_runs.py:34-66 | the loop returns the bodies of the most recent rows in order |
| RunLeases.RowsKeepTheirShape | persistence_runs.py:84-111 | over every sequence of create, renew, orphan sweep, claim, release, finish and checkpoint, a row has exactly one of three shapes: held with a lease, orphaned without owner or lease, ended with neither |
| RunLeases.CountersCount | persistence_runs.py:657-679 | `attempt_count` is 1 + claims and `lease_version` is 1 + claims + renewals |
| RunLeases.TerminalNeverRunsAgain | persistence_runs.py:135-143 | once a row has ended it has ended in every later state |
| RunLeases.StatusIsTheLastFinish | persistence_runs.py:135-143 | how an ended run ended is what the last finish of it said, whoever called it |
| RunLeases.SuccessLastsExactlyWhen | persistence_runs.py:135-143 | a succeeded run is still succeeded later exactly when the last finish of it since then, if any, was no failure |
| RunLeases.LateFinishOverwritesSuccess | persistence_runs.py:135-143 | a run of calls in which a success becomes a failure |
| RunLeases.LeasePeriodsNeverOverlap | persistence_runs.py:568-602 | on a non-decreasing clock no moment lies in the lease periods of two holders of one run |
| RunLeases.TenuresTrackTheRow | persistence_runs.py:568-698 | the recorded lease periods are ordered and apart, and the last one is the row's own lease while it is held |
| RunLeases.TenureCount | persistence_runs.py:657-679 | there is one lease period for the creation and one for each successful claim |
| RunLeases.StageReplaysCheckpoints | persistence_events.py:110-146 | over every sequence of operations the stage column is the stage of the run's last checkpoint saved since its row was created; one saved before changes no row |
| RunLeases.LeaseRefusedExactlyWhen | persistence_runs.py:558-565 | a lease is refused exactly outside 30 to 900 seconds, a renewal or a claim also under the empty worker id |
| RunLeases.LeasesWereAskedFor | persistence_runs.py:558-679 | over every sequence of operations a held run's lease ends 30 to 900 seconds after some creation, renewal or claim of it that asked for just that |
| RunLeases.ReleaseExactlyWhen | persistence_runs.py:682-705 | a release says so exactly when it gives back a running row of this worker, and otherwise changes nothing |
| RunProtocol.SucceededRunsAreCommitted | server.py:1086-1107 | in every interleaving of chat requests, heartbeats, sweeps and recovery requests, with a rollback or a lost reply at any storage call and a crash between any two, a succeeded run committed its batch by exactly one append and the table holds exactly that batch for it |
| RunProtocol.PersistedStagesAreCommitted | server.py:543-579 | stage `response_persisted` or `completed`, or `response_ready` with a nonzero message count, implies the append committed; a completed run is not running |
| RunProtocol.AttemptedTransitionsAreLegal | server.py:1000-1130 | every stage move a chat request asks for is legal, on every success, failure and swallowed-write path |
| RunProtocol.HistoryAlwaysReadsBack | persistence_runs.py:41-66 | in every reachable state each session's history is the tail of the committed batches joined in commit order |
| RunHeartbeats.BeatRenewsExactlyWhen | server.py:74-90 | a beat of a waiting request extends the lease to 120 seconds from now and raises the lease version exactly when its run is running under its own worker on a lease in force and the call is not rolled back; otherwise it changes nothing |
| RunHeartbeats.BeatGoesOnExactlyWhen | server.py:74-90 | the heartbeat goes on exactly when that renewal took effect and its reply arrived |
| RunHeartbeats.StoppedForGood | server.py:74-90 | over every execution a heartbeat that has stopped, at a refusal, an error or the end of the model run, never beats again |
| RunHeartbeats.BeatsKeepTheRun | server.py:989-1016 | in every interleaving in which less than 120 seconds pass between the creation of the run, the committed beats and any later moment of the wait for the model, the run is then held by its own worker on a lease in force until 120 seconds after the last of these, and no sweep, recovery or other request changes its row |
| RunHeartbeats.LateSweepOrphansExactlyWhen | persistence_runs.py:587-607 | from such a moment a sweep some seconds later orphans the run exactly when 120 seconds have then passed since the last lease step |
| RunOutcomes.SuccessIsUndoneExactlyWhen | server.py:1108-1118 | from any state a step turns a succeeded run into a failed one exactly when it is a chat request on that run committing its failing finish |
| RunOutcomes.SuccessLastsExactlyWhen | server.py:1086-1130 | in every interleaving a succeeded run is still succeeded later exactly when the last finish of it to commit since then, if any, was not a chat request's failing one |
| RunOutcomes.FailureLastsExactlyWhen | server.py:563-579 | in every interleaving a failed run stays failed exactly until a recovery commits its finish, and is then never failed again |
| RunOutcomes.FencedFailureIsFinal | server.py:478-579 | while no handler writes after another has claimed its run, a failed run stays failed |
| RunOutcomes.LostReplyFailsASucceededRun | server.py:1099-1118 | a reached state in which one chat request alone, having lost one reply, fails the run it has just succeeded |
| RunOutcomes.RecoverySucceedsAFailedRun | server.py:563-579 | a reached state in which a recovery turns a failed run into a succeeded one |
| RunLostReplies.FencedSuccessIsUndoneExactlyWhen | server.py:1099-1118 | in a fenced execution the next fenced step fails a succeeded run exactly when it commits the failing finish of the chat request whose own succeeding finish had committed with its reply lost |
| RunLostReplies.FencedSuccessLastsExactlyWhen | server.py:1086-1130 | over a whole fenced execution a succeeded run ends failed exactly when that happened to it after the cut, and succeeded otherwise |
| RunClaims.ClaimIsLostExactlyWhen | server.py:543-585 | in every execution a step takes a run away from the recovery that holds its latest claim exactly when a sweep commits after the lease ran out, or any recovery of the run, whatever its attempt, commits a release under the holder's worker id |
| RunClaims.StaleReleaseTakesTheClaim | persistence_runs.py:682-702 | a reached state in which the late release of one recovery gives back the run that a second recovery of the same process holds on an unspent lease |
| RunHandlers.ChatMessage | server.py:941-1134 | the straight-line handler, run without interruption and with any faults, leaves the store where its step-by-step form leaves it; a success reply means the row exists and succeeded, and comes exactly when the run id was new, the model answered, and the session, history, creation, append and finish calls did not fail |
| RunHandlers.ResumeRun | server.py:467-605 | the straight-line recovery handler equals its step-by-step form under any faults, a recovered reply means the row succeeded, and the reply is the one `RunReplies` characterizes by the stored row and the faults |
| RunHandlers.RecoveredExactlyWhen | server.py:467-605 | without storage errors a run is recovered exactly when, once swept, it is orphaned and claimable and its answer is stored |
| RunReplies.RepliesExactlyWhen | server.py:478-541 | without storage errors a resume request is answered not found exactly without a row; already completed exactly when the run succeeded; terminal failure exactly when it failed; busy exactly when it runs and neither is orphaned nor has an active lease that ran out; and for a deserted run by its stage: a new run from `created` or `context_loaded`, a review from `model_running`, nothing from a terminal stage |
| RunReplies.TailRepliesExactlyWhen | server.py:543-600 | for a deserted run whose stage is `response_ready` or `response_persisted`: an unhandled error exactly under the empty worker id, a failed claim exactly while a lease is in force, not persisted exactly when the answer is not stored, recovered otherwise |
| RunReplies.FaultsAreReportedExactlyWhen | server.py:467-605 | with any faults: a failed load exactly when the sweep or the read fails, an unhandled error exactly when the claim call does, a failed recovery exactly when one of the calls after the claim does, and the fault-free answer otherwise |
| RunReplies.RecoveryLeaves | server.py:543-579 | the tables a fault-free recovery leaves: the sweep, and for its own run a released orphan when the answer is not stored, or an ended, completed row with the missing checkpoints when it is recovered |
| RunReplies.RequestLeaves | server.py:941-1134 | the tables a fault-free chat request for a new run leaves: session, ended run, the appended batch and the five checkpoints of the happy path, or a failed run with three checkpoints and no message when the model fails |
| RunReplies.ChatFaultsLead | server.py:916-1134 | where each failing call of a chat request leads: before the run exists to its end, at a checkpoint nowhere else than without the failure, at the append or the succeeding finish to the failing finish, and from there to the failed checkpoint either way |
| RunReplies.RecoveryFaultsLead | server.py:467-600 | a recovery whose sweep, read or claim fails is over, one whose later call fails backs out once |
| RunReplies.DeadStayDead | server.py:467-1134 | over every execution a request whose process died never takes another step |
| RunHandlers.SaveStage | server.py:916-939 | the local stage moves exactly on a legal transition; the checkpoint is written only then, and a storage error leaves the local move in place |
| RunStageOrder.StageMovesBackExactlyWhen | server.py:543-579 | when no handler writes after another has claimed its run, a step takes the stored stage back exactly when a recovery marks `response_persisted` on a row whose stage is `failed` |
| RunStageOrder.StageNeverMovesBack | server.py:478-579 | over a whole fenced execution without that one write the stored stage never moves back, even though recovery acts on the stage it read before its claim |
| RunStageOrder.TerminalStageChangesExactlyWhen | server.py:555-579 | in a fenced execution a step changes a terminal stage exactly when it is a recovery marking over `failed`; a stored `completed` never changes |
| RunStageExamples.FencedStageCanMoveBack | server.py:1108-1130 | a concrete fenced run, reached step by step, in which `failed` is overwritten by `response_persisted` |
| RunStageExamples.LostAppendReplyLeadsThereToo | server.py:1086-1130 | a second route to that state: an append whose reply was lost, then a rolled-back failing finish |
| RunStageExamples.FencedFailedCanBecomeCompleted | server.py:563-579 | a concrete fenced run in which a recovery takes `failed` to `completed` |
| RunStageExamples.UnfencedStageCanMoveBack | server.py:916-939 | a concrete run in which a late, unfenced chat request takes `completed` back to `response_persisted` |
| RunStageDrops.StageDropsExactlyWhen | server.py:916-939 | in every execution, fenced or not, a step takes the stored stage back exactly when it stores `response_persisted` over `completed` or `failed` |
| RunStageDrops.StageNeverDrops | server.py:478-585 | over a whole execution, fenced or not, without such a step the stored stage never moves back |
| AuditChain.AuditTable.AppendAuditEvent | persistence_audit.py:23-86 | appending under the lock extends the one chain by an event linked to its head |
| AuditChain.AuditTable.VerifyAuditChain | persistence_audit.py:410-476 | the loop accepts exactly the windows in which every row links to its predecessor and carries its own digest, and reports the count and the limit correctly |
| AuditChain.WindowsAgreeOrCollide | persistence_audit.py:437-469 | two accepted windows of one length ending in one hash agree on every hashed field of every row, or the digest collides on two of their rows |
| AuditChain.TamperingIsDetected | persistence_audit.py:48-60 | with an injective digest, no change to a hashed field of any row keeps both acceptance and the newest hash |
| AuditChain.TruncationIsAccepted | persistence_audit.py:410-476 | cutting off the newest rows is not detected |
| AuditChain.ChainWindowsAccepted | persistence_audit.py:410-476 | every window of a chain is accepted |
| AuditChain.AcceptedIsChain | persistence_audit.py:437-469 | for windows reaching the first event acceptance is the whole-chain property |
| AuditTransactions.CommittedEventsFormOneChain | persistence_audit.py:34-86 | for any interleaving of committing and aborting transactions, each appending any number of events under the advisory lock, the committed events form one unforked chain in id order and every window verifies |
| AuditTransactions.CommittedOnlyGrows | persistence_audit.py:34-86 | no step rewrites or removes a committed event |
| AuditTransactions.AppendGoesThroughExactlyWhen | persistence_audit.py:23-86 | in every reachable state a transaction between two appends commits its events and one more, linked to the last of them or of the committed ones, and frees the lock, exactly when no other transaction that is still going holds the lock |
| AuditTransactions.OverForGood | persistence_audit.py:23-86 | over every interleaving a transaction that is over stays over |
| AuditTransactions.AbortDropsItsEvents | persistence_audit.py:23-86 | an aborted transaction ends, drops what it had inserted and frees its lock, and nothing committed changes |
| AuditTransactions.RacedCommits | persistence_audit.py:34-86 | the same transaction steps without the lock: two that both read the head before either inserts commit two events with that head as predecessor |
| AuditTransactions.WithoutTheLockTheChainForks | persistence_audit.py:34-40 | after that race, on a chain of any length, the log is a chain and a window holding both events is accepted exactly when the first event's digest is the head it was computed from |
| PendingActions.ActionStore.CreatePendingAction | persistence_audit.py:89-174 | the new table, the audit event and the reply of a creation, with and without an idempotency key |
| PendingActions.ActionStore.ApprovePendingAction | persistence_audit.py:177-251 | the new state and outcome of an approval, including expiry, a foreign user and a missing row |
| PendingActions.ActionStore.ClaimPendingActionExecution | persistence_audit.py:254-311 | the new state and outcome of a claim; only an approved action moves |
| PendingActions.ActionStore.CompletePendingAction | persistence_audit.py:314-360 | the new state and outcome of a completion; only an executing action moves |
| PendingActions.ActionStore.RejectPendingAction | persistence_audit.py:363-407 | the new state and outcome of a rejection; only a pending action moves |
| PendingActions.ActionStore.ExecuteApprovedAction | server.py:632-657 | the new state, the reported status and whether it executed, for a refused claim, an unsupported tool and a completed execution |
| PendingActions.TrailIsTheScript | persistence_audit.py:177-407 | whatever calls interleave, an action's status-changing audit events are exactly the script of its status, and replaying them from pending gives the stored status |
| PendingActions.StartsAreAudited | persistence_audit.py:254-311 | the number of times an action was told to execute is the number of its execution-started events |
| PendingActions.ExecutionStartsAtMostOnce | persistence_audit.py:254-311 | an action starts execution at most once, only after an approval event, and never with a rejection or expiry event |
| PendingActions.KeysStayUnique | persistence_audit.py:99-129 | run and idempotency key identify at most one action in every reachable state |
| PendingActions.KeyedCreationIsIdempotent | persistence_audit.py:130-152 | a first creation under a key logs an idempotency hit and no created event, and a repeated one returns the first action and changes none |
| PendingActions.InsertLogsCreatedExactlyWhen | persistence_audit.py:130-174 | a creation that inserts its action logs a created event for it exactly when it gives no key or the empty one, and an idempotency hit otherwise |
| PendingActions.CreationStraysExactlyWhen | persistence_audit.py:130-174 | a creation leaves a created event for a missing action exactly when the empty key is taken and the id is new, and the call then fails |
| PendingActions.CreatedEventExactlyWhen | persistence_audit.py:103-174 | over every run an id has a created event exactly when its action was inserted without a key or under the empty one, or a creation under that id met a taken empty key |
| PendingActions.CreatedEventsNameActionsExactlyWhen | persistence_audit.py:103-174 | every created event names an action exactly when every id that met a taken empty key was inserted; every action has one exactly when each was unkeyed or its id met such a conflict; callers that never pass the empty key never cause one |
| PendingActions.EmptyKeyLeavesAStrayEvent | persistence_audit.py:130-174 | two creations of one run under the empty key reach a created event for a missing action |
| ActionOutcomes.ApprovalExactlyWhen | persistence_audit.py:177-251 | a pending action of the calling user is approved exactly before its expiry and found expired exactly from then on, each with its event; any other call changes nothing, missing and foreign ids are told so, and execution may go on exactly when the user's action is then approved |
| ActionOutcomes.ClaimExactlyWhen | persistence_audit.py:254-311 | a claim starts exactly the calling user's approved action, with its event, and otherwise changes nothing |
| ActionOutcomes.EndExactlyWhen | persistence_audit.py:314-407 | a completion ends exactly the calling user's executing action, a rejection exactly the calling user's pending one, and otherwise nothing changes |
| ActionOutcomes.CreationExactlyWhen | persistence_audit.py:89-174 | a creation inserts a pending action that expires in 900 seconds exactly when its id is new and its run has no action under its key; it is refused exactly on a known id without such a key |
| ActionOutcomes.RepeatedKeyAnswers | persistence_audit.py:130-152 | a taken non-empty key answers with the action the run has under it, logs a hit and changes no action |
| ActionOutcomes.ApprovedWithinLifetimeExactlyWhen | persistence_audit.py:195-240 | over every run of calls the next call logs an approval exactly when it approves a pending action as the user who created it less than 900 seconds after that creation, and an expiry exactly when it does so 900 seconds or more after it |
| AuthBackoff.AuthThrottle.AuthorizeOwner | auth.py:73-108 | throttle check, token check, then record or clear: the new failure table and the verdict |
| AuthBackoff.AuthThrottle.ThrottleDelay | auth.py:26-37 | the delay a client must still wait, with the reset after fifteen minutes |
| AuthBackoff.AmortisedBackoffBound | auth.py:15-46 | for one client that never logs in, n processed failures and T seconds between the first and the last satisfy 60 n <= T + 357, whatever resets happen in between |
| AuthBackoff.BoundIsTight | auth.py:26-42 | for every n >= 7 some run meets that bound with equality |
| AuthBackoff.KeysAreIndependent | auth.py:73-93 | one client's attempts do not touch another's entry, and a throttled client is refused even with the right token |
| AuthStreaks.RecordsCountStreaks | auth.py:26-47 | over every run of requests a client has a record exactly when it has failed since its last login, and the record counts its failures since that login, or since the last failure that found earlier ones more than 900 seconds old, with the time of the last |
| AuthStreaks.LoginForgets | auth.py:94-101 | after a login the client has no record whatever other clients do; its next request is not throttled, and if it fails it is the first failure |
| AuthStreaks.ThrottledExactlyWhen | auth.py:26-37 | after any run of requests the next one is refused unseen exactly when the client's last failure is at most 900 seconds old and less than 1, 2, 4, 8, 16, 32 and from then on 60 seconds ago for the 1st, 2nd, 3rd, ... failure in a row |
| Alerts.SeverityIsMonotone | alerting.py:53-65 | a worse value or a larger sample never lowers the severity |
| Alerts.AlertTable.PersistEvaluations | persistence_runs.py:254-338 | the batch loop stores the transition of every evaluation in order, with its event |
| AlertTransitions.TransitionExactlyWhen | alerting.py:156-213 | by the stored row: an unhealthy evaluation opens exactly over a healthy or missing row, escalates exactly over an unhealthy row it is strictly worse than, is suppressed exactly when it is no worse and no trigger lies within the cooldown, and is silent otherwise; a healthy one recovers exactly over an unhealthy row; and the stored times, counters and evidence follow the event |
| AlertTransitions.TransitionIsDetermined | alerting.py:156-213 | these conditions fix the event and the stored row |
| AlertTransitions.BatchExactly | persistence_runs.py:254-338 | a batch appends to the audit, in order, the event each evaluation calls for on the row it finds, which is what the last evaluation of its rule in the batch stored or else the row from before |
| Alerts.RulesStayInOrder | alerting.py:156-213 | for every sequence of evaluations of any rules on a non-decreasing clock, each rule's events are (opened (escalated or suppressed)* recovered)* with at most one open tail, and its row agrees with them |
| Alerts.SuppressionsTakeCooldowns | alerting.py:156-213 | opened minus recovered is one exactly while the alert is active, `suppressed_count` counts the suppressed events, and suppressed_count * cooldown is at most last trigger minus first opening |
| AlertCommits.BracketsCommittedExactlyWhen | persistence_runs.py:264-333 | in every interleaving of concurrent batches that commit, abort and wait for each other's row locks, a rule's committed events stay well bracketed, and open exactly while its committed row is unhealthy, exactly when no batch that overwrote an unhealthy row of the rule it had read as absent ever commits |
| AlertCommits.RowsCommittedExactlyWhen | persistence_runs.py:264-333 | for batches that name the rule at most once, the committed row's counters and times stay right too exactly when no batch commits after writing over a row it had read as absent that is unhealthy or already has events, except an opening when nothing was suppressed yet and the first event is no later |
| AlertCommits.DeployedRulesAreNamedOnce | alerting.py:68-142 | the batches made of the deployed rules, which are all the service persists, name each rule at most once |
| AlertRaces.BracketsStayExactlyWhen | persistence_runs.py:264-333 | in every interleaving of concurrent batches, a rule's events stay well bracketed and open exactly while its row is unhealthy, both as committed and as the uncommitted holder of its lock sees them, exactly when no batch overwrites an unhealthy row of the rule that it had read as absent |
| AlertRaces.RulesStayInOrderExactlyWhen | persistence_runs.py:264-333 | in the same two views the row's counters and times stay right too exactly when no batch writes over a row it had read as absent that is unhealthy or already has events, except an opening when nothing was suppressed yet and the first event is no later |
| AlertRaces.BlindTransitionExactlyWhen | alerting.py:156-213 | one transition worked out without a row, written over any orderly row, keeps the rule in order exactly under that condition |
| AlertRaces.FirstRowRaceExactlyWhen | persistence_runs.py:264-276 | two batches that both found a rule without a row and wrote it one after the other leave it in order exactly when the first one written found it healthy |
| AlertRules.EvaluateRuntimeRules | alerting.py:68-142 | the loop evaluates every policy against its own reading |
| AlertRules.FailureRuleExactly | alerting.py:40-47 | the failure rule is silent below five runs, then critical from three failures in four and warning from two in five, in whole numbers |
| AlertRules.BinaryRulesExactly | alerting.py:8-23 | the service and audit rules never warn: they are critical exactly when unhealthy |
| AlertRules.CountingRulesExactly | alerting.py:24-39 | lost runs or leases warn from the first and are critical from the third, failed recoveries from the first and the second |
| AlertRules.ReportsExactly | alerting.py:68-142 | the value, the sample size and the cooldown each rule reports |
| AlertRules.MonitoringStaysInOrder | persistence_runs.py:264-333 | with the deployed policies and a clock read anew for each evaluation, any series of metrics leaves every rule well bracketed with a full policy cooldown behind each suppression |
| Ingest.DocumentStore.CreateOriginalSource | persistence_docs.py:53-129 | blob and source row in one transaction, with its rollback and its lost reply |
| Ingest.DocumentStore.DeleteOriginalSource | persistence_docs.py:229-256 | the source goes, and its blob exactly when no other source shares it |
| Ingest.DocumentStore.InsertDocument | persistence_docs.py:367-459 | an existing hash wins over the insert, a clash of document ids is an error, otherwise the row appears |
| Ingest.DocumentStore.FindDocumentByHash | persistence_docs.py:29-50 | the one document with the hash, or none |
| Ingest.DocumentStore.IngestDocument | my_files.py:343-464 | the straight-line upload, with any faults, leaves the store and the answer its step-by-step form gives |
| Ingest.HashesStayUnique | persistence_docs.py:389-457 | with any number of uploads interleaved, failing or dying anywhere, no two documents share a hash and the error for a conflict without a row is never raised |
| Ingest.NamedSourceIsGoneExactlyWhen | my_files.py:443-464 | in every run a document's source is missing exactly when, at some step, its upload's store committed that document with the reply lost, and at some step the removal of the source committed |
| Ingest.NamedSourcesSurvive | my_files.py:404-464 | when storage errors mean rollback, no source a document names is ever deleted, and it has the document's hash |
| Ingest.LostReplyDeletesANamedSource | my_files.py:454-456 | for every upload a run exists that ends with a document whose source is gone |
| Ingest.CorrespondExactlyWhenBalanced | my_files.py:374-464 | sources and documents correspond one to one exactly when no upload is between its two inserts or has left one of them behind |
| Ingest.QuietStoreIsExact | my_files.py:374-464 | once every upload has ended without a storage error, sources and documents correspond one to one and the blobs are exactly the documents' hashes |
| Ingest.SourcesReadBack | persistence_docs.py:71-114 | with an injective digest every source reads back the bytes its upload brought, even from a blob another upload wrote |
| Ingest.AcceptedBytesHaveOneDocument | my_files.py:374-464 | an upload that was stored or reported as a duplicate left exactly one document with the hash of its bytes |
| IngestAnswers.UploadAnsweredExactlyWhen | my_files.py:343-464 | alone and without faults an upload is refused exactly when it is invalid, answered with the document that has its bytes exactly when there is one, and accepted exactly when nothing stands in the way, which leaves exactly its document, source and blob; otherwise documents and sources stay as they were |
| IngestAnswers.AnswersAreTrue | my_files.py:343-464 | in every interleaving an accepted upload has stored a document with its bytes, one answered with a document has one with its bytes there, and none is told of a conflict without a row |
| IngestAnswers.CreationRepliesExactlyWhen | persistence_docs.py:53-129 | a source is created exactly for a new id and nonempty bytes; empty bytes are a value error, a known id a storage error |
| IngestAnswers.InsertionRepliesExactlyWhen | persistence_docs.py:367-459 | a document is inserted exactly when hash and id are new; a known hash is reported, a known id alone is a storage error |
| IngestAnswers.CrashedStaysPut | my_files.py:343-464 | over every interleaving an upload whose process died never goes on |
| IngestAnswers.UploadFaultsLead | my_files.py:374-470 | where each failing call of an upload leads: to a storage error, except that a failure to store first removes the source and a failed status update is only logged; and an upload that lost the race is answered with the winner |
| Chunking.ChunkContent | my_files.py:244-262 | the loop terminates for every text and every overlap below the size and yields the stripped non-blank texts of the windows, in order |
| Chunking.WindowsCover | my_files.py:244-262 | the windows start at the beginning, move strictly right, leave no gap, reach the end and are at most the size long |
| Chunking.WindowsRebuildTheText | my_files.py:244-262 | laying the windows down in order rebuilds the text exactly |
| Chunking.NoTextIsLost | my_files.py:244-262 | every non-whitespace character is in some chunk of at most the size, at its own place |
| Chunking.WindowCountIsLinear | config.py:48-51 | with overlap at most half the size there are at most 1 + n / (size/2 + 1 - overlap) windows, and no more chunks than windows |
| Chunking.WindowsAreExact | my_files.py:244-262 | each window but the last ends at the last space past its middle, or at the size limit without one; the next begins `overlap` characters before that end, or one character on when the window is no longer than the overlap; and only the last reaches the end of the text |
| Chunking.ChunksAreTheWindows | my_files.py:255-261 | the chunks are the stripped texts of the windows that are not blank, in order |
| Chunking.BuiltPageByPage | my_files.py:265-294 | the chunks of each page follow those of the pages before it, in order, under its page number |
| Chunking.BuildChunks | my_files.py:265-294 | chunks are numbered 0, 1, 2, ... across all pages in page and text order |
| Text.StripBoundsAreTight | my_files.py:255 | stripping removes whitespace only and leaves none at either end |
| HybridRanking.FuseList | my_files.py:630-634 | one pass over a list updates the dictionary as the recursive definition says and remembers new keys once |
| HybridRanking.FusedIsIdeal | my_files.py:629-634 | after both passes the key set is the union, each score is the exact sum of 1/(k + rank) over the lists, and the row is the first list's |
| HybridRanking.OneShareEach | my_files.py:630-634 | in a list without repeated keys a key earns exactly one share, for its own position |
| HybridRanking.RerankScore | my_files.py:597-619 | the score is the fused score plus the bonus for content, filename and heading matches and for all terms on one line |
| HybridRanking.BonusIsBounded | my_files.py:597-619 | the bonus is between 0 and 0.05 per query term plus 0.01, the top being reached only when content and filename hold every term and one line holds them all |
| HybridRanking.HybridResults | my_files.py:622-646 | the answer is the top_k prefix of the ranking of the two lists |
| HybridRanking.RankingIsUnique | my_files.py:638-646 | there is only one list that is ordered by score, document and chunk and has every key of either list once with its ideal score |
| HybridRanking.RankingIgnoresListOrder | my_files.py:629-634 | swapping the two lists changes nothing when the rows they share agree |
| RankingOrder.ResultsAreBestFirst | my_files.py:638-646 | for any top_k the answer runs from the highest score to the lowest, ties by document in code-point order and then by chunk, and every row it leaves out comes after all it gives |
| RankingOrder.ItemExactly | my_files.py:629-637 | a row found once by each list scores 1 / (k + rank) for each, keeps what the text list says of it, and adds the bonus of that row |
| RankingOrder.BonusInHundredths | my_files.py:597-619 | the bonus in hundredths: one per query term in the content, two in the filename, two in the lines whose first character past whitespace is a number sign, one when some line has every term |
| GreedySelection.KeepsTheFirstBest | skill_tools.py:858-866 | what is kept for a URL is the first candidate to reach that URL's highest priority |
| GreedySelection.BestIsBest | skill_tools.py:858-866 | one kept candidate per URL, each from the input, none beaten by another with its URL |
| GreedySelection.SelectionIsFeasible | skill_tools.py:873-888 | the selection has distinct known URLs, at most two per domain, and at most the limit in length |
| GreedySelection.SelectionSizes | skill_tools.py:873-888 | at most five sources in the fast mode and six in the deep one, no three from one domain |
| GreedySelection.GreedyIsOptimal | skill_tools.py:858-888 | against every selection the caps allow, the greedy one is at least as long and its i-th best priority is at least the i-th best of the other |
| GreedySelection.RankAndDeduplicate | skill_tools.py:853-898 | the dictionary, sort and counter loops compute that selection and report the number of candidates |
| Ordering.SortIsStable | skill_tools.py:868-872 | elements that tie under the sort key keep their order |
| Ordering.SortedUnique | search_fabric.py:582-589 | two sorted arrangements of the same tie-free elements are equal |
| Ordering.StringLeIsLexicographic | search_fabric.py:582-589 | the string order is the lexicographic one by code point |
| SearchMerge.GroupResults | search_fabric.py:514-537 | the loops place every result by exact URL, then by the first near group, then in a new one |
| SearchMerge.GroupsPartition | search_fabric.py:514-537 | each group is exactly the results assigned to it, in order, every result is assigned to one nonempty group, and the URL index agrees |
| SearchMerge.EqualUrlsShareAGroup | search_fabric.py:516-520 | results with equal canonical URLs are in the same group |
| SearchMerge.NewUrlsJoinTheFirstNearGroup | search_fabric.py:521-537 | a URL met for the first time joins the first group whose head is near, and heads a new group only when none is |
| SearchMerge.RepresentativeIsFirstMaximal | search_fabric.py:541-549 | a group's representative is the first result no other exceeds |
| SearchMerge.RanksAreMinima | search_fabric.py:550-555 | a provider is ranked exactly when it offers something in the group, at the least rank it offers |
| SearchMerge.LeastRankIsLeast | search_fabric.py:571 | the fused rank is the least rank in the group |
| SearchMerge.GroupsShareNoUrl | search_fabric.py:514-537 | no URL is in two groups |
| SearchMerge.FusedUrlsDiffer | search_fabric.py:539-581 | the fused results have pairwise distinct URLs |
| SearchMerge.MergeIsUnique | search_fabric.py:582-590 | there is exactly one answer that orders the groups' fused results by the sort key, and its length is that of the slice to max_results, negative or not |
| MergeOrder.FuseGroupIsFused | search_fabric.py:539-581 | a group's fused result has the first result with the longest content, then primary, then least rank; every provider's least rank in order of first result; and the sum of 1 / (k + rank) over them, plus 0.03 for a primary representative, 0.12 more when the query is official, and the recency term |
| MergeOrder.MergeIsBestFirst | search_fabric.py:582-590 | the answer runs from the highest score to the lowest, ties to the primary source, then the lower rank, then the smaller URL, and no group that is cut off comes before one that is kept |
| SearchMerge.MergeResults | search_fabric.py:509-590 | the loops return that answer and the number of groups |
| DelimitedText.SplitJoin | evidence_citations.py:9-16 | reading a text written from fields gives the fields back |
| DelimitedText.JoinSplit | evidence_citations.py:9-16 | whatever is read was written from exactly those fields |
| Numerals.NumberOfDecimal | evidence_citations.py:136-137 | reading a printed number gives it back, and what is printed has no leading zero |
| Numerals.DecimalOfNumber | evidence_citations.py:136-137 | an ASCII digit string without a needless leading zero is what its number prints as |
| Citations.ParseIsTheMatch | evidence_citations.py:131-138 | reading succeeds exactly on the texts the pattern matches in full, and the groups are determined by the text |
| Citations.CitationReadsBack | evidence_citations.py:65-85 | reading a printed citation with a trust over capitals and underscores returns the normalized fields and the label |
| Citations.ReadableExactlyWhenTrustShouts | evidence_citations.py:15 | a printed citation is accepted by the reader exactly when its trust is over capitals and underscores |
| Citations.RenderingIsInjective | evidence_citations.py:65-85 | different normalized items or labels print differently, whatever their trust |
| Citations.ReadCitationPrintsBackExactlyWhen | evidence_citations.py:131-138 | a citation that is read prints back unchanged exactly when its line numbers are plain decimals and the printer accepts its path, lines and length |
| Citations.VerifyEvidenceCitation | evidence_citations.py:141-167 | the loop accepts exactly the citations that read, name the expected label and agree with some valid item in every field |
| Citations.OwnCitationVerifiesExactlyWhen | evidence_citations.py:141-167 | a printed citation verifies against a collection holding its item exactly when its trust is over capitals and underscores |
| Citations.RenderEvidenceCitations | evidence_citations.py:88-98 | the loop prints the first 24 items' citations in order, each once |
| Citations.CitationsAreTheRendered | evidence_citations.py:88-98 | exactly the printable items are cited, none twice |
| EvidenceText.SafePathExactlyWhen | evidence_citations.py:46-54 | a path is accepted exactly without semicolon and closing bracket, not beginning with a slash of either kind, and without two dots between slashes of either kind or the ends |
| EvidenceText.BytesAreCounted | evidence_citations.py:83-84 | the checked length is the number of bytes of the text's UTF-8 form (section 3 of RFC 3629), which reads back |
| EvidenceText.RenderedFitInBytes | evidence_citations.py:83-84 | no printed citation takes more than 600 bytes |
| EvidenceText.LowerExactly | evidence_citations.py:44-58 | digests are lowered letter by letter and nothing else in them changes |
| CitationTransport.RenderEvidenceReport | evidence_citations.py:170-195 | the loop builds the report of the first 24 usable envelopes |
| CitationTransport.ReportMarkers | eval_http.py:37 | the markers found in a report are exactly its citations, in order, when targets and statuses hold no opening bracket |
| CitationTransport.ExtractedOnceInOrder | eval_http.py:36-39 | what is extracted is sorted and holds each text once |
| TraceScan.ExtractionIsTheScans | eval_http.py:36-39 | what is extracted from any text is exactly the leftmost, longest, non-overlapping matches of the two patterns: a bracketed source or number, and a scheme with what follows up to whitespace or a closing bracket |
| TraceScan.ScanIsUnique | eval_http.py:37-38 | a text has only one such scan for a pattern |
| CitationTransport.CitationsSurviveTheReport | eval_http.py:36-39 | from a report whose printed texts hold no URL and no bracket outside citations, exactly the printed citations are extracted |
| CitationTransport.ExtractedCitationsVerify | evidence_citations.py:141-195 | each extracted source was printed for some envelope and verifies against that envelope's items when their trust is over capitals and underscores |

## Left out

- Postgres itself, pools, schema creation and migrations: only keys, unique indexes, row locks, the advisory lock and
  transaction atomicity are modelled. Databases without the `file_hash` index are not.
- Retention, evaluation cleanup and document deletion by source id, which delete rows the invariants count.
- Overlapping blob deletions: each create and delete of a source is one serial transaction.
- Model calls, network clients, page fetching, PDF and DOCX extraction: a model run is an arbitrary batch or a failure,
  an extraction an arbitrary status and chunk count.
- The embedding tail of an upload after the document row is committed, which only changes status columns.
- URL normalisation, domain extraction, title similarity and tokenisation: canonical URLs, domains and terms are opaque
  values, similarity and tokenisation arbitrary functions, and a domain is a function of the normalized URL.
- Floating-point rounding of scores, rates and delays, and the overflow of a huge power of two in the backoff.
- The audit events that run checkpoints and failed recoveries add, and tool events: the run protocol's tables hold runs,
  checkpoints and messages; the chain they would extend is modelled in `AuditTransactions`.
- Boolean line numbers, which the source accepts as integers; the runtime's limit on digits when converting between
  strings and integers; lone surrogates, which cannot be encoded.
- Lower-casing beyond ASCII in digests, which cannot produce a valid digest.
- `build_evidence_provenance`, a second rendering of the same validated items, and `remove_model_source_markers`, whose
  single pass can leave a marker it has just formed.
- Keyword routing, health reports, benchmarks, evaluation command lines, semantic grading and the GitHub and academic
  adapters.
- SaveCheckpoint: the audit event of the same transaction is not modelled here; appending it is `AppendAuditEvent`.
- AppendNewMessages: a batch that does not decode to a list of objects is not modelled as input; the source then raises
  the storage error without writing, which in the protocol is the rolled-back append.
- LoadMessageHistory: the error for a stored message that is no object is not modelled, because appending admits only
  objects; neither is the history's conversion for the model.
- PersistEvaluations: evidence is an opaque string, and neither the audit event's metadata nor the policy columns of the
  row other than the cooldown are modelled.
- EvaluateRuntimeRules: evidence is an arbitrary function of the rule and the round.
- RowsCommittedExactlyWhen: a batch that names a rule twice, which the service never makes, is left to
  `BracketsCommittedExactlyWhen`; its second write could set the counters right that its first one lost.
- AlertRaces: the global order of audit events across rules, which the audit lock fixes, is not modelled; each rule's own
  order is.
- ExecuteApprovedAction: nothing interleaves with it; interleaved calls are `PendingActions.ExecutionStartsAtMostOnce`.
- InsertDocument: the chunk rows are a count.
- IngestDocument: the filename and content checks are one flag of the upload.
- BuildChunks: chunk metadata and absent page numbers are not modelled.
- RankAndDeduplicate: the removal of underscore-prefixed keys from the selected records and the log line are not
  modelled; a candidate's missing priority, which the callers always set, is not either.
- MergeResults: of a result only the fields the merge reads are kept.
- ChatMessage: request parsing, token checks, tool events and logging are not modelled; heartbeats appear in the
  interleaved form only.
- ResumeRun: response bodies and the audit event of a failed recovery are not modelled; a stage outside the enumeration
  is not either.
