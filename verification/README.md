# Verification of the platform's stateful core

A Dafny model of the parts of the novel-generation platform that keep state and must survive
failure, interleaving or resumption, with proofs of what they guarantee. `dafny verify
dfyconfig.toml` checks everything. Each module models one component; code that updates objects
step by step is modelled by classes and loops, each proved against a function, and the theorems
are about those functions.

| modules | component |
|---|---|
| CircuitBreaker, BreakerHistory, LlmAgent, ConcurrentAgents | the per-stage LLM circuit breaker and the endpoint loop of its clients, alone and interleaved |
| Checkpoints, RewriteTask, RewriteRuns, RewriteControl | the rewrite worker with its task row, checkpoints and scheduler; any number of workers with crashes, pauses and cancellations |
| GenerationRetry, GenerationResume | the chapter range over retries, the resume plan |
| GenerationSegments, SegmentCoverage | the segment loop of book generation, what it covers and when it ends |
| ClosurePolicy, GenerationPipeline, BookEndings, BookWritten | the runs of the pipeline inside that loop with their closure gate: which books end, and what is written when they do |
| TaskLease, TaskDispatch | leases, heartbeats and the recovery tick; slots, budgets and the dispatch round |
| ExtractorRecovery | the fact-extraction retry queue |
| FeatureFlags, FlagCacheStaleness | flag rows, audit log, declarative sync and the cache in front of them |
| LlmUsage, AgentEvents, UsageChain, UsageRaces | token accounting: sessions, events and counters, totals over all workers of a task, one after the other or overlapping |
| LoginLockout | failure counter and temporary lock |
| ConfigMerge, AiProfile | the deep merge and the AI profile resolved with it |
| Numbers, Options, Strings, Sums | shared helpers |

## What the proofs found

Where the code does not meet an expected property, the model keeps the code as it is, a lemma gives
an input, and another lemma says exactly when the property holds.

- The segment loop covers the book and ends if its runs move the next chapter past their segments; with
  runs that may or may not, it goes on for ever exactly when from some point on none does
  (`GoesForeverIff`). No run of the pipeline does (`NoPipelineRunMoves`): chapter finalisation moves the
  runtime state's next chapter only before the last chapter of a segment
  (app/services/generation/nodes/finalize.py:780-803), the closure gate's plain "continue" writes nothing
  (app/services/generation/nodes/closure.py:330-338), and the orchestrator prefers the runtime state to
  the cursor (app/tasks/generation.py:1373-1377). So a book of several segments does not get past its
  first (`PipelineNeverLeavesTheSegment`); whether it ends at all is decided by its plan
  (`EndsForSomeIff`, `EndsForAllIff`): sixty chapters in volumes of thirty never do
  (`TwoVolumesNeverEnd`).
- A book without foreshadows and plotlines has a coverage of 0, so even ten chapters in one volume can be
  generated for ever (`OneVolumeWithNothingToClose`).
- A final review that is pending is not resumed: unless the book was ended early, a restarted worker
  completes the task at once (`ExitsEarlyIff`, `AnnounceReview`).
- A displaced rewrite worker may commit more than one further chapter when its successor is reclaimed
  and the row names nobody (`DisplacedMayCommitTwice`). It commits exactly one for each check it passes,
  but for those given up or still owed (`CommitBalance`, `OneMoreCommitIff`).
- A rewrite can be completed without its target version becoming the default
  (`CompletedWithoutPublishing`), exactly by way of a worker that starts when every chapter is
  checkpointed and nothing is published (`PublishedUnlessEarlyExit`, `EarlyExitLeavesUnpublished`).
- `finalize_task` does not compare owners: a displaced worker that ends takes the task from its
  successor (`LateFinalizeIff`, `LateWorkerFailsItsSuccessor`).
- The recovery tick takes a task for running when anybody ever left a heartbeat on its row
  (`RepairedIff`, `RunningWithoutWorker`), and since heartbeats are not tied to the owner, a displaced
  worker can keep the task with a successor that died (`ForeignBeatsKeepTheTask`).
- A queued task over its budget should fail, but the table of allowed transitions leads from queued to
  failed nowhere (app/services/scheduler/scheduler_service.py:264-275). So the attempt raises, its user's
  turn is rolled back, and the round ends there (`RoundServesIff`, `BlockedStarves`,
  `OneTaskStarvesTwoUsers`).
- A flag sync whose target is not well typed or lacks a stored key never converges and logs one
  change per run (`UncoveredSyncNeverSettles`, `TruthyTextNeverSettles`).
- In the first five seconds of the monotonic clock a flag just written may read as disabled, because
  time 0 marks a stale cache (`WrittenFlagIsVisibleIff`).
- Resume planning is not idempotent on every row (`PlanningMayChangeTheVolume`), but it is on every
  row that the task's own writers produce (`ReachablePlansRepeat`).
- A retry chain keeps its range for every submission except a range `start..0` with a negative start
  (`RetriesKeepTheRangeIff`); the request schema bounds neither number
  (app/schemas/novel.py:115-121).
- A generation worker that fails before it begins its usage session overwrites the stored token
  totals with zero (`EndWithoutBeginWipesTheRow`); `RowIsExactIff` says when the totals are exact.
  A displaced one that ends after its successor overwrites them with its own
  (`DisplacedEndWipesTheSuccessor`, `SummaryIsExactIff`).
- The probe of a half-open primary is returned repeatedly to callers that exclude all three
  endpoints (`ProbeRepeatsWhenAllExcluded`), and to no others (`ReturnedAgainIff`).
- The recovery summary counts rows even when the commit fails or a retry raises and nothing is stored
  (`RunRecoveryOnce`).

Where code and comments disagree the model follows the code: `half_open_probe_ratio`
(app/core/llm_circuit_breaker.py:43) is never read, and with everything open and nothing excluded
`select_endpoint` returns fallback_a, not the primary as its docstring says
(app/core/llm_circuit_breaker.py:123, app/core/llm_circuit_breaker.py:181-194).

## Model

| member | source | states |
|---|---|---|
| CircuitBreaker.StageBreaker.RecordCall | app/core/llm_circuit_breaker.py:69-109 | one recorded outcome: a success resets the record; a failure counts, opens a closed record at its threshold, re-opens a half-open one and leaves the opening time of an open one alone; the other two records are unchanged |
| CircuitBreaker.StageBreaker.SelectEndpoint | app/core/llm_circuit_breaker.py:112-151 | the endpoint and the reported state for every combination of primary state, cooldown, probe token and exclusions, and the token it consumes |
| CircuitBreaker.StageBreaker.PickFirstClosedFallback | app/core/llm_circuit_breaker.py:181-194 | the first fallback that is neither excluded nor open, else the first one not excluded, else the primary |
| CircuitBreaker.PickFallbackIsBest | app/core/llm_circuit_breaker.py:181-194 | an endpoint is the fallback choice if and only if it is the best of the three in the order: fallbacks not excluded and not open, fallbacks not excluded, the primary, the rest, and fallback_a before fallback_b |
| BreakerHistory.StateFromLog | app/core/llm_circuit_breaker.py:69-151 | for every interleaving of the two operations: the failure counter is the trailing run of failures in the endpoint's call log, the endpoint is closed exactly while that is below its threshold, a pending probe implies half-open, a fallback is never half-open |
| BreakerHistory.ViewIsTheState | app/core/llm_circuit_breaker.py:69-151 | the primary's opening time, its half-open state and its consumed token equal a view that is computed from the events and the trailing failures alone, for every interleaving |
| BreakerHistory.ProbeOutIsConsumedToken | app/core/llm_circuit_breaker.py:128-151 | the probe token is gone exactly while a probe was handed out and no primary outcome was recorded since |
| BreakerHistory.ReturnedAgainIff | app/core/llm_circuit_breaker.py:128-151 | after a probe was handed out, and before a primary outcome is recorded, a selection returns (primary, half-open) again if and only if its caller excluded all three endpoints |
| BreakerHistory.AtMostOneProbe | app/core/llm_circuit_breaker.py:128-151 | so between two recorded primary outcomes (primary, half-open) is returned at most once, unless one of the two callers excluded all three endpoints |
| BreakerHistory.ProbeRepeatsWhenAllExcluded | app/core/llm_circuit_breaker.py:148-151 | the exception is real: with everything excluded the half-open primary is returned again and again |
| BreakerHistory.OpenedAtIsLastOpening | app/core/llm_circuit_breaker.py:91-108 | while the primary is not closed, its opening time is that of the failure that opened it last; later failures do not move it |
| BreakerHistory.SelectImplementsPolicy | app/core/llm_circuit_breaker.py:112-194 | after every history with a non-decreasing clock the selected endpoint is the one prescribed by a policy that reads the log of calls and selections and no breaker state |
| BreakerHistory.CooldownRespected | app/core/llm_circuit_breaker.py:132-151 | with a fallback available, a tripped primary that is not excluded is returned if and only if, by the log alone, its cooldown is over and no probe is unanswered |
| BreakerHistory.ReportedState | app/core/llm_circuit_breaker.py:128-151 | the state reported with the endpoint, read off the log: the primary's if the caller excluded it or it may serve, open otherwise |
| BreakerHistory.SelectHonoursExclusion | app/core/llm_circuit_breaker.py:141-194 | an excluded endpoint is returned if and only if all three are excluded |
| LlmAgent.TryEndpoint | app/services/agents/llm_agent.py:88-146 | one endpoint: no client, or three methods in order until one succeeds; exactly one outcome is recorded either way |
| LlmAgent.ServesInOrder | app/services/agents/llm_agent.py:100-146 | which method serves: json_schema, else function_calling, else json_mode |
| LlmAgent.ChosenAt | app/services/agents/llm_agent.py:80-87 | each tried endpoint is the one selected after the attempts before it |
| LlmAgent.FreshEndpoint | app/services/agents/llm_agent.py:80-86 | with fewer than three distinct attempts the next selected endpoint is a new one, so the loop's break never fires |
| LlmAgent.OneMoreAttempt | app/services/agents/llm_agent.py:80-146 | an attempt extends the breaker history by exactly its own selection and its own outcome, other callers' operations in between |
| LlmAgent.RunLlmAgent | app/services/agents/llm_agent.py:76-176 | whatever other callers do before each of its operations: each endpoint is the selected one, they are distinct and as many as attempts up to the first success, one outcome is recorded for each, and failure is returned only after one failure on each of the three |
| ConcurrentAgents.ReachableInvariant | app/services/agents/llm_agent.py:80-156 | for any number of concurrent calls, interleaved operation by operation: the stage is a function of the log, every call's endpoints are distinct, a consumed probe token has an owner in flight |
| ConcurrentAgents.NoProbeIsStranded | app/core/llm_circuit_breaker.py:128-151 | a half-open primary without its token always has a call in flight that selected it and has not recorded yet |
| ConcurrentAgents.PrimaryIsRetried | app/core/llm_circuit_breaker.py:132-146 | once no call waits for the primary and its cooldown is over, the next fresh selection is the primary |
| ConcurrentAgents.FailureMeansAllTried | app/services/agents/llm_agent.py:76-176 | in every reachable state a call that reported failure has tried all three endpoints |
| ConcurrentAgents.SoloCallIsARun | app/services/agents/llm_agent.py:76-176 | every run of RunLlmAgent, with whatever the other callers do before each of its operations, is one of the interleavings: same endpoints, same stage, same answer |
| Checkpoints.GetLastCompleted | app/services/task_runtime/checkpoint_repo.py:107-133 | the greatest completed unit, or none when there is none |
| RewriteTask.TaskStore.Schedule | app/services/scheduler/scheduler_service.py:387-623 | dispatch, repair, reclaim, abandon, pause, resume and cancel on the task row: the states in which each acts and what it does to status and owner; when each happens is the subject of TaskLease and TaskDispatch |
| RewriteTask.TaskStore.ResolveResume | app/tasks/rewrite.py:166-192 | the first chapter to rewrite, from the checkpoints in range, and the cursor left behind |
| RewriteTask.TaskStore.MarkCheckpoint | app/tasks/rewrite.py:142-163 | the checkpoint set and the cursor after one chapter |
| RewriteTask.TaskStore.Finalize | app/services/scheduler/scheduler_service.py:297-384 | a late worker cannot finalise a task that is finished, paused or queued again |
| RewriteTask.TaskStore.RepairCursor | app/tasks/rewrite.py:644-657 | the cursor after a failure points just past the last checkpoint, if there is one |
| RewriteTask.RewriteChapter | app/tasks/rewrite.py:385-565 | one loop iteration is the worker's five steps check, state check, commit, checkpoint, advance, with scheduler operations or an exception before each and every early exit |
| RewriteTask.SubmitRewriteTask | app/tasks/rewrite.py:304-688 | the whole worker, with arbitrary scheduler operations before its database steps and an exception in any of them, performs exactly the steps of the worker program up to its end |
| RewriteRuns.SoloRunIsARun | app/tasks/rewrite.py:304-688 | every run of the method SubmitRewriteTask is one of the interleavings that the invariants below are proved for |
| RewriteRuns.ReachableInvariant | app/tasks/rewrite.py:87-192 | the joint invariant of task row, checkpoints, chapter rows and all workers, kept by every worker step, exception, crash, redelivery and scheduler operation |
| RewriteRuns.CheckpointsArePrefix | app/tasks/rewrite.py:166-192 | in every run the checkpointed chapters are a prefix of the range, each has a committed row, at most one more chapter is committed, every live worker is at most one past the prefix |
| RewriteRuns.CompletedMeansDone | app/tasks/rewrite.py:566-611 | a completed task, or a target version that became the default, has every chapter of the range committed and checkpointed |
| RewriteRuns.CompletedIsFinal | app/services/scheduler/scheduler_service.py:297-384 | nothing takes a task out of the completed or the cancelled state |
| RewriteRuns.CommitBalance | app/tasks/rewrite.py:385-395 | in every run, from any moment on: a worker's commits, the chapters it gives up by exception, crash, pause or cancellation and the commit it still owes at the end are exactly the ownership checks it passes and the commit it owed at the start |
| RewriteRuns.DisplacedCommitsAtMostOne | app/tasks/rewrite.py:385-395 | a worker that never again finds the row without another owner commits at most one more chapter |
| RewriteRuns.OneMoreCommitIff | app/tasks/rewrite.py:385-396 | in any state a worker can commit one more chapter without another ownership check if and only if it has passed the status check, or has passed the ownership check of a task that is not cancelled |
| RewriteRuns.DisplacedMayCommitTwice | app/tasks/rewrite.py:71-84 | naming another worker once is not enough: after that one is reclaimed the row names nobody and the old worker goes on |
| RewriteRuns.EarlyExitIff | app/tasks/rewrite.py:337-350 | a starting worker completes the task at once if and only if every chapter is checkpointed; otherwise it starts right after the prefix |
| RewriteRuns.PublishedUnlessEarlyExit | app/tasks/rewrite.py:566-611 | in every run without an early exit of a worker before publication, a completed task's target version is the default, and so it is before any worker completes the task |
| RewriteRuns.EarlyExitLeavesUnpublished | app/tasks/rewrite.py:337-350 | conversely every such early exit, in any reachable state but a cancelled one, has a continuation that completes the task without publication |
| RewriteRuns.CompletedWithoutPublishing | app/tasks/rewrite.py:342-350 | it happens: a crash between the last checkpoint and the final commit leads to a completed task whose target version never became the default |
| RewriteRuns.LateFinalizeIff | app/services/scheduler/scheduler_service.py:297-384 | in every reachable state a worker whose row names another one changes the row's status if and only if it finalises and the row is dispatching or running; the status becomes its own and the owner is dropped |
| RewriteRuns.LateWorkerFailsItsSuccessor | app/services/scheduler/scheduler_service.py:297-384 | it happens: a displaced worker that raises fails the running task of its successor |
| RewriteControl.PauseHolds | app/services/scheduler/scheduler_service.py:387-410 | a queued, dispatching or running task is paused without an owner until the user resumes or cancels it, whatever workers and scheduler do; in the pause a worker commits a chapter only if it was past its look at the status, and then only that one |
| RewriteControl.CancelHolds | app/services/scheduler/scheduler_service.py:457-479 | a task cancelled before its end is cancelled without an owner for good, and each worker commits at most the chapter it is writing |
| RewriteControl.StoppedUntil | app/services/scheduler/scheduler_service.py:413-454 | a paused task stays paused if and only if nobody resumes or cancels it, a failed one if and only if nobody resumes it |
| RewriteControl.ResumeLeadsBack | app/services/scheduler/scheduler_service.py:413-454 | resuming queues the task with everything else kept, and the next dispatch gives it to its worker |
| RewriteControl.TransitionsAreAllowed | app/services/scheduler/scheduler_service.py:264-275 | in every run each change of the status is one of a table, by the action it names; a task has an owner exactly while dispatching or running, and only a dispatch gives it one |
| RewriteControl.StartDecidedBy | app/tasks/rewrite.py:87-109 | what a worker's first step does for every row: leave, stop, fail or run |
| RewriteControl.SupersededLeaves | app/tasks/rewrite.py:71-84 | a worker that finds another one on the row leaves without a write and never commits again |
| RewriteControl.PlanningSetsTheCursor | app/tasks/rewrite.py:166-192 | in every run planning leaves the cursor at the end of the checkpointed prefix |
| RewriteControl.CheckpointSetsTheCursor | app/tasks/rewrite.py:142-163 | a checkpoint adds its chapter and leaves the cursor at the end of the prefix |
| RewriteControl.RepairSetsTheCursor | app/tasks/rewrite.py:644-657 | the repair after an exception does the same if there is a prefix, and nothing otherwise |
| RewriteControl.LeftToItselfItCompletes | app/tasks/rewrite.py:304-611 | in every reachable state a worker that owns its task, wherever it is, completes it when left to itself |
| RewriteControl.ExceptionFailsTheTask | app/tasks/rewrite.py:612-688 | an exception anywhere in the worker's body fails a dispatching or running task and keeps its chapters |
| RewriteControl.ExceptionInTheHandler | app/tasks/rewrite.py:612-688 | an exception in the handler ends the worker, or is passed over in the cursor repair, without a write |
| TaskLease.LeasedTask.RepairActiveDispatching | app/services/scheduler/scheduler_service.py:488-525 | the repairing half of the recovery tick on one row |
| TaskLease.LeasedTask.ReclaimStale | app/services/scheduler/scheduler_service.py:528-623 | the reclaiming half, committed by itself: status, owner, lease and recovery count for every row, clock reading and idleness |
| TaskLease.LeasedTask.Refresh | app/services/task_runtime/lease_service.py:31-43 | a heartbeat moves the lease |
| TaskLease.RowIsTakenIff | app/services/scheduler/scheduler_service.py:528-598 | which rows the reclaiming half takes and what it leaves of them, for any row |
| TaskLease.TimedRunIsARun | app/services/scheduler/scheduler_service.py:387-623 | refinement: whatever the leases, clocks and heartbeats, what happens to task and workers is a run of the untimed system, so the theorems above hold |
| TaskLease.TickTakesIff | app/services/scheduler/scheduler_service.py:528-598 | in every reachable state a tick takes the task from its worker if and only if the lease has run out; it is queued again, or fails if that happened ten times before; the branch for rows without a lease is never taken |
| TaskLease.RequeuesAreCounted | app/services/scheduler/scheduler_service.py:574-598 | over the whole life of a task, resumptions included, ticks queue it again at most ten times |
| TaskLease.HeartbeatProtects | app/services/task_runtime/lease_service.py:31-43 | after a heartbeat no tick within a lease takes the task away, whatever else happens, unless it is assigned anew |
| TaskLease.SilenceLosesTheTask | app/services/scheduler/scheduler_service.py:528-598 | conversely, if nothing that could refresh a lease happened since some time, a tick more than a lease later takes the task, whoever has it |
| TaskLease.RepairedIff | app/services/scheduler/scheduler_service.py:488-512 | a tick within the lease marks an assigned task as running if and only if any worker of the task ever left a heartbeat |
| TaskLease.RunningWithoutWorker | app/services/scheduler/scheduler_service.py:488-512 | it happens: a task assigned again is marked as running before its worker exists |
| TaskLease.ForeignBeatsKeepTheTask | app/services/scheduler/scheduler_service.py:482-485 | heartbeats do not name an owner: for any number of ticks those of a displaced worker keep the task with a successor that died |
| TaskDispatch.TaskTable.Turn | app/services/scheduler/scheduler_service.py:662-806 | one user's turn: the batch that fills the free slots is dispatched, tasks with an invalid payload fail, and a task over its budget raises and rolls everything back |
| TaskDispatch.TaskTable.Round | app/services/scheduler/scheduler_service.py:818-832 | the global round commits turn after turn and ends with the first that raises |
| TaskDispatch.TurnTakesIff | app/services/scheduler/scheduler_service.py:662-760 | a task leaves the queue in its user's turn if and only if it is among the first that fit into the free slots and no such task is over its budget |
| TaskDispatch.BatchSizeIs | app/services/scheduler/scheduler_service.py:676-682 | a batch is what the free slots hold, five at most |
| TaskDispatch.RunKeepsLimit | app/services/scheduler/concurrency_service.py:16-43 | over any run of turns, new tasks and status changes that take no slot, with any budgets, a user never holds more slots than the largest limit |
| TaskDispatch.RoundServesIff | app/services/scheduler/scheduler_service.py:818-832 | what a round does to every task: its user's turn as if alone if no user up to its own has a task over its budget that is due, and nothing otherwise |
| TaskDispatch.BlockedStarves | app/services/scheduler/scheduler_service.py:264-275 | so one such task starves its user and every user after it, for any number of rounds |
| TaskDispatch.OneTaskStarvesTwoUsers | app/services/scheduler/scheduler_service.py:264-275 | it happens with two users, a slot and a task each |
| ExtractorRecovery.FailureRow.ProcessOne | app/tasks/extractor_recovery.py:47-67 | one retry: recovered if the runner succeeds, escalated at the third failure, pending otherwise, with the outcome that the summary counts |
| ExtractorRecovery.SelectPending | app/tasks/extractor_recovery.py:109-119 | the batch is the pending rows with the smallest ids, up to the limit |
| ExtractorRecovery.RunRecoveryOnce | app/tasks/extractor_recovery.py:101-128 | one tick equals its specification; the summary counts every row processed once, also when the commit fails or a retry raises, and then nothing is stored; when the tick succeeds the rows that left the queue are exactly those counted as recovered or escalated |
| ExtractorRecovery.RetryBatch | app/tasks/extractor_recovery.py:119-125 | the loop over the batch: rows and summary after its first n rows |
| ExtractorRecovery.TallyCounts | app/tasks/extractor_recovery.py:119-125 | counted as recovered is what the runner recovers, as escalated what it fails for the third time, as failed the rest |
| ExtractorRecovery.EndsAsTried | app/tasks/extractor_recovery.py:47-67 | how a pending row ends, over any run: recovered if and only if the runner succeeded at a tick that selected it, escalated if and only if all its tries failed and the third failure was among them, pending otherwise |
| ExtractorRecovery.TerminalIsFinal | app/tasks/extractor_recovery.py:47-67 | over any run pending implies fewer than three retries, and a recovered or escalated row is never touched again |
| ExtractorRecovery.BoundedResolution | app/tasks/extractor_recovery.py:101-128 | a pending row with r pending rows ahead is recovered or escalated within 3 * (r / limit + 1) effective ticks, however many newer rows arrive |
| GenerationRetry.RetriesKeepTheRangeIff | app/api/routes/generation.py:543-576 | along every chain of cancel-and-retry with arbitrary cursors each task asks for a non-empty suffix of every earlier one and range end, book start, book total and book end stay those of the submission: for every submission except those of chapters start..0 with a negative start, and for none of those |
| GenerationRetry.PayloadReads | app/tasks/generation.py:89-116 | which payload fields give range, book start, total and end |
| GenerationRetry.RetryStartsAtTheCursor | app/api/routes/generation.py:543-552 | the new task drops exactly the chapters before the cursor |
| GenerationResume.WindowHoldsTheChapterIff | app/tasks/generation.py:129-148 | the segment window satisfies start <= next <= end <= book end if and only if 1 <= next <= book end |
| GenerationResume.WindowIsStable | app/tasks/generation.py:129-148 | the window is a fixed point: computed again for any chapter in it, it stays |
| GenerationResume.WindowIs | app/tasks/generation.py:129-148 | the bounds of every window: a stored segment around the chapter keeps its start, any other starts at the chapter and is a volume long, and the book's end cuts both |
| GenerationResume.VolumeHoldsTheChapter | app/tasks/generation.py:119-126 | the number is that of the volume with the chapter in it, counted from the start of the book; 1 before it |
| GenerationResume.CreationTask.PersistRuntime | app/tasks/generation.py:424-474 | runtime state and cursor after the orchestrator's write; without a retry floor the stored one is kept |
| GenerationResume.CreationTask.MarkChapterCompleted | app/tasks/generation.py:487-511 | checkpoint and cursor after one chapter; the runtime state is left alone |
| GenerationResume.CreationTask.RepairCursor | app/tasks/generation.py:1574-1591 | the cursor of a failed or paused worker points just past the last checkpoint |
| GenerationResume.CreationTask.ResumeFromCheckpoints | app/tasks/generation.py:650-690 | the planner's fallback from the checkpoints in range |
| GenerationResume.CreationTask.ResolveResume | app/tasks/generation.py:514-692 | the plan and the cursor for every stored mode |
| GenerationResume.PositionReads | app/tasks/generation.py:541-559 | chapter: the runtime state's if set, else the cursor's, else the payload's; end: the runtime state's, else the later of book and task |
| GenerationResume.VolumeAtReads | app/tasks/generation.py:561-569 | the stored volume counts while the chapter is not past the stored segment, else the one with the chapter in it |
| GenerationResume.PlanOfTheBook | app/tasks/generation.py:530-542 | book start, total and end of every plan, the end the latest of the three known |
| GenerationResume.PlanOfAStoredMode | app/tasks/generation.py:577-640 | mode, chapter, window and volume of the plan for a stored segment, a finished book and a pending review |
| GenerationResume.FloorOfAStoredMode | app/tasks/generation.py:560-640 | the retry floor of those plans |
| GenerationResume.PlanFromTheCheckpoints | app/tasks/generation.py:650-690 | any other mode resumes after the greatest checkpoint in range, with a volume-long segment, that chapter as floor and the volume with it |
| GenerationResume.PlannerWrites | app/tasks/generation.py:585-666 | the planner keeps the runtime state and leaves the cursor at the plan's chapter, after the one before it unless nothing is completed |
| GenerationResume.EveryWriterKeepsTheCursorCoherent | app/services/task_runtime/checkpoint_repo.py:156-181 | over any sequence of planner, orchestrator, pipeline, checkpoint, repair and user writes: whenever the cursor names a last completed chapter, next is the one after it |
| GenerationResume.WritersWrite | app/tasks/generation.py:424-511 | the row after the orchestrator's write, a completed chapter and a repair, in its columns |
| GenerationResume.RequeueRaisesTheFloor | app/services/scheduler/scheduler_service.py:413-454 | the user's resume moves the floor to the cursor's chapter if it has one, and nothing else |
| GenerationResume.PlanHasAWindow | app/tasks/generation.py:570-649 | a plan to write chapters, from the runtime state or from the checkpoints, has a window around its first chapter, inside the book, if and only if that chapter is one of the book's |
| GenerationResume.PlanningIsIdempotentIff | app/tasks/generation.py:541-649 | planning twice in a row gives the same plan if and only if the runtime state names the chapter, or the cursor's chapter and the task's first chapter lie in the same volume |
| GenerationResume.PlanningMayChangeTheVolume | app/tasks/generation.py:557-569 | a cursor before the task's first chapter makes the second plan name another volume |
| GenerationResume.ReachablePlansRepeat | app/tasks/generation.py:514-692 | in every row that the task's own writers can produce, planning is idempotent in all modes |
| GenerationResume.ExitsEarlyIff | app/tasks/generation.py:1124-1162 | exactly when a restarted worker finds nothing left; with the final review pending that is so unless the book was ended before its planned end |
| GenerationSegments.VolumeChunks | app/tasks/generation.py:186-202 | chunk k is volume k + 1, starts k volume sizes after the start, and the chunks are as many as it takes, none empty |
| GenerationSegments.RunSegment | app/tasks/generation.py:1247-1404 | one iteration of the segment loop, with the writes and the re-read of the row, is the loop law for any state the run leaves: a new segment right after a run that moved past its segment, the same segment, resumed wherever the run left it, after one that did not |
| GenerationSegments.ReadBackIs | app/tasks/generation.py:1343-1404 | what the orchestrator reads back of a run that left another mode: chapter, book end, volume, window, floor and mode |
| GenerationSegments.AnnounceReview | app/tasks/generation.py:1408-1426 | a worker that starts over while the final review is pending exits early |
| GenerationSegments.ReviewFollowsTheBook | app/tasks/generation.py:1408-1426 | the review is of the book up to its end, the next chapter the one after it or the loop's own if later, the volume the loop's or the one before |
| SegmentCoverage.RunSegments | app/tasks/generation.py:1247-1426 | the segments handed to the pipeline are those of the iterated loop law, in order, up to the first state that ends it, for all runs with which the loop ends at all |
| SegmentCoverage.SegmentsAreContiguous | app/tasks/generation.py:1247-1406 | from any resume point, for any mix of runs: each segment holds the chapter it resumes and either starts right after the one before, with the volume number of its start, or is the one before with the chapters added to it |
| SegmentCoverage.WholeBookIsCovered | app/tasks/generation.py:1247-1406 | however the loop ends, for any mix of runs: every chapter from the planned segment to the end of the last one was in some segment; if it ends for want of chapters, that is the end of the book |
| SegmentCoverage.GoesForeverIff | app/tasks/generation.py:1247-1406 | for any runs that lengthen the book by a bounded total: the loop goes on for ever if and only if it still goes at some point from which on no run moves on or ends the book |
| SegmentCoverage.EnoughMovesEndIt | app/tasks/generation.py:1247-1406 | how soon it ends: once more runs have moved on than there are chapters, growth included, whatever the other runs did |
| SegmentCoverage.LoopFollowsTheChunks | app/tasks/generation.py:1373-1403 | in a book that does not grow, after any runs the loop is in the chunk whose number is how many of them moved on, or has ended if there is none |
| SegmentCoverage.FreshSegmentsAreTheChunks | app/tasks/generation.py:186-202 | a fresh book that does not grow is generated in exactly the chunks of VolumeChunks, with their volume numbers: each is run until a run moves on, and as many runs move on as there are chunks |
| GenerationPipeline.NoPipelineRunMoves | app/services/generation/nodes/finalize.py:780-803 | whatever path a pipeline run takes through its graph and whatever its closure gate finds, with blocked chapters and failing writes anywhere, it is one of the runs above and never moves the next chapter past its segment |
| GenerationPipeline.EntersAt | app/services/generation/nodes/init_node.py:79-100 | chapter, segment, book end and floor that a run starts with |
| GenerationPipeline.ChapterByChapter | app/services/generation/nodes/closure.py:237-444 | how chapter, segment and book change: by one chapter, one added chapter, or a rewind of two within the segment |
| GenerationPipeline.WhatIsStored | app/services/generation/nodes/finalize.py:780-803 | what a stored runtime state says of the run; the segment's last chapter and a blocked one store nothing |
| GenerationPipeline.GateIsToldOf | app/services/generation/nodes/closure.py:77-78 | the gate decides on the chapters of the book before the current one and those from it on |
| GenerationPipeline.ClosedEndsInside | app/services/generation/nodes/closure.py:275-305 | in every run the book is ended behind a chapter of the segment, added ones included, and if that is stored nothing else of the segment changes |
| GenerationPipeline.EndedIff | app/tasks/generation.py:1343-1404 | the loop is told of an ended book if and only if the run closed it and the write succeeded, and then the next chapter is the one past its end |
| GenerationPipeline.EveryRunReturns | app/services/generation/graph.py:99-160 | every run returns: rewrites, added chapters and chapters left bound its nodes |
| GenerationPipeline.PipelineNeverLeavesTheSegment | app/tasks/generation.py:1373-1403 | with such runs the loop is, as long as it goes, in the segment it started with, lengthened by what the runs added |
| ClosurePolicy.TooEarlyToEnd | app/services/generation/policies.py:42-92 | before the totals allow it, no coverage and no open threads make the gate end or extend a book |
| ClosurePolicy.NoWayOn | app/services/generation/policies.py:42-92 | from the maximum on, or where any coverage is enough in the closing window, it never just continues |
| ClosurePolicy.WhenItActs | app/services/generation/policies.py:42-92 | it ends a book only with its minimum of chapters, rewrites twice at most, adds only within the flex window |
| ClosurePolicy.DecidedByRange | app/services/generation/policies.py:42-92 | the whole decision by ranges of generated chapters and the closing window; with nearly enough coverage, at most one open thread and no rewrites left the book ends and is not extended |
| ClosurePolicy.CoverageIs | app/services/generation/nodes/closure.py:147-150 | the covered share of all units, 0 for none |
| ClosurePolicy.FlexWindowIs | app/services/generation/nodes/init_node.py:97-100 | the share decides within the absolute bound |
| BookEndings.EndsForSomeIff | app/services/generation/nodes/closure.py:204-345 | for every plan and configuration: some returning runs of the pipeline end the book if and only if the planned segment reaches the target, or the minimum inside the closing window with an attainable threshold; otherwise it is generated for ever, whatever the runs meet |
| BookEndings.EndsForAllIff | app/services/generation/nodes/closure.py:204-345 | all runs whose writes succeed end the book if and only if the planned segment reaches the maximum, or the minimum inside the closing window with a threshold of at most 0 |
| BookEndings.NeverEnds | app/tasks/generation.py:1247-1406 | a plan whose segment is too short keeps the loop going for ever, for all runs |
| BookEndings.AlwaysEnds | app/tasks/generation.py:1247-1406 | a plan whose segment reaches the maximum ends with its first run |
| BookEndings.SomeRunEnds | app/services/generation/nodes/closure.py:204-345 | a run that ends the book, for every plan whose segment is long enough |
| BookEndings.IdleRunsStay | app/services/generation/nodes/closure.py:69-204 | runs that never end the book, without foreshadows and plotlines and with every write succeeding, for every plan that need not end |
| BookEndings.FreshBookEnds | app/services/generation/nodes/init_node.py:66-160 | both conditions for a fresh submission, in its number of chapters, volume size, flex window and threshold |
| BookEndings.TwoVolumesNeverEnd | app/services/generation/nodes/init_node.py:66-160 | sixty chapters in volumes of thirty with the default configuration are generated for ever, whatever the runs meet |
| BookEndings.TwoVolumesRun | app/services/generation/nodes/closure.py:204-345 | and such runs exist |
| BookEndings.OneVolumeWithNothingToClose | app/services/generation/nodes/closure.py:147-150 | ten chapters in one volume without foreshadows and plotlines can be generated for ever, too, since nothing to cover counts as no coverage |
| BookWritten.RunClaims | app/services/generation/nodes/closure.py:280-301 | a run that ends the book has visited every chapter from the resumed one to the end it sets, which leaves at least the minimum and at most the flex window more than the segment; any other run has visited all before the next chapter |
| BookWritten.WrittenSoFar | app/tasks/generation.py:1373-1377 | while the loop goes, every chapter from the resumed one to before the next was written or blocked |
| BookWritten.EndedBookIsWritten | app/tasks/generation.py:1247-1406 | when the loop ends a run has ended the book, and every chapter from the resume point to its end was written or blocked |
| GenerationPipeline.WriteChapters | app/services/generation/nodes/finalize.py:754-803 | the chapters of a segment, finalised one after the other, leave the cursor past the segment but the runtime state's next chapter at its last chapter |
| FeatureFlags.FlagService.SetFlag | app/core/feature_flags.py:216-333 | a rejected write changes nothing; an accepted one merges defaults, stored state and the given fields, appends one audit entry and drops the flag from the cache |
| FeatureFlags.FlagService.ApplyFromYaml | app/core/feature_flags.py:339-394 | skipped, refused or written, and what is written |
| FeatureFlags.FlagService.Invalidate | app/core/feature_flags.py:68-84 | one flag or all are dropped and the rest is marked stale |
| FeatureFlags.FlagService.ReadAll | app/core/feature_flags.py:110-134 | a fresh cache or the rows; once the clock has passed the cache lifetime the answer is what the rows hold |
| FeatureFlags.FlagService.IsEnabled | app/core/feature_flags.py:160-193 | in a sequential process the decision, right after any write, is the one on the stored rows; an unreadable database means disabled |
| FeatureFlags.DecidedByTheWrites | app/core/feature_flags.py:160-193 | after any serial writes of a flag, accepted or rejected, in the writes' own fields: on for all if enabled was last set, else exactly for the novels on the last allowlist and those whose bucket is below the last rollout; without a novel only enabled counts, and a flag never written is off |
| FeatureFlags.RolloutIsMonotone | app/core/feature_flags.py:187-191 | a larger rollout switches no novel off, 0 reaches nobody outside the list, 100 everybody |
| FeatureFlags.DecidedByTheRow | app/core/feature_flags.py:160-193 | the decision for any stored row, with texts for numbers and unreadable fields |
| FeatureFlags.RejectedIff | app/core/feature_flags.py:216-280 | which writes are rejected, changing nothing |
| FeatureFlags.SyncTypesFields | app/core/feature_flags.py:356-380 | what a sync makes of declared values for enabled and the rollout |
| FeatureFlags.OutcomeOfASync | app/core/feature_flags.py:339-394 | skipped is what is stored already, written what logs a change, and refused changes nothing |
| FeatureFlags.AuditReplays | app/core/feature_flags.py:254-333 | for any serial writes the log only grows, every entry's before is the state its predecessors lead to, and the log replays to the rows |
| FeatureFlags.EntriesOfAFlagChain | app/core/feature_flags.py:254-333 | before of a flag's entry is after of its previous entry |
| FeatureFlags.SyncConvergesIff | app/core/feature_flags.py:339-394 | a sync that writes reaches exactly its target, and the next one is skipped, if and only if the target is well typed and covers every stored key |
| FeatureFlags.UncoveredSyncNeverSettles | app/core/feature_flags.py:339-394 | otherwise every further sync stores the same row and logs one more change, for ever |
| FeatureFlags.TruthyTextNeverSettles | app/core/feature_flags.py:339-394 | the smallest input: a declared text for enabled is stored as true, and every further sync logs one more change |
| FeatureFlags.WrittenFlagIsVisibleIff | app/core/feature_flags.py:63-84 | in the first seconds of the monotonic clock a flag just written is missing from the answer exactly when another flag was cached |
| FlagCacheStaleness.AnswersAreRecent | app/core/feature_flags.py:110-134 | with any threads and any foreign writes every answer was the database's state less than the cache lifetime plus one load ago |
| FlagCacheStaleness.LoadTimeCounts | app/core/feature_flags.py:121-133 | the load has to be counted: a value read before a write can be served for a lifetime after it |
| LlmUsage.UsageContext.BeginUsageSession | app/core/llm_usage.py:98-114 | the session's baseline |
| LlmUsage.UsageContext.RecordUsage | app/core/llm_usage.py:274-333 | tokens from the first usable place in the response; bucket, session totals and stage bucket after the call |
| LlmUsage.ExtractsThePlace | app/core/llm_usage.py:223-271 | in the fields of the response: which of its three places counts, that its input is input_tokens or, where that is 0, prompt_tokens, its output likewise, its total, and the least billable count above all of them |
| LlmUsage.UsageContext.PopLastLlmCall | app/core/llm_usage.py:65-74 | the whole bucket, which is then empty |
| LlmUsage.SessionCountsItsCalls | app/core/llm_usage.py:305-332 | a session is its baseline plus every call, and each stage bucket exactly the calls of its stage |
| LlmUsage.BillableCoversTheRest | app/core/llm_usage.py:238-247 | in every session billable >= total and billable >= input + output, whatever integers the responses report |
| LlmUsage.BucketsSumToTheSession | app/core/llm_usage.py:309-332 | when every call carries a stage, all five fields of the buckets sum to the session minus its baseline |
| AgentEvents.Emitter.EmitAgentEvent | app/services/agents/events.py:186-272 | the drained bucket fills the token fields, model, provider, cost and call detail that the caller left open and increments the counters once per call, even when the row cannot be stored; without a name or type nothing is drained |
| AgentEvents.RouteRoundTrip | app/core/llm_usage.py:11-21 | provider and model written into a stage are read back, whatever dots the model has |
| AgentEvents.RouteIsWritten | app/core/llm_usage.py:11-21 | and a stage that is read as a route was written that way |
| AgentEvents.DrainedThenBucketIsTheLog | app/core/llm_usage.py:65-95 | over any sequence of records and events the drained lists and then the bucket are exactly the log of calls |
| AgentEvents.CountedPlusPendingIsRecorded | app/core/metrics.py:86-103 | tokens recorded are those on the counter over all labels plus those in the bucket |
| AgentEvents.LabelCountsItsCalls | app/services/agents/events.py:250-272 | each label counts exactly the calls of its stage that its agent's events drained |
| AgentEvents.CountersCountWhatIsHeard | app/services/agents/events.py:250-272 | the input counter grows by what the responses of each stage report as input, the output counter by their outputs |
| AgentEvents.EventSumsWhatIsHeard | app/services/agents/events.py:213-221 | the sums of an event are those of the reported inputs and outputs |
| AgentEvents.LabelsHaveCounts | app/core/metrics.py:86-103 | no label without a positive count |
| AgentEvents.CallerWins | app/services/agents/events.py:222-225 | a count the caller passed stays, a missing one becomes a positive sum |
| AgentEvents.CallersPayloadWins | app/services/agents/events.py:226-228 | the caller's payload stays; model and provider of the last call are added where it has none |
| AgentEvents.CallersCostWins | app/services/agents/events.py:228-246 | cost and call detail are added only where the caller has none, the detail only for several calls |
| UsageChain.TaskUsage.BeginWorker | app/tasks/generation.py:337-358 | a worker continues from the stored totals |
| UsageChain.TaskUsage.ReportProgress | app/services/scheduler/scheduler_service.py:213-234 | stored totals are raised, never lowered |
| UsageChain.TaskUsage.EndWorker | app/tasks/generation.py:1525-1613 | the summary replaces the stored totals, or nothing is stored |
| UsageChain.StoredPlusPendingPlusLostIsRecorded | app/tasks/generation.py:337-358 | over any chain of workers of a task and any responses with non-negative visible counts, input, output and billable tokens on the row, pending and lost add up to all per-call deltas |
| UsageChain.RowIsExactIff | app/tasks/generation.py:1525-1613 | between two workers the row holds exactly the sums over all calls if and only if nobody was replaced or died with something pending and no worker without a session stored its summary over a non-zero row |
| UsageChain.RunIsLosslessIff | app/tasks/generation.py:337-358 | nothing is lost, at any moment, if and only if no operation so far dropped something |
| UsageChain.RecordedIsTold | app/core/llm_usage.py:274-333 | over any chain of workers the recorded input and output are the sums of what the responses report as input and as output |
| UsageChain.RowHoldsWhatWasTold | app/tasks/generation.py:1525-1613 | so the row holds those sums between two workers, if nothing was dropped |
| UsageChain.ReportIsTheLeastAbove | app/services/scheduler/scheduler_service.py:213-234 | a report lowers no stored total, and stores the least consistent totals above the row's and the session's |
| UsageChain.ReportedCounts | app/core/llm_usage.py:238-303 | a call that is recorded from a response with non-negative visible counts adds a delta whose billable part covers input and output |
| UsageChain.CleanChainsAreExact | app/tasks/generation.py:1525-1613 | in particular over cleanly ended workers the row holds exactly the sums over all calls |
| UsageChain.EndWithoutBeginWipesTheRow | app/tasks/generation.py:1525-1613 | a worker that fails before its session begins replaces the totals of all earlier workers by zero |
| UsageRaces.NeverOvercounts | app/tasks/generation.py:1595-1613 | with any number of workers overlapping in any way, displaced ones included, the row never claims more tokens than were recorded |
| UsageRaces.OnlyAnEndLowers | app/services/scheduler/scheduler_service.py:213-234 | with workers overlapping in any way only the end of one lowers the row |
| UsageRaces.KnownPlusMissedIsRecorded | app/tasks/generation.py:337-358 | what a worker's session holds and what it missed, before its start and from others since, are all recorded tokens |
| UsageRaces.SummaryIsExactIff | app/tasks/generation.py:1595-1613 | a worker's summary leaves the row exact if and only if it started from an exact row and nobody else recorded a token since |
| UsageRaces.DisplacedEndWipesTheSuccessor | app/tasks/generation.py:1595-1613 | it happens: a displaced worker that ends last wipes what its successor stored |
| LoginLockout.User.Login | app/api/routes/auth.py:187-233 | outcome and committed row of one login; only a wrong password and a success are committed |
| LoginLockout.User.ClearLock | app/api/routes/auth.py:334-335 | a password reset clears counter and lock |
| LoginLockout.RowFromFailures | app/api/routes/auth.py:187-219 | after any history the counter is the number of wrong passwords checked since the last clearing modulo the limit, and a lock is set exactly when that number is a positive multiple of it |
| LoginLockout.CounterBelowLimit | app/api/routes/auth.py:205-212 | in every reachable state the counter is below the limit and a set lock implies counter 0 |
| LoginLockout.WindowTakesALock | app/api/routes/auth.py:187-212 | any limit + 1 consecutive checks of wrong passwords span at least one lock |
| LoginLockout.GuessesAreRateLimited | app/api/routes/auth.py:187-212 | the n-th check comes no earlier than the first plus (n - 1) / limit lock periods |
| LoginLockout.RightPasswordSucceedsIff | app/api/routes/auth.py:187-230 | the right password of an active user is refused exactly while the last full round of wrong ones is less than a lock ago |
| LoginLockout.FailuresAreChecked | app/api/routes/auth.py:187-230 | the wrong passwords that count, from the attempts alone: tried while the account was neither disabled nor locked out, since the last success or new password |
| LoginLockout.LoginDecidedBy | app/api/routes/auth.py:187-230 | each of the five answers for every history, status and password, if and only if: lock first, then disabled, password, pending activation |
| LoginLockout.OnlyChecksAreCommitted | app/api/routes/auth.py:197-219 | no login of a disabled account, no locked-out one and no right password of a pending one changes the committed row |
| LoginLockout.RowFromAttempts | app/api/routes/auth.py:187-230 | the committed row, last login included, as a function of the attempts |
| LoginLockout.SessionRow | app/api/routes/auth.py:187-219 | the uncommitted row of the session for every answer |
| ConfigMerge.DeepMerge | app/core/strategy.py:69-77 | the loop over the override's items, in any order, computes the merge |
| ConfigMerge.MergeOverlays | app/core/strategy.py:69-77 | the overlay law: at every path the override decides if it has an entry there or a leaf on the way, the base otherwise |
| ConfigMerge.EntriesDetermine | app/core/strategy.py:69-77 | a value is determined by its entries, so that the overlay law characterises the merge |
| ConfigMerge.EmptyIsIdentity | app/core/strategy.py:69-77 | the empty mapping is an identity on both sides |
| ConfigMerge.MergeIsIdempotent | app/core/strategy.py:69-77 | merge(a, a) = a |
| ConfigMerge.OverrideTwice | app/core/strategy.py:69-77 | merge(merge(a, b), b) = merge(a, b) |
| ConfigMerge.CoversMeansAbsorbed | app/core/strategy.py:69-77 | merging over a changes nothing in c if and only if c touches every entry of a |
| ConfigMerge.AssociativeIff | app/core/strategy.py:69-77 | the exact condition for associativity: wherever a leaf of b separates mappings of a and c, c covers all that a has there |
| ConfigMerge.AssociativeWithoutClash | app/core/strategy.py:69-77 | in particular it is associative where no path leads to mappings of a and c and a leaf of b |
| ConfigMerge.HighestLayerDecides | app/core/strategy.py:131-144 | each entry of merged layers is the entry of the highest layer that touches its path |
| AiProfile.GetInferenceForStage | app/core/strategy.py:131-144 | the layers of a stage: its base stage's, then its own |
| AiProfile.FilterInferenceForProvider | app/core/strategy.py:161-169 | Gemini parameters go to no other provider, everything else is kept |
| AiProfile.ResolveAiProfile | app/core/strategy.py:172-228 | every entry of the resolved inference comes from the highest of the stage, asset, novel and runtime layers that touches its path; provider and model are the highest override that is set |
| AiProfile.RunThenNovelThenAsset | app/core/strategy.py:172-228 | each inference parameter comes from the run, else the novel, else the asset, else the stage |
| AiProfile.StageDecides | app/core/strategy.py:131-144 | of the stage's layers its own decides before its base stage's |
| AiProfile.ChosenByPriority | app/core/strategy.py:172-228 | provider and model: the run's if set, else the novel's, the asset's, the stage's |
| AiProfile.AssetReads | app/core/strategy.py:172-228 | where profile and stage of an asset are read from |
| AiProfile.StageReads | app/core/strategy.py:112-129 | which entry names provider and model of a stage, and what counts as a placeholder |
| AiProfile.GeminiKeepsItsParameters | app/core/strategy.py:161-169 | only Gemini, however spelt, keeps its parameters |
| RewriteTask.Activate | app/tasks/rewrite.py:87-109 | the row is bound to the worker if it may, and a finished, paused or foreign task ends it |
| RewriteTask.Advance | app/tasks/rewrite.py:385-395 | the next chapter, or publication after the last |
| RewriteTask.Complete | app/services/scheduler/scheduler_service.py:297-384 | the last step: the status guards decide whether the final status is stored |
| RewriteTask.Begin | app/tasks/rewrite.py:87-109 | a worker binds the row if it may, stops or leaves otherwise, and plans its first chapter |
| RewriteTask.StopWith | app/tasks/rewrite.py:612-688 | the exception path: commit the failure, repair the cursor, then finalise; an exception of the first ends the worker without the other two |
| RewriteTask.Repair | app/tasks/rewrite.py:644-657 | the cursor repair of the exception path, whose own exception is swallowed |
| RewriteTask.CheckSuperseded | app/tasks/rewrite.py:71-84 | a worker leaves exactly when the row names another worker |
| RewriteTask.CheckStopped | app/tasks/rewrite.py:392-396 | a cancelled or paused task stops the worker |
| RewriteTask.CommitChapter | app/tasks/rewrite.py:509-557 | the chapter row is committed before the checkpoint; an exception before the commit commits nothing |
| RewriteTask.Checkpoint | app/tasks/rewrite.py:558-565 | the committed chapter is checkpointed, unless an exception comes first |
| RewriteTask.Publish | app/tasks/rewrite.py:575-611 | the target version becomes the default before the task is finalised |
| ExtractorRecovery.TickAt | app/tasks/extractor_recovery.py:101-128 | a tick changes exactly the selected rows, each by one retry |
| ExtractorRecovery.SelectedAreGone | app/tasks/extractor_recovery.py:109-119 | once the selected rows have left the queue, the queue ahead of a row is shorter by the limit |
| ExtractorRecovery.TicksNeededClosedForm | app/tasks/extractor_recovery.py:101-128 | three ticks for each full batch ahead and three for its own amount to 3 * (r / limit + 1) |
| FeatureFlags.WriteExtendsTheLog | app/core/feature_flags.py:281-307 | one write keeps the log chained and replaying |
| FeatureFlags.SyncFields | app/core/feature_flags.py:356-394 | the fields that a sync writes are those of its target if and only if the target is well typed |
| FeatureFlags.MissedSyncIsUnsettled | app/core/feature_flags.py:339-394 | after a sync that wrote and missed its target the next one writes again without changing a row |
| FlagCacheStaleness.NextKeepsInvariant | app/core/feature_flags.py:110-134 | every action keeps the cached value one that the database held when it was read |
| GenerationRetry.RetryKeepsTheEnd | app/api/routes/generation.py:545-552 | one retry keeps the end of the range, unless the new start is 0, and exactly when that happens |
| GenerationRetry.ChainContinues | app/api/routes/generation.py:543-576 | each task of a chain continues every earlier one |
| GenerationResume.ReachableIsLocated | app/tasks/generation.py:424-511 | in every reachable row either the runtime state names a chapter or the cursor is not before the task's first chapter |
| GenerationSegments.PlanIsFramed | app/tasks/generation.py:1114-1123 | a plan starts the loop inside its window |
| SegmentCoverage.ChunkStep | app/tasks/generation.py:1385-1403 | from a chunk, a run that moves on leads to the next chunk or to the end of the book, and one that stays leads back to the same chunk |
| LlmUsage.UsageContext.EndUsageSession | app/core/llm_usage.py:117-154 | the session is handed out and gone |
| LlmUsage.UsageContext.Count | app/core/llm_usage.py:307-332 | totals and stage bucket after one call |
| LlmUsage.UsageContext.RecordEmbeddingCall | app/core/llm_usage.py:336-343 | only the embedding counter changes |
| AgentEvents.StepKeepsLabel | app/services/agents/events.py:250-272 | one record or event keeps every label equal to the calls attributed to it |
| AgentEvents.Emitter.SumDrained | app/services/agents/events.py:213-221 | token sums over the drained calls |
| AgentEvents.Emitter.CountDrained | app/services/agents/events.py:250-272 | one increment of each counter per drained call with a positive count |
| LoginLockout.FailuresArePaced | app/api/routes/auth.py:187-212 | the checks are in order and after every full round the next one waits for the lock |
| Strings.BeforeDot | app/core/strategy.py:136 | what comes before the first dot of a stage |
| LlmAgent.SelectNext | app/services/agents/llm_agent.py:80-87 | the selection of an attempt, after whatever other callers did, is of an endpoint not tried before |
| LlmAgent.UseEndpoint | app/services/agents/llm_agent.py:88-146 | the outcome of an attempt, after whatever other callers did, leaves the stage as if exactly one selection and one outcome had been added to the interleaved history |
| LlmAgent.Interfere | app/core/llm_circuit_breaker.py:69-151 | other callers' operations act on the same stage |

## Left out

- Provider SDKs, prompts, schema validation and the LLM call: an attempt on an endpoint is a given
  success or failure.
- SQL, Redis, Celery, HTTP and logging: rows are records, a commit is one atomic step, time is a
  number passed in. A load that fails, a commit that fails and a runner that raises are parameters.
- The breaker's registry of stages, `configure_stage`, `reset_breaker` and `get_breaker_state`: the
  configuration of a stage is fixed and each stage is one object.
- Progress, phase and message fields of a task row, retry counts, the switch that turns the scheduler
  off, and what the budget and payload checks of a dispatch look at.
- The recovery tick treats each row by itself, so TaskLease follows one row; TaskDispatch is given the
  rows in the order of the queue query.
- RewriteTask.SubmitRewriteTask: does not model what is written into a chapter, only that its row is committed.
- Generation's swallowed checkpoint errors (app/tasks/generation.py:820-829): the prefix property is
  proved for rewrite only.
- Generation tasks without a creation row (app/tasks/generation.py:1333-1336), whose segment start
  never moves; resuming failed or paused tasks by status, and the legacy retry path
  (app/api/routes/generation.py:581-640).
- SegmentCoverage.RunSegments: is given runs with which the loop ends; GoesForeverIff, EndsForSomeIff and EndsForAllIff say which those are.
- Of the pipeline's graph only the nodes that write the runtime state or move the current chapter are
  modelled; content, reviews, retries inside a chapter and the graph library's own limit on steps are
  not. What the closure gate finds of foreshadows and plotlines is given as three counts for each visit.
- A token count that a response gives as text without a number, which counts as 0 although it is set.
- A book total below 0, which the orchestrator reads differently from its second iteration on, and a
  change of the novel's volume size or flex window during its generation.
- Floating point: JSON numbers are integers and booleans the numbers 0 and 1; `estimate_cost`,
  `cost_usd` and percentages are not modelled. Clock times of the flag cache are reals.
- FeatureFlags.FlagService.IsEnabled: takes the SHA-256 bucket of a novel, the reading of decimal strings and the order of a mapping's keys as parameters.
- Concurrent `set_flag` calls on one flag and concurrent logins of one user: both read, change and
  write back without a lock, so the audit and lockout theorems are about serialised calls.
- AgentEvents.Emitter.EmitAgentEvent: does not model payload validation and the cost counter by price tier; prices and rounding are parameters.
- LlmUsage.UsageContext.RecordUsage: one logical context; copying a context into a thread carries pending calls along and is not modelled.
- LoginLockout.User.Login: does not model unknown or malformed addresses, tokens and cookies.
- AiProfile.ResolveAiProfile: takes the loaded strategy, the primary runtime and `str` as parameters and does not model the resolution trace.
- Storyboard tasks, quota ledgers, export, presets, migrations and the web front end: I/O, tables or
  user interface, or a weaker repeat of the checkpoint pattern.
