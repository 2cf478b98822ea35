# A verified model of MyloWare's job queue and the state that runs on it

MyloWare turns a brief into a video through long-running jobs: a durable `jobs` table is worked off by
concurrent workers under leases; webhook and polling jobs collect rendered clips and release a paused
workflow; a circuit breaker, a 24-hour run budget, a paid-submission tool, a render service and a clip cache
guard the outside world; configuration is layered by a recursive merge. This project models those parts in
Dafny and proves what they promise over all inputs and all runs.

Objects whose methods update fields are classes (`JobRepository`, `Worker`, `WorkerProcess`, `RunRecord`,
`RenderRecord`, `CircuitBreaker`, `RunStore`, `SoraTool`, `RenderManager`, `Dictionary`); loops are methods with
invariants. Each such method is proved equal to a function of its inputs and the old state, and the theorems are
about those functions and about runs built from them. Time is a `real`; a row of the jobs table is identified by
its position, because rows are never deleted. A run is any sequence of actions: an action that is not enabled
changes nothing.

| file | content |
|---|---|
| `JobTypes.dfy`, `JobQueue.dfy` | job kinds, idempotency keys, the jobs table and its repository |
| `PortableClaim.dfy` | the two-statement claim against the atomic one |
| `LeaseProtocol.dfy` | workers, executors, heartbeats, finishes, crashes and time as a state machine |
| `LeaseExclusion.dfy`, `Heartbeat.dfy` | one executor per job, finality, attempts accounting; the schedule that keeps leases |
| `RowHistory.dfy` | what a lease, a status and an availability say about the past, takeovers included |
| `WorkerLoop.dfy` | the semaphore loop: no claim without a permit, no permit or claimed job lost |
| `WorkerSlots.dfy` | one worker inside the queue: its slots are its executors |
| `DeadLetters.dfy`, `Backoff.dfy` | conservation of webhooks, quadratic retry delays |
| `Completion.dfy`, `ClaimOrder.dfy` | every job ends in an open system with crashes; the claim order starves nobody |
| `Termination.dfy` | once clients stop, the whole queue drains |
| `DeadLetterReplay.dfy` | what replay accepts, against what the worker writes |
| `FanIn.dfy`, `FanInTheorems.dfy` | the Sora handlers, the webhook route's lookup and the operator's repair; resume safety and status finality |
| `FanInTasks.dfy`, `FanInConfluence.dfy` | when a released run has a clip for every task; when the order of deliveries does not matter |
| `FanInSources.dfy`, `Repairs.dfy` | what each event may do, told from its fields, and where clips and resume jobs come from; what a repair leaves and when it is refused |
| `PollEndings.dfy`, `PollJobs.dfy` | how a poll ends, told from the provider's answers; run and queue together: the job that polls |
| `RenderFanIn.dfy`, `RenderEndings.dfy` | the Remotion handlers: resume safety, finality and confluence; how events and polls end |
| `CircuitBreaker.dfy`, `BreakerHistory.dfy`, `BreakerConcurrency.dfy` | the breaker, its history, overlapping calls |
| `SoraSubmission.dfy`, `SubmissionToRelease.dfy` | paid submissions, and the path from one to the release of its run |
| `RunBudget.dfy`, `RenderManager.dfy`, `ClipCache.dfy` | the budget guard, the render map, the clip cache |
| `DeepMerge.dfy`, `MergeInPlace.dfy` | the laws of the merge on trees, and the merge on mutable dictionaries |
| `Wrappers.dfy`, `RealArithmetic.dfy`, `SetFacts.dfy` | shared helpers |

Properties that are false of the code are stated with an input that breaks them and the condition under which they
hold, which is exact except for the budget, where it is a bound that is attained:

| property | input that breaks it | when it holds |
|---|---|---|
| a finished job stays finished | `LeaseExclusion.StaleFinishReopens` | `LeaseExclusion.FinalityExactly` |
| every FAILED webhook job has a dead letter | `DeadLetters.LetterIsLost` | `DeadLetters.LettersCompleteExactly` |
| a letter the worker writes can be replayed | `DeadLetterReplay.WorkerLettersNeverReplay`: any letter | never |
| the portable claim takes the earliest job | `PortableClaim.MayMissAnEarlierJob` | `PortableClaim.LeastAllAlongExactly` |
| a released run has a clip for every task | `FanInTasks.UntaggedEventsRelease`, `FanInTasks.RepairedRunReleases` | `FanInTasks.EveryTaskExactly` |
| a polling job that succeeded leaves no run waiting | `PollJobs.RepairedRunIsNotPolled` | `PollJobs.PollingNeverAbandons` |
| the order of successful deliveries does not matter | `FanInConfluence.RepairedRunIsNotConfluent` | `FanInConfluence.ConfluenceExactly` |
| COMPLETED and REJECTED are final | `FanInTasks.CompletedIsOverwritten` | `FanInTheorems.TerminalStatusExactly`, `RenderFanIn.TerminalStatusExactly` |
| a FAILED run is not released for publishing | `RenderFanIn.FailedRunIsReleased` | `RenderFanIn.FailedRunIsReleasedExactly` |
| the budget is never exceeded | `RunBudget.OvershootIsAttained` | `RunBudget.SlidingWindow`: one request at a time |
| a key is paid for at most once | `SoraSubmission.PaidTwice` | `SoraSubmission.AtMostOncePaid` |
| an explicit video index is honoured | `SoraSubmission.ExplicitZeroIsLost` | `SoraSubmission.ExplicitIndexExactly` |
| only signs without a clip are reported missing | `ClipCache.SmallLimitMisreports`, `ClipCache.EmptyUriHidesOlder` | `ClipCache.TruthfulExactly` |
| merging is associative | `DeepMerge.GroupingMatters` | `DeepMerge.AssociativeExactly` |

A repaired run breaks the claims about clips and about order for one reason: a repair reads a stored video index of
0 as absent (`src/myloware/workflows/langgraph/workflow.py:125-135`), so it makes that clip again, and the old clip,
which then belongs to no task, is still counted (`FanInTasks.RepairUntagsIndexZero`).

A submission that stops part-way fails its run (`src/myloware/workflows/langgraph/nodes.py:619-642`), even when the same
turn of the producer goes on to retry it, because the node remembers an error that came before the first success
(`SubmissionToRelease.TurnFailsExactly`). A run released short of clips therefore needs one of three things: a retry in a
later turn, which is answered from the stored manifest as a success (`PartialIsReplayedAsSuccess`, `ReleasedExactly`); an
operator's repair, which keeps the short count (`RepairStaysShort`); or deliveries handled between the tool's commit and
the producer node's, a window the model of `SubmissionToRelease.dfy` leaves out.

## Model

| member | source | states |
|---|---|---|
| JobTypes.SoraWebhookKeyInjective | src/myloware/workers/job_types.py:30-33 | two webhooks share an idempotency key only if run and task id are equal |
| JobTypes.SoraJobKeyExact | src/myloware/api/routes/webhooks.py:598-604 | two events are one job iff run and label agree, the label being the task id or else the digest of the body |
| JobTypes.ResumeVideosKeyInjective | src/myloware/workers/job_types.py:42-43 | resume keys of different runs differ |
| JobQueue.LeastEligibleExists | src/myloware/storage/repositories.py:960-981 | whenever some unlocked row is eligible the ordered query has a least one to return |
| JobQueue.PickIsUnique | src/myloware/storage/repositories.py:976-977 | with distinct timestamps the query's choice is determined |
| JobQueue.EligibleExactly | src/myloware/storage/repositories.py:960-967 | a row may be claimed iff it is due or RUNNING, and no lease on it still runs |
| JobQueue.JobRepository.EnqueueAsync | src/myloware/storage/repositories.py:921-948 | appends one PENDING row or reports a duplicate and changes nothing; the unique index is kept |
| JobQueue.JobRepository.ClaimNextAsync | src/myloware/storage/repositories.py:950-989 | claims a least eligible unlocked row, changing only that row, and returns nothing only when no unlocked row is eligible |
| JobQueue.JobRepository.SelectCandidate | src/myloware/storage/repositories.py:991-1001 | the portable path reads a least eligible id, or none exactly when no row is eligible |
| JobQueue.JobRepository.UpdateCandidate | src/myloware/storage/repositories.py:1003-1021 | wins iff the candidate is still eligible, and then changes that row only |
| JobQueue.JobRepository.TouchLeaseAsync | src/myloware/storage/repositories.py:1023-1044 | moves the lease of a RUNNING row claimed by this very worker, and leaves any other table as it was |
| JobQueue.JobRepository.MarkSucceededAsync | src/myloware/storage/repositories.py:1046-1061 | the row becomes SUCCEEDED whoever holds it |
| JobQueue.JobRepository.MarkFailedAsync | src/myloware/storage/repositories.py:1063-1094 | FAILED when the attempts are spent, else PENDING after the delay; an unknown id changes nothing |
| LeaseProtocol.KeysStayUnique | src/myloware/storage/models.py:239-245 | (job_type, idempotency_key) is unique in every reachable state, whatever handlers enqueue |
| LeaseProtocol.Worker.ProcessOneJob | src/myloware/workers/worker.py:104-166 | each ending of a handler leaves the row and the dead letters that the protocol's finishing step does |
| LeaseExclusion.AttemptsAccounting | src/myloware/storage/repositories.py:984-988 | in every reachable state attempts equal claims, PENDING means attempts left, and attempts never exceed the entitlement plus the reclaims |
| LeaseExclusion.RowsPersist | src/myloware/storage/repositories.py:933-948 | a job, once enqueued, is never lost and keeps its identity and payload |
| LeaseExclusion.SafeClaimsExclude | src/myloware/storage/repositories.py:960-989 | if no claim takes a job still being executed, the one executor owns a RUNNING row with its own lease |
| LeaseExclusion.ExclusionExactly | src/myloware/storage/repositories.py:960-967 | no job ever has two executors iff nobody claims a job whose executor has let a whole lease pass since its last renewal |
| LeaseExclusion.LeasedIsNeverTakenOver | src/myloware/storage/repositories.py:960-967 | executors that renewed less than a lease ago are never taken over |
| LeaseExclusion.OneExecutorPerJob | src/myloware/workers/worker.py:63-108 | under live leases every executor is its job's only one and its finish hits a RUNNING row of its own claim |
| LeaseExclusion.FinalityExactly | src/myloware/storage/repositories.py:1046-1094 | over any run, a finished job is reopened iff some finish on it fails while it has attempts left, and changes status iff some finish on it ends otherwise than it did |
| LeaseExclusion.TerminalIsFinal | src/myloware/storage/repositories.py:1046-1094 | without takeovers SUCCEEDED and FAILED rows never change again |
| LeaseExclusion.StaleFinishReopens | src/myloware/storage/repositories.py:1050-1052 | a run in which a late failure turns a SUCCEEDED job back to PENDING |
| RowHistory.LeaseFollowsClaimant | src/myloware/storage/repositories.py:1023-1044 | in every run, takeovers included, the lease of a RUNNING row is one lease after the last claim or renewal of the worker it names; no other row has one |
| RowHistory.BeatRenewsOwnRowOnly | src/myloware/storage/repositories.py:1034-1041 | a renewal by an executor of another worker than the one the row names changes nothing |
| RowHistory.SilenceFreesJob | src/myloware/storage/repositories.py:960-967 | a job can be claimed again exactly one lease after the worker it names falls silent, whatever other workers' heartbeats do |
| RowHistory.EndingsTell | src/myloware/workers/worker.py:104-166 | every row that is not RUNNING has the status, error and availability its last ending calls for: the delay asked for after a reschedule, base after an unhandled error, base times attempts after a raise |
| RowHistory.ClaimsWait | src/myloware/storage/repositories.py:960-967 | a waiting job is claimed no earlier than it was first available or its last ending called for |
| RowHistory.JobsKeepTheirSpec | src/myloware/storage/repositories.py:933-948 | a job keeps the kind, key, run, payload, attempts and first availability that its caller asked for over every run |
| Heartbeat.ToleranceExactly | src/myloware/workers/worker.py:43 | for which leases k missed renewals are survived: above 1 s for none, 2 s for one, 30 s per beat for more |
| Heartbeat.ScheduleKeepsLease | src/myloware/workers/worker.py:43-60 | a heartbeat on schedule keeps every executor inside its lease over the whole run |
| Heartbeat.PunctualHeartbeatsExclude | src/myloware/workers/worker.py:43-60 | punctual heartbeats with a lease above 2 s imply exclusion even when single renewals fail |
| Heartbeat.LeaseHeartbeat | src/myloware/workers/worker.py:35-60 | the loop leaves the lease one lease after the last committed renewal on a RUNNING row claimed by its worker, and any other table as it was |
| WorkerLoop.PermitsAndJobsAreConserved | src/myloware/workers/worker.py:196-263 | over all passes and slot endings permits plus running slots equal the configured concurrency, at least 1, and every claimed job is running or has ended once |
| WorkerLoop.WorkerProcess.Iterate | src/myloware/workers/worker.py:255-263 | without a permit the table is untouched; a permit without a job is given back; a claimed job gets a slot |
| WorkerLoop.WorkerProcess.Release | src/myloware/workers/worker.py:245-246 | the end of a slot returns its permit, whatever the job did |
| WorkerSlots.ExecutorsWithinConcurrency | src/myloware/workers/worker.py:196-263 | over any run of the queue a worker's executors are exactly its running slots, and with its permits they make up its concurrency, at least 1 |
| DeadLetters.WebhookConservation | src/myloware/workers/worker.py:143-166 | without takeovers, dead letters plus lost letters are exactly one letter per FAILED webhook job, with its payload, source, error and attempts |
| DeadLetters.LettersCompleteExactly | src/myloware/workers/worker.py:153-165 | the dead-letter queue is complete iff nothing was lost |
| DeadLetters.LetterIsLost | src/myloware/workers/worker.py:143-166 | a run in which the letter cannot be written and the webhook job ends FAILED without one |
| DeadLetters.OneLetterPerFailure | src/myloware/storage/repositories.py:785-812 | with nothing lost, as many letters as FAILED webhook jobs |
| DeadLetters.EveryLetterHasSource | src/myloware/workers/worker.py:149-165 | in every run, takeovers included, each letter was written by the last failure of its webhook job, with that job's provider, kind, run, payload, error and attempts |
| DeadLetterReplay.WorkerLettersNeverReplay | src/myloware/workflows/dlq_replay.py:18-89 | every letter the worker writes is refused for a missing url, whatever its payload, because the payload is wrapped |
| DeadLetterReplay.UnwrappedSoraReplays | src/myloware/workflows/dlq_replay.py:18-21 | unwrapped, an event that lists its videos replays with exactly those urls |
| DeadLetterReplay.SoraReplaysExactly | src/myloware/workflows/dlq_replay.py:18-40 | a letter replays with some urls iff they are listed by the first of its four places that holds any |
| DeadLetterReplay.RenderReplaysExactly | src/myloware/workflows/dlq_replay.py:43-89 | a letter replays with its video_url, or else with its final_video_url |
| DeadLetterReplay.ShapeComesFirst | src/myloware/workflows/dlq_replay.py:60-89 | a payload that is no object is refused before the source is looked at; nothing counts as an empty object |
| DeadLetterReplay.SoraBadShapeExactly | src/myloware/workflows/dlq_replay.py:18-40 | exactly which letters raise for their shape: malformed blocks, or urls that are a number or a truth value |
| Backoff.QuadraticBackoff | src/myloware/workers/worker.py:149-152 | after k plain failures a job waits at least base k(k+1)/2 from its first availability |
| Termination.WorkFalls | src/myloware/workers/handlers.py:313-323 | every claim, success, retry and failure lowers the load at its rank and leaves higher ranks alone, however much it enqueues |
| Termination.WorkStops | src/myloware/storage/repositories.py:1085-1094 | only finitely many claims and finishes happen in a calm run |
| Termination.EveryJobEnds | src/myloware/storage/repositories.py:1085-1094 | once clients stop enqueueing, there is one moment from which all jobs are SUCCEEDED or FAILED |
| Completion.EachJobEnds | src/myloware/storage/repositories.py:950-1094 | however much is enqueued meanwhile, a job that crashes finitely often and is not ignored for ever ends for good, claimed at most once per crash more than it is entitled to |
| ClaimOrder.OrderedClaimsAttend | src/myloware/storage/repositories.py:976-981 | claims in order of availability starve nobody: a job that stays ready is worked on, whatever is enqueued behind it |
| ClaimOrder.EveryJobEndsInOrder | src/myloware/storage/repositories.py:950-1094 | both together: with leases kept, finitely many crashes, workers that claim and executors that finish, every job ends |
| Termination.CrashStrandsJob | src/myloware/workers/worker.py:225-246 | a crash leaves a RUNNING row without executor, which is why reclaiming exists |
| PortableClaim.ClaimNextPortable | src/myloware/storage/repositories.py:991-1021 | uninterrupted, the portable claim has the atomic claim's contract |
| PortableClaim.ConditionalClaimIsProtocolStep | src/myloware/storage/repositories.py:1003-1018 | however stale the selection, the update is one claim step of the protocol or no step |
| PortableClaim.NoDoubleWin | src/myloware/storage/repositories.py:1003-1018 | claimers with clocks within one lease never both win one execution, whatever is committed in between |
| PortableClaim.StillLeastExactly | src/myloware/storage/repositories.py:991-1010 | a selected candidate is still least after another operation iff the row that one writes is not due or does not come before it |
| PortableClaim.InsertOvertakesExactly | src/myloware/storage/repositories.py:933-941 | an insert overtakes iff it is accepted, due, and earlier in the order |
| PortableClaim.OthersNeverOvertake | src/myloware/storage/repositories.py:1003-1061 | claims, renewals and successes on other rows never disturb the candidate |
| PortableClaim.LeastAllAlongExactly | src/myloware/storage/repositories.py:991-1018 | between selection and update the candidate is least all along iff nothing committed in between overtakes it |
| PortableClaim.MayMissAnEarlierJob | src/myloware/storage/repositories.py:991-1010 | an insert with the default availability, stamped before the candidate but committed after the selection, is overtaken by the claim |
| FanIn.RunRecord.HandleSoraWebhook | src/myloware/workers/handlers.py:586-746 | the webhook branch as a function of run state, event and provider outcome |
| FanIn.RunRecord.HandleSoraPoll | src/myloware/workers/handlers.py:107-339 | the polling branch as a function of run state and provider answers |
| FanIn.PollPending | src/myloware/workers/handlers.py:192-259 | the polling loop stores each finished task once and stops at the first failure |
| PollEndings.PendingExactly | src/myloware/workers/handlers.py:127-158 | the tasks polled for are the run's own list if it names any, else those of the latest manifest with content |
| PollEndings.PassExactly | src/myloware/workers/handlers.py:192-259 | the pass raises or fails as its first stopping task does, and otherwise stores one clip for each ready task |
| PollEndings.PollEndsExactly | src/myloware/workers/handlers.py:107-339 | from run and answers: when a poll raises and changes nothing, fails the run, releases it, or asks to be run again and after how long |
| PollEndings.FailingPollKeepsClips | src/myloware/workers/handlers.py:192-308 | a poll that fails keeps the clips it had collected before |
| PollJobs.PollLeavesJob | src/myloware/workers/worker.py:104-166 | the polling job ends SUCCEEDED iff its handler returned, FAILED iff it did not and the attempts are spent, and else PENDING |
| PollJobs.PollGoesOnExactly | src/myloware/workers/handlers.py:327-339 | the job that polls a waiting run SUCCEEDS iff the run stops waiting, and is PENDING again after the interval and ten seconds while clips are missing |
| PollJobs.PollingNeverAbandons | src/myloware/workers/handlers.py:107-339 | over every history of run and queue a polling job that SUCCEEDED never leaves its run waiting iff no repair applies after that |
| PollJobs.EndedPollingStaysEnded | src/myloware/workflows/langgraph/nodes.py:686-708 | once polling has ended the job stays as it is and its key refuses another one |
| PollJobs.RepairedRunIsNotPolled | src/myloware/workflows/langgraph/workflow.py:280-308 | a run repaired after its polling job SUCCEEDED waits with nobody polling for it |
| FanInSources.AnyFailureSignFails | src/myloware/workers/handlers.py:611-622 | a code other than 200, the state "fail" or the type "video.failed" alone makes the run FAILED and changes nothing else |
| FanInSources.EventStoresExactly | src/myloware/workers/handlers.py:624-704 | an event stores a clip iff it is clean, news and leads to a transcoded url, and stores that url under its task and index |
| FanInSources.EventRaisesExactly | src/myloware/workers/handlers.py:644-679 | the job of an event raises iff fetching or transcoding a new video raises |
| FanInSources.EventFailsExactly | src/myloware/workers/handlers.py:611-686 | an event fails the run iff it shows a sign of failure or brings a new video without a usable url or transcoding |
| FanInSources.EveryClipHasSource | src/myloware/workers/handlers.py:586-746 | every clip was there at the start or was brought by a clean event or a ready answer |
| FanInSources.ReleasesExactly | src/myloware/workers/handlers.py:711-745 | a run without a resume job gets one iff the delivery leaves clips enough, and the job is for this run |
| FanInSources.EveryResumeHasSource | src/myloware/workers/handlers.py:711-745 | over any deliveries a run has its resume job iff some delivery left clips enough: never an event with a sign of failure |
| FanIn.RunRecord.StoreTaskMetadata | src/myloware/tools/sora.py:222-238 | a submission adds a manifest of its own tasks to the run |
| FanIn.RunRecord.RepairSoraClips | src/myloware/workflows/langgraph/workflow.py:83-297 | a repair looks the stored clips up by index, submits the missing indices again, and replaces the manifest by one task per index below the old count, or raises and changes nothing |
| Repairs.RepairLeaves | src/myloware/workflows/langgraph/workflow.py:114-295 | the new manifest names for each index the task of the newest usable clip, or a newly accepted one where the clip is made again; clips and jobs stay |
| Repairs.NewTasksInOrder | src/myloware/workflows/langgraph/workflow.py:137-199 | new tasks go to the indices made again in order |
| Repairs.RepairAppliesExactly | src/myloware/workflows/langgraph/workflow.py:83-275 | exactly when a repair is refused and changes nothing |
| FanInTheorems.ResumeSafety | src/myloware/workers/handlers.py:711-745 | over any deliveries, submissions and repairs each task is stored once and at most one resume job exists; when it was enqueued the clips reached the count of the manifest of that moment |
| FanInTheorems.EarnedExactly | src/myloware/workers/handlers.py:711-726 | a released run keeps having enough clips unless a submission asks for more than it has |
| FanInTheorems.EarnedStays | src/myloware/workers/handlers.py:262-269 | without such a submission a released run has enough clips at every moment |
| FanInTheorems.CountsAgree | src/myloware/workers/handlers.py:262-269 | the poll's count of clips with a uri is the webhook's count of all clips |
| FanInTheorems.ManifestsAgree | src/myloware/workers/handlers.py:143-150 | the two handlers read the same manifests when every manifest has content |
| FanInTheorems.FailedStaysFailed | src/myloware/workers/handlers.py:726-729 | a FAILED run stays FAILED and unreleased exactly until a repair applies to it |
| FanInTheorems.TerminalStatusExactly | src/myloware/workers/handlers.py:617-686 | COMPLETED and REJECTED survive any deliveries iff none is a failure event or a new completion without a usable url |
| FanInTasks.EveryTaskExactly | src/myloware/workers/handlers.py:711-726 | with as many clips as tasks, every task has a clip iff every clip names a task |
| FanInTasks.TaggedDeliveries | src/myloware/workers/handlers.py:629-704 | deliveries that name only tasks of the latest manifest, failing ones, submissions and repairs that keep to these tasks included, store only clips of these tasks |
| FanInTasks.ReleaseMeansEveryTask | src/myloware/workers/handlers.py:711-745 | a run of such deliveries that gets released has a clip for every task, whatever its earlier manifests name |
| FanInTasks.UntaggedEventsRelease | src/myloware/workers/handlers.py:629-641 | two different events without a task id are both enqueued and release a run with no clip for its tasks; a repeated body is refused |
| FanInTasks.RepairRemakesIndexZero | src/myloware/workflows/langgraph/workflow.py:125-144 | a repair that is not told which indices to make always makes index 0 again, though its clip is stored |
| FanInTasks.RepairUntagsIndexZero | src/myloware/workflows/langgraph/workflow.py:114-144 | after such a repair the stored clip of index 0 belongs to no task |
| FanInTasks.RepairedRunReleases | src/myloware/workflows/langgraph/workflow.py:114-144 | one clip delivered, the other failed, both made again: the first new clip releases the run without the second |
| FanInTasks.CompletedIsOverwritten | src/myloware/workers/handlers.py:617-686 | a failure event, and a completion transcoded to nothing, both turn COMPLETED into FAILED |
| FanInConfluence.Confluence | src/myloware/workers/handlers.py:172-332 | for a run whose clips are all of its latest tasks and not of every one of them, deliveries covering the same tasks, in any order and with duplicates, end in the same clips, status and resume job |
| FanInConfluence.ConfluenceExactly | src/myloware/workers/handlers.py:172-332 | for any run collecting the clips of its latest manifest, the order of successful deliveries never matters iff the provider is not real, or every stored clip is of one of the tasks and some task has none |
| FanInConfluence.RepairedRunCollects | src/myloware/workflows/langgraph/workflow.py:83-297 | every repaired run without a resume job is a run collecting the clips of its latest manifest |
| FanInConfluence.RepairedRunIsNotConfluent | src/myloware/workflows/langgraph/workflow.py:114-144 | after a repair of everything in a run with a clip of index 0 the order does matter |
| RenderFanIn.RenderRecord.ExtractRenderJobId | src/myloware/workers/handlers.py:63-74 | the backwards loop finds the last render job id that is not empty, if there is one |
| RenderFanIn.RenderRecord.HandleRemotionWebhook | src/myloware/workers/handlers.py:748-818 | the render webhook branch as a function of run state and event |
| RenderFanIn.RenderRecord.HandleRemotionPoll | src/myloware/workers/handlers.py:341-488 | the render polling branch as a function of run state and answer |
| RenderFanIn.RenderResumeSafety | src/myloware/workers/handlers.py:793-817 | one resume job at most, and its url is that of a stored render and never empty |
| RenderFanIn.FirstRenderWins | src/myloware/workers/handlers.py:807-817 | once released, later renders are stored but not released |
| RenderFanIn.FailedRunIsReleasedExactly | src/myloware/workers/handlers.py:748-818 | a FAILED run stays FAILED but is released for publishing iff some webhook reports a render not stored before |
| RenderFanIn.FailedRunIsReleased | src/myloware/workers/handlers.py:748-818 | a FAILED run that one webhook of a finished render releases |
| RenderFanIn.TerminalStatusExactly | src/myloware/workers/handlers.py:757-761 | COMPLETED and REJECTED survive any deliveries of a render iff none is a webhook that reports an error |
| RenderFanIn.RenderConfluence | src/myloware/workers/handlers.py:414-463 | any successful deliveries of one render, by either handler, store it once and release it once |
| RenderEndings.DeliveryStoresExactly | src/myloware/workers/handlers.py:748-806 | a delivery stores a render iff it reports one finished that is not stored, with a url and without an error |
| RenderEndings.EveryRenderHasSource | src/myloware/workers/handlers.py:748-806 | every render was there at the start or was brought by such a delivery |
| RenderEndings.RenderReleasesExactly | src/myloware/workers/handlers.py:807-817 | a run without a resume job gets one iff a delivery brings a render, and the job names that render |
| RenderEndings.AnyErrorFails | src/myloware/workers/handlers.py:757-761 | an error status or an error message alone makes the run FAILED and changes nothing else |
| RenderEndings.EventRaisesExactly | src/myloware/workers/handlers.py:763-778 | the job of an event raises iff a finished render has no url |
| RenderEndings.PollEndsExactly | src/myloware/workers/handlers.py:341-488 | from run and answer: when a poll raises, fails the run, returns or asks to be run again, and after how long |
| CircuitBreaker.CircuitBreaker.GetState | src/myloware/resilience/circuit_breaker.py:75-90 | reading the state moves OPEN to HALF_OPEN after the timeout |
| CircuitBreaker.CircuitBreaker.Call | src/myloware/resilience/circuit_breaker.py:92-133 | a call as a function of the breaker, the clock and the protected function's outcome |
| CircuitBreaker.CircuitBreaker.Reset | src/myloware/resilience/circuit_breaker.py:173-180 | back to the initial state |
| BreakerHistory.BreakerRefinesHistory | src/myloware/resilience/circuit_breaker.py:106-171 | CLOSED iff fewer than the threshold of calls just failed in a row, the count is that number, and whether the next call runs is a function of the call history |
| BreakerHistory.FailingCallBound | src/myloware/resilience/circuit_breaker.py:79-171 | while everything fails, at most threshold plus elapsed over timeout calls are made |
| BreakerHistory.BoundIsAttained | src/myloware/resilience/circuit_breaker.py:79-171 | in the worst schedule every call runs, so the bound is tight |
| BreakerHistory.WorstElapsed | src/myloware/resilience/circuit_breaker.py:79-171 | that schedule takes one timeout per call beyond the threshold |
| BreakerConcurrency.EpisodeBound | src/myloware/resilience/circuit_breaker.py:113-124 | with overlapping calls at most half_open_max_calls are admitted per half-open episode, and OPEN always carries a time |
| BreakerConcurrency.EndsStayOpen | src/myloware/resilience/circuit_breaker.py:135-171 | a call that ends while the breaker is OPEN leaves it OPEN; a late success keeps the time of the last failure |
| BreakerConcurrency.NoEarlyAdmission | src/myloware/resilience/circuit_breaker.py:79-171 | however calls overlap, late successes included: once OPEN and until a reset no call is admitted before a whole timeout has passed since the last failure |
| BreakerConcurrency.FailureShutsForTimeout | src/myloware/resilience/circuit_breaker.py:79-171 | every failure that leaves the breaker OPEN keeps all calls out for a whole timeout |
| BreakerConcurrency.ProbeDecides | src/myloware/resilience/circuit_breaker.py:135-171 | a call that ends while the breaker is HALF_OPEN closes it or opens it again |
| BreakerConcurrency.CountIsFailuresInRow | src/myloware/resilience/circuit_breaker.py:135-171 | the failure count is the number of failures in a row, in whatever state calls end |
| BreakerConcurrency.OverlappingFailureBound | src/myloware/resilience/circuit_breaker.py:79-171 | while every call fails, with at most p of them in flight together, fewer than threshold + p calls are admitted, plus half_open_max_calls per recovery timeout elapsed |
| BreakerConcurrency.OpenAdmitsExactly | src/myloware/resilience/circuit_breaker.py:79-111 | from OPEN a call is admitted iff the timeout has passed and half-open calls are allowed |
| BreakerConcurrency.OpenForeverExactly | src/myloware/resilience/circuit_breaker.py:79 | a breaker never leaves OPEN iff it opened at time 0.0 |
| RunBudget.RunStore.CheckBudget | src/myloware/api/routes/runs.py:93-109 | the guard counts and lets a request through or refuses it, reserving nothing |
| RunBudget.RunStore.CreateRun | src/myloware/api/routes/runs.py:111-131 | a request past the guard creates its run |
| RunBudget.RunStore.StartRun | src/myloware/api/routes/runs.py:93-131 | an uninterrupted request: the verdict and the run |
| RunBudget.CountIsCardinality | src/myloware/storage/repositories.py:193-198 | the query counts the runs created since the given time |
| RunBudget.SlidingWindow | src/myloware/api/routes/runs.py:94-131 | with at most p requests past the guard at a time, every 24-hour window exceeds the limits by at most p - 1 guarded runs, whatever unguarded runs are in between |
| RunBudget.WindowBound | src/myloware/api/routes/runs.py:94-109 | the bound as min(max_runs, floor(budget / cost)) + p - 1 |
| RunBudget.RejectedMeansFull | src/myloware/api/routes/runs.py:93-109 | a request is refused iff one more run would exceed a limit over the last 24 hours, and for the run limit iff that one is exceeded |
| RunBudget.OvershootIsAttained | src/myloware/api/routes/runs.py:98-131 | for any limits that allow m runs, p overlapping requests do put m + p - 1 into one window |
| RunBudget.RequestsAreConserved | src/myloware/api/routes/runs.py:93-131 | every request past the guard is on its way, created one run, or had an unsafe brief and created none; runs past the guard are in the table too |
| SoraSubmission.ExplicitIndexExactly | src/myloware/tools/sora.py:308-320 | an explicit video index is honoured iff it is not 0, or every other field is absent or 0 and the position is 0 |
| SoraSubmission.IndexExactly | src/myloware/tools/sora.py:308-320 | a video gets the first index other than 0 that its fields give, and else its position |
| SoraSubmission.ExplicitZeroIsLost | src/myloware/tools/sora.py:308-320 | an explicit index of 0 in second place becomes 1 |
| SoraSubmission.SoraTool.SubmitOpenaiVideos | src/myloware/tools/sora.py:695-784 | the fail-fast loop returns the accepted prefix with its metadata and pays for exactly that |
| SoraSubmission.SoraTool.RunReal | src/myloware/tools/sora.py:605-693 | replay from the stored manifest, or submit, store, then report |
| SoraSubmission.PaidExactly | src/myloware/tools/sora.py:661-663 | what a key has cost is its lost submissions plus those of the first request whose manifest was kept |
| SoraSubmission.AtMostOncePaid | src/myloware/tools/sora.py:618-663 | a key costs more than its videos iff the lost submissions exceed what the kept request left out; with nothing lost it never does |
| SoraSubmission.PaidTwice | src/myloware/tools/sora.py:618-663 | one video paid for twice, because the first manifest was not committed |
| SoraSubmission.SuccessExactly | src/myloware/tools/sora.py:605-693 | a request is reported as a success iff its key is stored afterwards and was stored before or has all its videos accepted |
| SoraSubmission.StoppedTellsPaid | src/myloware/tools/sora.py:664-693 | a request that stops says how many videos it has paid for, unless its manifest could not be stored |
| SoraSubmission.ManifestsListOnce | src/myloware/tools/sora.py:206-240 | a stored manifest lists each task it describes once, even when the provider repeats an id |
| SoraSubmission.RepliesDescribeVideos | src/myloware/tools/sora.py:713-770 | what a reply records about each task, at first and when replayed, describes the video asked for: index, topic, sign, object, size and seconds |
| SoraSubmission.LaterRequestsReplay | src/myloware/tools/sora.py:151-204 | after the first stored submission every request returns exactly its task ids, in order, at no cost |
| SoraSubmission.PartialIsReplayedAsSuccess | src/myloware/tools/sora.py:618-639 | replies after a stored submission are successes, short of videos iff that submission had stopped part-way |
| SubmissionToRelease.RequestsOfOtherRuns | src/myloware/tools/sora.py:206-240 | a request of another run leaves this run's manifests as they were; one of this run adds at most its own |
| SubmissionToRelease.TurnFailsExactly | src/myloware/workflows/langgraph/nodes.py:574-619 | reading the replies of a turn in order, the node fails the run iff the first is an error, and otherwise takes the task ids of the first |
| SubmissionToRelease.TurnLeavesExactly | src/myloware/workflows/langgraph/nodes.py:574-684 | the run a turn leaves: FAILED after an error in its first reply, else waiting for the tasks of that reply; without replies for those of its oldest manifest |
| SubmissionToRelease.SubmissionLeavesWaitingRun | src/myloware/workflows/langgraph/nodes.py:574-684 | whatever the tool answered in a turn, the run the producer node leaves is failed or waits for exactly the accepted tasks |
| SubmissionToRelease.ReleasedExactly | src/myloware/workflows/langgraph/nodes.py:574-684 | end to end, for a turn that begins with a request or a retry of it: if its submission stops in this turn the run fails and no delivery releases it; otherwise the run is released iff every accepted task has a clip, and then short of the videos asked for iff the first submission had stopped |
| SubmissionToRelease.RepairStaysShort | src/myloware/workflows/langgraph/workflow.py:107-112 | a repair of a run whose submission stopped asks only for as many tasks as had been accepted |
| SubmissionToRelease.RoutedExactly | src/myloware/api/routes/webhooks.py:170-204 | the route lets an event through iff it names no task or one of the latest manifest, with the index of its own metadata, else its task's, else 0 |
| SubmissionToRelease.RoutedIsIndexed | src/myloware/api/routes/webhooks.py:170-204 | an event let through by the route names a task of the latest manifest and carries that task's index |
| SubmissionToRelease.DeliveriesKeepIndices | src/myloware/workers/handlers.py:183-190 | polls and routed events, in any order, store every clip with its task's index |
| SubmissionToRelease.ClipsCarrySubmittedIndex | src/myloware/workers/handlers.py:183-190 | whatever order clips arrive in, by either handler, each carries the index of the video it was paid for |
| RenderManager.RenderManager.Insert | services/remotion/api/render.ts:93-109 | refuses at the cap, else adds one queued job |
| RenderManager.RenderManager.PruneJobs | services/remotion/api/render.ts:129-147 | the two pruning loops compute the specified map |
| RenderManager.RenderManager.StartRendering | services/remotion/api/render.ts:176-177 | the job is rendering, in its slot of the map |
| RenderManager.RenderManager.FinishRendering | services/remotion/api/render.ts:201-213 | the job ends done or failed in place, keeping its slot in the map until a later pruning |
| RenderManager.PruneExactly | services/remotion/api/render.ts:129-147 | pruning drops the expired finished jobs and then the fewest oldest finished ones that reach the cap, never an unfinished one |
| RenderManager.PruningDropsExactly | services/remotion/api/render.ts:93-147 | in every run of the service pruning drops exactly the finished jobs older than the time to live; the cap never evicts any |
| RenderManager.StatusTells | services/remotion/api/render.ts:176-221 | over all runs a job is rendering while it is processed, and then done or an error with the message its processing failed with |
| RenderManager.MapStaysBounded | services/remotion/api/render.ts:93-221 | over all runs the map respects its cap and holds every accepted unfinished job |
| ClipCache.FindCachedVideos | src/myloware/storage/repositories.py:417-476 | the one-pass index returns the specified clips for every limit |
| ClipCache.CheckVideoCache | src/myloware/workflows/helpers.py:98-152 | the filled list and the missing signs as specified |
| ClipCache.Fill | src/myloware/workflows/helpers.py:140-143 | the list is filled cyclically from the front |
| ClipCache.AllHitsReturned | src/myloware/storage/repositories.py:468-476 | a limit covering the signs returns every sign's newest clip in sign order |
| ClipCache.HitsAreNewest | src/myloware/storage/repositories.py:446-463 | every hit is the newest clip of its topic and sign |
| ClipCache.TopicSearchExactly | src/myloware/storage/repositories.py:417-476 | without signs the newest clips of the topic are returned, newest first, all or as many as the limit allows, at least one |
| ClipCache.UrlsAreOfHits | src/myloware/workflows/helpers.py:119-143 | the urls handed out are exactly the non-empty uris of the hits |
| ClipCache.TruthfulExactly | src/myloware/workflows/helpers.py:114-130 | for distinct signs and any limit of at least one, the missing signs are exactly those without a clip iff the signs that have one are no more than the limit and the newest clip of each has a uri |
| ClipCache.MissingAreUncached | src/myloware/workflows/helpers.py:126-130 | with room for every sign, the missing signs are exactly those without a clip iff every newest clip has a uri |
| ClipCache.SmallLimitMisreports | src/myloware/workflows/helpers.py:114-128 | a limit below the number of signs reports a cached sign as missing |
| ClipCache.EmptyUriHidesOlder | src/myloware/workflows/helpers.py:119-124 | a newest clip with an empty uri hides older usable ones |
| MergeInPlace.DeepMergeDicts | src/myloware/config/loaders.py:56-74 | on mutable dictionaries the loop yields a new object showing the merge, writes to neither input, and shares every nested dictionary it did not merge |
| DeepMerge.CoversExactly | src/myloware/config/loaders.py:56-74 | the merge is the override itself iff the override covers the base |
| DeepMerge.Reapply | src/myloware/config/loaders.py:145-155 | re-applying an override changes nothing |
| DeepMerge.AssociativeExactly | src/myloware/config/loaders.py:56-74 | three layers merge the same in either grouping iff every dictionary forgotten by a middle leaf is restored by the last layer |
| DeepMerge.AssociativeWithoutConflict | src/myloware/config/loaders.py:56-74 | layers that agree on the shape of every path merge associatively |
| DeepMerge.GroupingMatters | src/myloware/config/loaders.py:56-74 | three concrete layers whose grouping matters |
| DeepMerge.LookupInMerge | src/myloware/config/loaders.py:56-74 | any path is answered by the override where it decides the path, by the base elsewhere |
| DeepMerge.OverrideElseBase | src/myloware/config/loaders.py:145-155 | without conflicts the override's leaf if it has one, else the base's |

## Left out

- SQL sessions: identity map, expiry and flush errors; the store is an in-memory transaction with atomic commit
  and rollback, and a duplicate enqueue is the no-op its callers intend.
- Concurrency inside one handler: handlers of one run are executed one after another; the existence check and
  the insert of two overlapping executions are not atomic in the code.
- A poll that raises is rolled back whole; the handlers' own commits before returning are not separate steps.
- LangGraph, resume and human-approval internals: run and resume jobs are opaque. That a handler enqueues only
  kinds of smaller rank is proved for the Sora and Remotion handlers (`FanInTheorems.OnlyResumeIsEnqueued`,
  `RenderFanIn.OnlyRenderResumeIsEnqueued`) and assumed of the LangGraph ones; only `Termination.dfy` uses it.
- Network, downloads, transcoding, rendering, files and callbacks: each is an outcome given to the handler.
- sha256 and UUID generation: the key data is the key, and a fresh id is an argument.
- SubmissionToRelease.ReleasedExactly: deliveries between the tool's commit of the manifest and the producer node's
  update of the run are not part of it.
- The wall clock: an argument of every operation, advanced by explicit steps.
- Floating point: intervals, delays and costs are reals.
- run_worker's start-up and its sleep between empty passes.
- Polling progress records, logging and telemetry: they do not influence the modelled state.
- Key order of configuration dictionaries, cyclic dictionaries, and values other than dictionaries as anything but text.
- Non-integer video indices and the JSON parsing of url lists.
- A webhook's own metadata: `SubmissionToRelease.ClipsCarrySubmittedIndex` is about events that carry none, since the
  provider returns none.
- A repair's manifest lists its tasks by index; the original's follows the order in which they were collected.
- The in-process webhook path, the rest of the HTTP layer, the command line and the user interfaces.
