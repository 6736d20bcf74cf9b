# AI work items: proofs about the local server

The server runs AI work items. A task has numbered attempts; an attempt is claimed by a worker under a
lease, or queued for it as a worker run. Its result is committed in a git worktree after a check of the
task's write scope, then reviewed, approved by fingerprint, and squash-merged. This project models that
behaviour in Dafny and proves what holds of it over every run and every input. Where a claim that looks
natural is false of the code, a lemma shows how it fails and another gives the exact condition under which
it holds.

`dafny verify dfyconfig.toml` checks everything.

| files | what they model |
|---|---|
| `WriteScope`, `WriteScopeNormalForm`, `WriteScopeInput`, `WriteScopeCoverage`, `Porcelain` | path normalisation, the scope check, the `git status --porcelain=v1 -z` parser |
| `MergePipeline`, `MergeProvenance`, `MergeRepository`, `MergeReviews`, `MergeOutcomes`, `MergeService`, `BranchNames` | commit-result, review, approval requests and squash against a repository anyone may move |
| `ClaimLeases`, `ClaimRuns`, `ClaimWorkers`, `ClaimService` | claim, heartbeat, release and revoke under five-minute leases |
| `WorkerQueue`, `QueueSteps`, `QueueLoop`, `QueueOutcome`, `QueueService` | worker runs, capacity one, the drain and the background loop |
| `Liveness`, `LivenessRuns`, `LivenessService` | stale-run recovery and the scheduler tick |
| `Transitions` | the status tables and how long an attempt can live |
| `AttemptPolicy`, `AttemptRuns`, `AttemptDecisions`, `AttemptService`, `RetrySummary` | creation, follow-up, accept, reject; the follow-up part of the workspace summary |
| `DiffLines`, `DiffLineFacts`, `DiffHunks`, `UnifiedDiff`, `UnifiedDiffFacts`, `PrintedHunks` | the diff viewer's parser |
| `Common`, `Statuses` | results, text splitting, decimals, the status enumerations |

Each part that changes rows has three layers. A pure step function says what a request does to the state. A
class with the rows as fields does it in place, statement by statement and loop by loop, and each of its
methods is proved to take exactly that step. Lemmas over runs of the steps give the guarantees. A request
that fails before its commit leaves the state as it was; where the code commits before it raises, the step
keeps that commit.

Points where the code decides, whatever one might expect:

- A claim looks at the attempt's status only when nobody holds it, so an attempt left under an expired lease
  is claimed in any status, merged included (`MergedAttemptReclaimed`).
- Claims, releases and the queue write an attempt's status without the transition table. So a failed source can be
  claimed again after its follow-up, which leaves two active attempts (`ReclaimedSourceDoubles`, `OneLineRuns`),
  and the number of changes has no bound that leaves such writes out (`ClaimAndReleaseUnbounded`,
  `AttemptLifeBound`).
- The start tool makes its worker the holder of an attempt without a lease, which no claim takes away
  (`ReservedUntilReleased`).
- `worker.run_task_attempt` does not look at the run's status, so a run that has ended in any way may run again
  (`TerminalRunRevived`).
- A queued mock run ends the background loop with the rest still waiting (`MockEndsLoop`); `EmptiesQueue` says
  exactly when nothing is left.
- Beginning an execution marks the run running a second time, which may be late (`LateRestartBreaksCapacity`,
  `CapacityRuns`), and two checked claims of one worker may both be written (`SplitClaimsDoubleUpReached`,
  `SingleLeaseRuns`).
- A revoked worker that releases its attempt is shown as available (`RevokedShowsAvailable`); it still can claim
  nothing (`RevokedForGood`).
- A worktree that git could not add leaves a row, and the attempt never gets another (`FailedCreationIsFinal`).
- The workspace summary names one source and may say no although another attempt could be followed up
  (`SummaryMissesExactly`).
- The diff viewer does not reset its line counters at a new file, takes an added line whose text starts with
  `++` for meta text, and shows both sides of a header instead of the path when the line ends in a carriage
  return.

## Model

| member | source | states |
|---|---|---|
| `MergeProvenance.SquashProvenance` | apps/server/src/aidp_server/reviews.py:426-524 | In every run, with the source repository moving at will, each successful squash has a last commit-result before it whose report passed the task's write scope, and after that an approval of exactly this result, base branch, base commit and the default commit message, in a clean source repository standing on that base |
| `MergeProvenance.CommittedPathsAcceptable` | apps/server/src/aidp_server/worktrees.py:413-416 | Every path such a commit-result took in lies under an entry of the normalised scope, component by component, and respects the new-file and protected-path flags |
| `MergeProvenance.TwoSquashes` | apps/server/src/aidp_server/reviews.py:434-435 | Two successful squashes of one attempt have a successful commit-result of it between them |
| `MergeProvenance.SquashesRestApart` | apps/server/src/aidp_server/reviews.py:434-456 | And whatever commit-result and approval each of the two rests on, those of the second come after the first squash |
| `MergeRepository.NextSquashIsOnTop` | apps/server/src/aidp_server/reviews.py:436-461 | Of two successive squashes into one repository the later is of a worktree cut from the merge commit of the earlier, or someone moved the repository between them |
| `MergeRepository.DirtyUntilMoved` | apps/server/src/aidp_server/reviews.py:458-461 | Once someone leaves a repository dirty, no squash, preparation or worktree creation in it succeeds until someone moves it again, and attempt, task, worktree and repository rows stay as they are |
| `MergeRepository.SquashFoundClean` | apps/server/src/aidp_server/reviews.py:110-116 | A successful squash found its repository readable and without local changes |
| `MergeRepository.CreationCutsFromHead` | apps/server/src/aidp_server/worktrees.py:138-196 | A new worktree remembers head and branch of a clean repository as its base |
| `MergeRepository.CreatedWorkCanBeMerged` | apps/server/src/aidp_server/worktrees.py:123-205 | From the creation on, as long as nobody moves the repository and nothing is squashed into it, work committed in the worktree can be approved and then squashed, whatever else went on |
| `MergeRepository.RepoStays` | apps/server/src/aidp_server/reviews.py:466-482 | Only a squash into it and whoever works in it outside change a repository |
| `MergeRepository.RowsLast` | apps/server/src/aidp_server/worktrees.py:171-185 | Over any stretch of a run rows stay, and an attempt keeps task and repository, a task title and scope, a worktree branch and base |
| `MergeProvenance.SquashAfterReject` | apps/server/src/aidp_server/reviews.py:337-351 | A squash after a rejection rests on a commit-result and an approval that are both later than the rejection |
| `MergeProvenance.RecommitNeeded` | apps/server/src/aidp_server/reviews.py:180-186 | An attempt that is not committed becomes committed again only through a commit-result |
| `MergeProvenance.CompletedOnlyBySquash` | apps/server/src/aidp_server/reviews.py:507-512 | A step that turns a task completed is a successful squash of an attempt of that task |
| `MergeProvenance.UpdateCompletesNothing` | apps/server/src/aidp_server/work.py:543-563 | Not by the status endpoint either, whose table has the completion taken out |
| `MergeProvenance.ResultFromCommit` | apps/server/src/aidp_server/worktrees.py:432-440 | The result commit a worktree row holds is the one of the last commit-result of its attempt |
| `MergeProvenance.RequestFromApproval` | apps/server/src/aidp_server/reviews.py:258-285 | Every approval request stands for an approval of its attempt that computed this very fingerprint from the worktree as it stood then |
| `MergeProvenance.StepKeepsRequests` | apps/server/src/aidp_server/approvals.py:100-141 | No step drops a request or changes its attempt or fingerprint; a closed request keeps its status; only an approval makes or grants one, and only for the fingerprint it computed |
| `MergeProvenance.ClosedStaysClosed` | apps/server/src/aidp_server/approvals.py:119-141 | Over any stretch of a run a stale or rejected request never becomes approved again |
| `MergeProvenance.RefusedSquashClears` | apps/server/src/aidp_server/reviews.py:452-456 | A squash refused for want of a valid approval leaves its attempt without any approved request |
| `MergeProvenance.ApproveThenSquash` | apps/server/src/aidp_server/reviews.py:436-461 | A squash right after an approval, with the default message and git willing, succeeds if and only if the repository is readable, has no local changes, and its head and branch are the worktree's base |
| `MergeProvenance.CommittedWorkCanBeMerged` | apps/server/src/aidp_server/reviews.py:241-310 | Work just committed can be approved, and the squash after that succeeds under the same condition on the repository |
| `MergeReviews.OnlyDefaultMessage` | apps/server/src/aidp_server/reviews.py:444-456 | In every run a successful squash carries the default message, given or not |
| `MergeReviews.ForeignMessageRefused` | apps/server/src/aidp_server/reviews.py:444-456 | In every run a squash right after the approval with a message of its own is refused for want of a valid approval |
| `MergeReviews.PrepareExact` | apps/server/src/aidp_server/reviews.py:367-399 | On committed work prepare succeeds if and only if the repository is clean and on the base, and says dirty if and only if it is unreadable or dirty |
| `MergeReviews.PrepareForecasts` | apps/server/src/aidp_server/reviews.py:367-423 | On approved work prepare succeeds if and only if the squash would, and then changes nothing |
| `MergeReviews.NoSquashWithoutReview` | apps/server/src/aidp_server/reviews.py:434-435 | After a rejection, a merge that git refused or a merge done, no squash of the attempt gets past the review until the next approval |
| `MergeReviews.LookLeavesNothingOutdated` | apps/server/src/aidp_server/reviews.py:119-133 | After a look the newest request is open only if it describes attempt, worktree, repository head and default message as they are |
| `MergeReviews.LookSparesCurrent` | apps/server/src/aidp_server/reviews.py:119-133 | A request that does, and every request but the newest, is left as it was |
| `MergeReviews.OtherRequestsStay` | apps/server/src/aidp_server/approvals.py:129-141 | No step touches a request of another attempt than its own |
| `MergeOutcomes.OutOfScopeNotApproved` | apps/server/src/aidp_server/worktrees.py:470-484 | Work refused for its scope cannot be approved |
| `MergeOutcomes.CommitGrantedExactly` | apps/server/src/aidp_server/worktrees.py:396-449 | A commit-result goes through if and only if the attempt is claimed with task and worktree, something has changed, all of it lies in scope and git commits |
| `MergeOutcomes.RefusedCommitLeaves` | apps/server/src/aidp_server/worktrees.py:466-485 | A refused commit-result marks attempt and worktree when out of scope and changes nothing otherwise |
| `MergeOutcomes.FailedCreationIsFinal` | apps/server/src/aidp_server/worktrees.py:190-221 | A creation that git refused leaves a row for which the endpoint never creates a worktree again |
| `MergeOutcomes.DecidedExactly` | apps/server/src/aidp_server/reviews.py:180-186 | Approvals and rejections go through if and only if attempt and worktree are committed with a result; otherwise nothing changes, by prepare either |
| `MergeOutcomes.ReviewNeededExactly` | apps/server/src/aidp_server/reviews.py:434-435 | A squash of committed work is refused for its review if and only if there is none approved or prepared |
| `MergeOutcomes.RejectedReview` | apps/server/src/aidp_server/reviews.py:326-345 | A rejection ends the review, which keeps the commit of an earlier merge |
| `MergeOutcomes.ApprovedReviewLeft` | apps/server/src/aidp_server/reviews.py:253 | And so does an approval reopen it |
| `MergeOutcomes.PrepareLeavesNothingOutdated` | apps/server/src/aidp_server/reviews.py:386-396 | Prepare leaves the newest request open only if it describes what is there |
| `MergeOutcomes.MessagesAlike` | apps/server/src/aidp_server/reviews.py:444 | An empty message and the default one are as good as none |
| `MergeOutcomes.GitFailureLeaves` | apps/server/src/aidp_server/reviews.py:480-492 | A failed merge ends the review and changes nothing else; a failed commit changes nothing |
| `MergeOutcomes.ApprovalSurvivesExactly` | apps/server/src/aidp_server/reviews.py:258-310 | The request of an approval is approved after it, or stale at once if and only if the head is not the worktree's base |
| `MergeOutcomes.SquashSpendsApproval` | apps/server/src/aidp_server/reviews.py:506-524 | After a merge the newest request of the attempt is no longer open |
| `MergeOutcomes.RefusedSquashStales` | apps/server/src/aidp_server/approvals.py:129-141 | After a refusal for want of an approval a request is open if and only if it was pending and describes this very squash |
| `MergeOutcomes.StepClosesHow` | apps/server/src/aidp_server/reviews.py:344-351 | A request closed by a rejection is rejected, by any other step stale |
| `MergeProvenance.ApproveGrants` | apps/server/src/aidp_server/reviews.py:266-285 | An approval changes nothing but the review and the requests, and opens only the request with its fingerprint |
| `MergeProvenance.RejectCloses` | apps/server/src/aidp_server/reviews.py:344-351 | After a rejection no request of the attempt is pending or approved |
| `MergeProvenance.StepKeepsResult` | apps/server/src/aidp_server/worktrees.py:435-438 | No step but a commit-result gives a worktree a result or makes its attempt committed |
| `MergeProvenance.ApprovalAfterCommit` | apps/server/src/aidp_server/reviews.py:258-264 | An approval that saw the result of a commit-result comes after it |
| `MergeService.ReviewService.ApproveReview` | apps/server/src/aidp_server/reviews.py:242-310 | The endpoint, row by row, takes exactly the approve step |
| `MergeService.ReviewService.ApproveRequest` | apps/server/src/aidp_server/reviews.py:266-285 | A pending request of the right fingerprint is reused, otherwise a new one is made, and it is approved |
| `MergeService.ReviewService.RejectReview` | apps/server/src/aidp_server/reviews.py:314-363 | The endpoint takes exactly the reject step |
| `MergeService.ReviewService.RejectOpenRequests` | apps/server/src/aidp_server/reviews.py:344-351 | The loop rejects the pending and approved requests of the attempt and touches no other |
| `MergeService.ReviewService.PrepareMerge` | apps/server/src/aidp_server/reviews.py:367-423 | The endpoint takes exactly the prepare step: a stale request stays stale even when the answer is an error |
| `MergeService.ReviewService.SquashMerge` | apps/server/src/aidp_server/reviews.py:427-524 | The endpoint takes exactly the squash step, with every refusal in the order of the code |
| `MergeService.ReviewService.CheckApproval` | apps/server/src/aidp_server/reviews.py:444-456 | Whether the fingerprint of what is there now is approved; if not, the attempt's outdated open requests become stale |
| `MergeService.ReviewService.RecordMerge` | apps/server/src/aidp_server/reviews.py:506-512 | The five rows a merge writes |
| `MergeService.ReviewService.UpdateTaskStatus` | apps/server/src/aidp_server/work.py:543-563 | The status endpoint of a task takes exactly the update step: its own status or one of the public table |
| `MergeService.ReviewService.MergeAndCommit` | apps/server/src/aidp_server/reviews.py:482-512 | The merge, the commit and the rows after them: a failed merge marks the review failed, a failed commit changes nothing |
| `MergeService.ReviewService.FindValidApproval` | apps/server/src/aidp_server/approvals.py:100-106 | True if and only if some approved request carries the fingerprint |
| `MergeService.ReviewService.MarkStaleIfFingerprintChanged` | apps/server/src/aidp_server/approvals.py:129-141 | The loop makes stale exactly the open requests of the attempt with another fingerprint |
| `MergeService.ReviewService.GetCurrentApproval` | apps/server/src/aidp_server/reviews.py:119-133 | The newest request of the attempt, made stale when outdated and open |
| `MergeService.ReviewService.ShowDetail` | apps/server/src/aidp_server/reviews.py:136-177 | Showing a review, with the default message and the current head |
| `MergeService.ReviewService.CommitWorktreeResult` | apps/server/src/aidp_server/worktrees.py:396-485 | The endpoint takes exactly the commit-result step, a scope violation marking worktree and attempt |
| `MergeService.ReviewService.EnsureWorktree` | apps/server/src/aidp_server/worktrees.py:123-224 | The creation endpoint takes exactly the create step, an existing worktree being answered before an unclaimed attempt, on the first name of stem, stem-2, ... that is no branch |
| `MergePipeline.Latest` | apps/server/src/aidp_server/reviews.py:120-128 | The place of the newest request of an attempt, none if and only if it has none |
| `BranchNames.FindBranch` | apps/server/src/aidp_server/worktrees.py:159-169 | The search ends after at most one try more than there are branches, with the first free name of stem, stem-2, stem-3, ... |
| `BranchNames.TakenNames` | apps/server/src/aidp_server/worktrees.py:159-169 | The pigeonhole behind it: n taken names need n distinct branches |
| `BranchNames.CandidatesDiffer` | apps/server/src/aidp_server/worktrees.py:168-169 | No two suffixes give the same name |
| `ClaimRuns.ReachableSingleLease` | apps/server/src/aidp_server/work.py:988-996 | In every run of atomic claims and without the start tool no worker holds two running leases |
| `ClaimRuns.ReachableBounded` | apps/server/src/aidp_server/work.py:997-1012 | In every run, claims split or not, no lease ends later than five minutes from now |
| `ClaimRuns.RevokedLeasesEnd` | apps/server/src/aidp_server/work.py:955-964 | From a revocation on, for good, every lease of the worker ends within five minutes of it, even of a claim checked before, unless the start tool makes it the holder of a longer one |
| `ClaimRuns.HandOverHasGap` | apps/server/src/aidp_server/work.py:997-1015 | However split claims interleave, between running leases of two workers on one attempt lies a moment without any, or the start tool gave the attempt away |
| `ClaimRuns.HeartbeatExact` | apps/server/src/aidp_server/work.py:926-933 | A heartbeat renews exactly the running leases of the worker: one that has expired is not revived |
| `ClaimRuns.ReservedUntilReleased` | apps/server/src/aidp_server/owner_tools.py:178-180 | An attempt the start tool has taken is held under no lease, and no claim takes it, failed or not, until its holder releases it |
| `ClaimRuns.MergedAttemptReclaimed` | apps/server/src/aidp_server/work.py:979-983 | A merged attempt is turned back to running by a free worker's claim if and only if it was left under a lease that has expired |
| `ClaimRuns.ReleasedClaimable` | apps/server/src/aidp_server/work.py:1045-1054 | After a release a worker neither revoked nor busy gets the attempt if and only if it stands created, retry_requested or worker_failed |
| `ClaimWorkers.ReleaseGrantedExactly` | apps/server/src/aidp_server/work.py:1045-1055 | A release goes through exactly for the holder, to four statuses or none, and frees attempt and worker |
| `ClaimWorkers.ClaimMarks` | apps/server/src/aidp_server/work.py:984-1017 | A claim marks its worker claimed, the one whose lease is over expired unless revoked, and nobody else |
| `ClaimWorkers.ClaimLeaves` | apps/server/src/aidp_server/work.py:997-1022 | It writes holder, a lease of 300 seconds and running_worker to the attempt, and running to the task |
| `ClaimWorkers.AssignGrantedExactly` | apps/server/src/aidp_server/owner_tools.py:178-180 | The start tool takes a created or queued attempt from whoever holds it and leaves the lease |
| `ClaimWorkers.RevokeMarks` | apps/server/src/aidp_server/work.py:956-964 | A revocation marks its worker, and nobody else |
| `ClaimWorkers.RevokedForGood` | apps/server/src/aidp_server/work.py:920-976 | A revoked worker stays revoked in every run, and no claim or heartbeat of it is ever granted |
| `ClaimWorkers.RevokedShownExactly` | apps/server/src/aidp_server/work.py:1037-1055 | Its status shows that until it releases an attempt or a claim checked before is written, and only until then |
| `ClaimWorkers.RevokedShowsAvailable` | apps/server/src/aidp_server/work.py:1037-1055 | A revoked worker that releases its attempt is shown as available |
| `ClaimRuns.SplitClaimsDoubleUp` | apps/server/src/aidp_server/work.py:988-1015 | With checks and update apart the one-lease rule fails wherever a worker may claim either of two free attempts |
| `ClaimRuns.FinishKeepsSingleLease` | apps/server/src/aidp_server/work.py:997-1015 | A late conditional update keeps the one-lease rule if and only if it is refused, its lease is already over, or its worker is free |
| `ClaimRuns.SingleLeaseRuns` | apps/server/src/aidp_server/work.py:988-1015 | Over any run, claims split or not: no worker ever holds two running leases if and only if each late update that took effect wrote a lease already over or found its worker free, and each assignment by the start tool found no running lease on its attempt or its worker free |
| `ClaimRuns.SplitClaimsDoubleUpReached` | apps/server/src/aidp_server/work.py:988-1015 | A run from the empty state reaches two running leases of one worker |
| `ClaimLeases.NoStealing` | apps/server/src/aidp_server/work.py:1001 | A step takes an attempt from a worker whose lease runs if and only if it is the start tool assigning it to another |
| `ClaimLeases.StepKeepsWindDown` | apps/server/src/aidp_server/work.py:976-977 | A step gives a revoked worker a lease past its deadline if and only if it is the start tool assigning it a leased attempt |
| `ClaimLeases.AssignKeepsSingleLease` | apps/server/src/aidp_server/owner_tools.py:178-180 | An assignment keeps one running lease a worker if and only if no lease runs on its attempt or its worker is free |
| `ClaimService.WorkService.ClaimAttempt` | apps/server/src/aidp_server/work.py:968-1033 | The endpoint takes exactly the claim step |
| `ClaimService.WorkService.UpdateIfFree` | apps/server/src/aidp_server/work.py:997-1013 | The conditional update writes the row only if it is free or expired, and says how many rows it changed |
| `ClaimService.WorkService.RecordHeartbeat` | apps/server/src/aidp_server/work.py:920-933 | The bulk update over attempts takes exactly the heartbeat step |
| `ClaimService.WorkService.ReleaseAttempt` | apps/server/src/aidp_server/work.py:1037-1066 | The endpoint takes exactly the release step |
| `ClaimService.WorkService.AssignWorker` | apps/server/src/aidp_server/owner_tools.py:178-180 | The start tool takes exactly the assignment step: holder and status, and the lease stays |
| `ClaimService.WorkService.RevokeWorker` | apps/server/src/aidp_server/work.py:956-964 | The endpoint takes exactly the revoke step |
| `WorkerQueue.CapacityOne` | apps/server/src/aidp_server/owner_tools.py:290-313 | In every run in which a hand-off and the beginning of its execution are one step, no worker has two running worker runs |
| `WorkerQueue.CapacityRuns` | apps/server/src/aidp_server/adapters/antigravity_cli.py:241-246 | Over any run, late beginnings among the steps: no worker ever has two running runs if and only if every late beginning found no other run of the worker running |
| `WorkerQueue.RunningIsMatching` | apps/server/src/aidp_server/owner_tools.py:446-496 | If besides every dispatch goes through the drain, running runs pair workers and tasks one to one |
| `WorkerQueue.TasksApartRuns` | apps/server/src/aidp_server/owner_tools.py:726-762 | Over any run, no task ever has two running runs if and only if every direct hand-off and every late beginning found no other run of the task running |
| `WorkerQueue.DirectDispatchesDoubleTask` | apps/server/src/aidp_server/owner_tools.py:726-762 | Two attempts of one task, each started for a worker of its own and dispatched directly, run at once |
| `WorkerQueue.DirectDispatchKeepsTasksApart` | apps/server/src/aidp_server/owner_tools.py:726-762 | A direct dispatch keeps two runs of one task apart if and only if none of the task is running |
| `WorkerQueue.RestartKeepsCapacity` | apps/server/src/aidp_server/adapters/antigravity_cli.py:241-246 | The second marking of a run, taken apart from its hand-off, keeps the capacity if and only if no other run of the worker runs by then |
| `WorkerQueue.LateRestartBreaksCapacity` | apps/server/src/aidp_server/adapters/antigravity_cli.py:241-246 | Hand-off, stale recovery, next hand-off and only then the first start give one worker two running runs |
| `WorkerQueue.TerminalRunRevived` | apps/server/src/aidp_server/owner_tools.py:726-762 | Exactly when a direct dispatch brings a succeeded, failed, cancelled or skipped run back to a status that is not final |
| `WorkerQueue.OnlyDispatchRevives` | apps/server/src/aidp_server/owner_tools.py:446-496 | No step but a direct dispatch of the run, or a late beginning of it, makes a terminal run one that is not |
| `WorkerQueue.Select` | apps/server/src/aidp_server/owner_tools.py:228-249 | The oldest waiting run of the worker that passes both tests, none if and only if there is none |
| `QueueLoop.RoundShrinksQueue` | apps/server/src/aidp_server/worker_execution.py:195-229 | Each round of the background loop takes one waiting run of the worker out of the queue, so the loop ends |
| `QueueLoop.RunsOldestFirst` | apps/server/src/aidp_server/worker_execution.py:200-225 | The loop runs only runs that were eligible when it began, oldest first, no two of one attempt, at most as many as were waiting |
| `QueueLoop.StopsOnlyWhenStuck` | apps/server/src/aidp_server/worker_execution.py:219-229 | The loop stops only when the worker is busy, no eligible run is left, or the oldest one cannot be handed off |
| `QueueLoop.EmptiesQueue` | apps/server/src/aidp_server/worker_execution.py:195-229 | The loop of a free worker leaves no eligible run behind if and only if the first eligible run of every attempt can be handed off, or is a mock run and the last of these |
| `QueueLoop.FreeAfterFinish` | apps/server/src/aidp_server/worker_execution.py:195-218 | The worker is free when the loop begins: with one running run a worker, the end of that run leaves it none |
| `QueueLoop.ExecutesExactly` | apps/server/src/aidp_server/worker_execution.py:195-229 | It executes exactly the first eligible run of each attempt up to the first of them that cannot be handed off |
| `QueueLoop.ExecutesAllFirst` | apps/server/src/aidp_server/worker_execution.py:195-229 | So if all of them can be handed off it executes exactly these, and leaves no eligible run |
| `QueueLoop.MockEndsLoop` | apps/server/src/aidp_server/owner_tools.py:412-443 | A mock run at the head of the queue ends the loop with every other eligible run still waiting |
| `QueueLoop.EligibleAfterRound` | apps/server/src/aidp_server/owner_tools.py:235-248 | A round removes exactly the runs of its attempt from the eligible ones |
| `QueueOutcome.ExecutedLeft` | apps/server/src/aidp_server/adapters/antigravity_cli.py:269-333 | In the final state every executed run is failed or succeeded as its execution ended, and its attempt worker_failed, committed, or running still when nothing was changed |
| `QueueOutcome.OtherRunsLeft` | apps/server/src/aidp_server/worker_execution.py:195-229 | Every other run is as it was, save the mock run the last drain finishes, whose attempt is accepted |
| `QueueOutcome.OneMockRun` | apps/server/src/aidp_server/owner_tools.py:412-443 | There is at most one such mock run |
| `QueueOutcome.OtherAttemptsLeft` | apps/server/src/aidp_server/worker_execution.py:195-229 | And so is every attempt of no executed run, save that of the mock run |
| `QueueSteps.StartedIsEligible` | apps/server/src/aidp_server/owner_tools.py:163-196 | A run just started is eligible if and only if no other run of its task is running |
| `QueueSteps.StartedIsHandedOff` | apps/server/src/aidp_server/owner_tools.py:446-496 | A drain of a free worker with nothing else eligible takes it, as far as gate and worktree allow |
| `QueueSteps.EligibleWithAttempt` | apps/server/src/aidp_server/owner_tools.py:228-249 | On an idle task a waiting run is eligible if and only if its attempt is created or queued |
| `QueueSteps.RefusedThenHandedOff` | apps/server/src/aidp_server/owner_tools.py:252-287 | A dispatch refused for a busy worker is taken up by a drain once that worker's run has ended |
| `QueueSteps.BusyDrainIdle` | apps/server/src/aidp_server/owner_tools.py:446-466 | A drain of a busy worker changes nothing |
| `QueueSteps.RefusedDispatchIdle` | apps/server/src/aidp_server/owner_tools.py:300-385 | Nor does a dispatch refused by adapter, gate or worktree |
| `QueueSteps.StartableExactly` | apps/server/src/aidp_server/owner_tools.py:597-640 | A start goes through if and only if the attempt is created or queued and has no run that waits or runs |
| `QueueSteps.StartLeaves` | apps/server/src/aidp_server/owner_tools.py:163-196 | It leaves one waiting run more and the attempt queued |
| `QueueSteps.StartNewLeaves` | apps/server/src/aidp_server/owner_tools.py:630-655 | Started by task, the run is of a new attempt, and every other is as it was |
| `QueueSteps.RecoverLeaves` | apps/server/src/aidp_server/worker_liveness.py:103-116 | Recovery fails a running run, and its attempt unless that is past its execution |
| `QueueService.QueueRunner.NextQueued` | apps/server/src/aidp_server/owner_tools.py:228-249 | The loop over the candidates finds exactly the selected run |
| `QueueService.QueueRunner.StartAttempt` | apps/server/src/aidp_server/owner_tools.py:597-683 | The tool takes exactly the start step for an existing attempt |
| `QueueService.QueueRunner.RunWorkerRun` | apps/server/src/aidp_server/owner_tools.py:290-443 | The dispatch takes exactly the dispatch step |
| `QueueService.QueueRunner.DrainNext` | apps/server/src/aidp_server/owner_tools.py:446-496 | The drain takes exactly the drain step |
| `QueueService.QueueRunner.EndExecution` | apps/server/src/aidp_server/adapters/antigravity_cli.py:269-333 | The outcome branches take exactly the finish step: the run always ends succeeded or failed |
| `QueueService.QueueRunner.BackgroundRunner` | apps/server/src/aidp_server/worker_execution.py:195-229 | The while loop terminates and computes exactly the specified loop |
| `Liveness.GlobalPassExact` | apps/server/src/aidp_server/worker_liveness.py:79-116 | One pass over all users fails exactly the running runs that are stale now, changes no other run, and fails only attempts of those runs in recoverable states |
| `Liveness.RecoverInTurn` | apps/server/src/aidp_server/worker_liveness_scheduler.py:41-65 | Recovering one group of users after another is recovering both at once |
| `Liveness.HitsAddUp` | apps/server/src/aidp_server/worker_liveness_scheduler.py:73-74 | The counts of disjoint groups of users add up |
| `Liveness.VisitAllRecovers` | apps/server/src/aidp_server/worker_liveness.py:76-116 | Whatever order the runs are visited in, what is recovered is the same |
| `Liveness.SameCount` | apps/server/src/aidp_server/worker_liveness.py:152-155 | And so is the number of runs recovered |
| `Liveness.SecondPassFindsNothing` | apps/server/src/aidp_server/worker_liveness.py:97-104 | A second pass at the same instant recovers nothing |
| `Liveness.StaleAttemptLeft` | apps/server/src/aidp_server/worker_liveness.py:108-116 | The attempt of a stale run becomes worker_failed at that time unless it is past its execution |
| `Liveness.UnleasedRecovered` | apps/server/src/aidp_server/worker_liveness.py:36-42 | A running run without a lease fails if and only if its last heartbeat, or else update, start or creation, is the timeout old |
| `Liveness.LeasedRecovered` | apps/server/src/aidp_server/worker_liveness.py:97-101 | One with a lease fails if and only if that has ended, whatever its last sign of life |
| `Liveness.SelectedExactly` | apps/server/src/aidp_server/worker_liveness.py:79-90 | A recovery looks at the user's runs, fewer only by a field that is given and not empty |
| `LivenessService.LivenessRunner.RecoverStaleWorkerRuns` | apps/server/src/aidp_server/worker_liveness.py:61-160 | Visiting the runs in any order, the loop recovers exactly the stale ones the filter selects and reports them in that order; a timeout that is not positive is refused |
| `LivenessService.LivenessRunner.BeatRuns` | apps/server/src/aidp_server/work.py:934-943 | The bulk update of a heartbeat over worker runs |
| `LivenessService.LivenessRunner.MarkRunningWithLease` | apps/server/src/aidp_server/worker_liveness.py:45-58 | Marking a run running under its start-up lease; a start time already set stays |
| `LivenessService.LivenessRunner.Tick` | apps/server/src/aidp_server/worker_liveness_scheduler.py:25-98 | User by user, in any orders, and in effect one global pass; the count is the number of runs recovered |
| `LivenessService.LivenessRunner.ListRunningUsers` | apps/server/src/aidp_server/worker_liveness_scheduler.py:32-36 | The users with a running run, each once |
| `LivenessRuns.SurvivesExactly` | apps/server/src/aidp_server/worker_liveness.py:95-107 | A leased running run is running if and only if every tick, and every recovery by the owner's tool that selects it, since it was last marked came before the deadline, under a lease up to that deadline, and otherwise has failed |
| `LivenessRuns.NeverRecovered` | apps/server/src/aidp_server/work.py:934-943 | A run whose worker beats in time is running after every event, however the ticks and the tool's recoveries fall and however often it is marked running again |
| `LivenessRuns.SilentRunFailsAtFirstDueVisit` | apps/server/src/aidp_server/worker_liveness.py:100-107 | When the worker stops, the first recovery of the run at or after the deadline, by tick or tool, fails it and none before does |
| `LivenessRuns.StartedRunSurvivesExactly` | apps/server/src/aidp_server/worker_liveness.py:45-58 | Whatever became of a run before: from its marking on it is running as long as every tick and every recovery that selects it comes before its due time, one term after the last heartbeat, or without one the start plus the timeout, and has failed otherwise |
| `LivenessRuns.DeadlineIsDueTime` | apps/server/src/aidp_server/worker_liveness.py:45-58 | The deadline the single steps set is that due time |
| `LivenessRuns.LastSignOfLife` | apps/server/src/aidp_server/work.py:934-943 | While a run survives its last heartbeat is its last renewal, by its worker or by a marking |
| `LivenessRuns.StartedOnce` | apps/server/src/aidp_server/worker_liveness.py:45-58 | A run keeps the start time of its first marking |
| `LivenessRuns.RestingRunStays` | apps/server/src/aidp_server/work.py:934-943 | A run that is not running is touched by neither heartbeats nor recoveries |
| `WriteScopeNormalForm.NormalizePathIsNormal` | apps/server/src/aidp_server/write_scope.py:39-54 | Every result is . or clean components joined by single slashes, none of them .., with at most one slash at the end |
| `WriteScopeInput.AcceptedExactly` | apps/server/src/aidp_server/write_scope.py:39-54 | Which raw paths are accepted: not empty, not absolute for POSIX or Windows, without .. and with a proper part or . alone; and which fault each other is refused for |
| `WriteScopeInput.AcceptedAs` | apps/server/src/aidp_server/write_scope.py:39-54 | An accepted path stands for its proper parts in order, and keeps a slash at its end |
| `WriteScopeInput.StripExactly` | apps/server/src/aidp_server/write_scope.py:40 | Before that white space is taken off both ends, all of it and nothing else |
| `WriteScopeInput.AsciiSpace` | apps/server/src/aidp_server/write_scope.py:40 | Which ASCII characters count as white space |
| `WriteScopeInput.ScopeAcceptedExactly` | apps/server/src/aidp_server/write_scope.py:57-90 | A raw scope is accepted if and only if it is well-formed, and an absent flag is off |
| `WriteScopeInput.NoScopeGiven` | apps/server/src/aidp_server/write_scope.py:57-60 | Without a scope every path may be changed, but none added and no protected one touched |
| `WriteScopeInput.ScopeRefusedWith` | apps/server/src/aidp_server/write_scope.py:57-90 | Another is refused for its first fault |
| `WriteScopeInput.ChangedExactly` | apps/server/src/aidp_server/write_scope.py:93-98 | A reported path is safe if and only if it is more than slashes and has no .., and stands for its proper parts |
| `WriteScopeNormalForm.NormalMeansRelative` | apps/server/src/aidp_server/write_scope.py:45-53 | Such an entry is relative, has no backslash and no empty, . or .. component |
| `WriteScopeNormalForm.NormalizeTwice` | apps/server/src/aidp_server/write_scope.py:39-54 | Normalising a normalised entry changes nothing if and only if it has no outer white space and does not look like a drive path |
| `WriteScopeNormalForm.NormalizeScopeTwice` | apps/server/src/aidp_server/write_scope.py:57-90 | Normalising a whole normalised scope again changes nothing if and only if no entry has outer white space or looks like a drive path |
| `WriteScopeNormalForm.DotSlashNormalizes` | apps/server/src/aidp_server/write_scope.py:39-54 | Every normal entry without a space at its end is the result of some raw path |
| `WriteScopeNormalForm.NormalizeTwiceFailsOnDrives` | apps/server/src/aidp_server/write_scope.py:45-46 | ./C:/x normalises to C:/x, which is refused |
| `WriteScopeNormalForm.NormalizeTwiceFailsOnSpaces` | apps/server/src/aidp_server/write_scope.py:40 | "./ a" normalises to " a", which does not normalise to itself |
| `WriteScopeNormalForm.NormalizedScope` | apps/server/src/aidp_server/write_scope.py:57-90 | An accepted scope holds exactly the normalised entries of the list, each once, in first-seen order, all in normal form |
| `WriteScopeNormalForm.DeduplicatedFirstSeen` | apps/server/src/aidp_server/write_scope.py:66-75 | The loop keeps every entry once, in the order of first appearance |
| `WriteScope.NormalizeWriteScope` | apps/server/src/aidp_server/write_scope.py:57-90 | The loop computes the specified scope, with the same error for each malformed input |
| `WriteScopeCoverage.TextCoversIsUnder` | apps/server/src/aidp_server/write_scope.py:127-137 | The textual prefix test is the component-wise one: apps/server/ never covers apps/serverX |
| `WriteScopeCoverage.AllowedIsAcceptable` | apps/server/src/aidp_server/write_scope.py:120-137 | The test of one path is coverage by an entry plus the two flags, an unsafe path being an error |
| `WriteScopeCoverage.SensitiveIsTextual` | apps/server/src/aidp_server/write_scope.py:101-117 | The textual test for protected paths is the one on components: a protected directory anywhere on the way, or a protected file name at its end |
| `WriteScopeCoverage.SensitiveAtEveryDepth` | apps/server/src/aidp_server/write_scope.py:101-117 | A protected file is protected at every depth, and another becomes so only below such a directory |
| `WriteScopeCoverage.ValidationExact` | apps/server/src/aidp_server/write_scope.py:140-151 | Validation succeeds if and only if the scope normalises and every path is acceptable; otherwise the error lists exactly the unacceptable paths in order, or the first unsafe one |
| `WriteScopeCoverage.WideningKeeps` | apps/server/src/aidp_server/write_scope.py:120-137 | A wider scope accepts every change the narrower one accepts, and so rejects no other path and no more of them |
| `WriteScopeCoverage.ValidationWidens` | apps/server/src/aidp_server/write_scope.py:140-151 | A validation that succeeds still succeeds under a wider scope |
| `WriteScopeCoverage.WidensExact` | apps/server/src/aidp_server/write_scope.py:127-137 | For normalised entries, widening judged on the entries is inclusion of the files covered |
| `Porcelain.ParsePorcelainV1Z` | apps/server/src/aidp_server/write_scope.py:154-176 | The loop computes the specified parse |
| `Porcelain.ParsePrint` | apps/server/src/aidp_server/write_scope.py:154-176 | Parsing the print of any list of status records gives the flattened records back |
| `Porcelain.ParseComplete` | apps/server/src/aidp_server/write_scope.py:154-176 | On any output that parses, every non-empty entry yields exactly one changed path, in order |
| `Porcelain.PrintedRecordRead` | apps/server/src/aidp_server/write_scope.py:154-176 | A path is new if and only if untracked or with A in either column; one with R or C stands with its source, which is not new |
| `Transitions.AttemptLifeBound` | apps/server/src/aidp_server/state_transitions.py:74-144 | An attempt that enters retry_requested k times and changes its status outside the table u times changes it at most 7k + 9u + 8 times |
| `Transitions.GuardedLifeBound` | apps/server/src/aidp_server/state_transitions.py:74-144 | Through the table alone it does so at most 7k + 8 times |
| `Transitions.GuardedLifeBoundIsTight` | apps/server/src/aidp_server/state_transitions.py:74-144 | For every k a life through the table reaches that bound |
| `Transitions.ClaimAndReleaseUnbounded` | apps/server/src/aidp_server/work.py:1046-1054 | Claimed and released as created n times, an attempt changes its status 2n times without a retry: no bound without counting such writes |
| `Transitions.AttemptLifeBoundIsTight` | apps/server/src/aidp_server/state_transitions.py:74-144 | For every k and u some life reaches the bound |
| `Transitions.BudgetPaysForStep` | apps/server/src/aidp_server/state_transitions.py:74-144 | The potential behind it: every change, in the table or not, lowers what is left by at least one |
| `Transitions.EnteredFrom` | apps/server/src/aidp_server/state_transitions.py:74-144 | From which statuses each status can be entered |
| `Transitions.PublicIsCutDown` | apps/server/src/aidp_server/state_transitions.py:249-286 | The public table is the full one cut down to failures, retries, cancellations and the wait for a commit, with nothing where work is open for review |
| `Transitions.TaskEnteredFrom` | apps/server/src/aidp_server/state_transitions.py:37-72 | From which statuses a task can enter each, and that the endpoint leaves out exactly completion and the wait for review |
| `AttemptRuns.NumbersAreOneToN` | apps/server/src/aidp_server/attempt_actions.py:253-266 | In every run a task with n attempts has the numbers 1 to n, each once |
| `AttemptRuns.RunLifeBound` | apps/server/src/aidp_server/attempt_actions.py:85-90 | In every run a new attempt that enters retry_requested k times and is written u times without asking a table changes its status at most 7k + 9u + 8 times |
| `AttemptRuns.OneLineExact` | apps/server/src/aidp_server/attempt_retry_policy.py:21-33 | Exactly which steps, writers that ask no table among them, keep at most one active or adopted attempt per task |
| `AttemptRuns.OneLineRuns` | apps/server/src/aidp_server/attempt_retry_policy.py:67-96 | A run keeps that rule throughout if and only if no creation met an active or adopted attempt of its task, and no retry and no write of a status without the table revived a closed attempt beside one |
| `AttemptRuns.OnlyRetryRevives` | apps/server/src/aidp_server/state_transitions.py:115-143 | In the table a closed attempt becomes active again only by entering retry_requested; code that does not ask it needs none |
| `AttemptRuns.SourceRevivedExactly` | apps/server/src/aidp_server/work.py:997-1013 | After a granted follow-up a write to its source without the table keeps the rule if and only if it leaves the source closed |
| `AttemptRuns.ReclaimedSourceDoubles` | apps/server/src/aidp_server/work.py:979-1013 | It happens: create, claim, release as failed, follow up, claim the source again, and the task has two active attempts |
| `AttemptRuns.FollowUpGrantedExactly` | apps/server/src/aidp_server/attempt_retry_policy.py:67-96 | A follow-up succeeds if and only if its source is in a source status, the feedback is not empty and no other attempt of the task is live |
| `AttemptRuns.FollowUpLeavesOne` | apps/server/src/aidp_server/attempt_actions.py:247-267 | After it the new attempt, with the next number, is the only live one of the task; the source is closed with the feedback if it was open; no other row changes |
| `AttemptRuns.NoSecondFollowUp` | apps/server/src/aidp_server/attempt_retry_policy.py:85-96 | The next follow-up on the task is refused, whichever source it names |
| `AttemptRuns.AdoptedEndsFollowUps` | apps/server/src/aidp_server/attempt_retry_policy.py:19-33 | Once an attempt is accepted, merge-ready or merged no follow-up on its task succeeds, as long as no write without the table takes that back |
| `AttemptRuns.StaysAdoptedExactly` | apps/server/src/aidp_server/attempt_retry_policy.py:19-33 | It stays so throughout a run if and only if no such write occurs in it |
| `AttemptRuns.ReclaimEndsAdoption` | apps/server/src/aidp_server/work.py:979-1013 | And else it may end: merged work claimed under an expired lease and released as failed can be followed up |
| `AttemptDecisions.AcceptEndsFollowUps` | apps/server/src/aidp_server/attempt_actions.py:145-186 | After an acceptance the attempt is adopted and no follow-up on its task succeeds, as long as no write without the table takes that back |
| `AttemptDecisions.AcceptLeaves` | apps/server/src/aidp_server/attempt_actions.py:145-186 | An acceptance writes status, time and a given summary, and no other row |
| `AttemptDecisions.RejectOpensFollowUp` | apps/server/src/aidp_server/attempt_actions.py:189-231 | After a rejection with no other live attempt a follow-up succeeds and leaves time and reason in place |
| `AttemptDecisions.SourcesAreReviewableOrRetriable` | apps/server/src/aidp_server/attempt_retry_policy.py:11-17 | A follow-up starts from what is open for review or what the table lets retry |
| `AttemptDecisions.BlockingMeansMergeable` | apps/server/src/aidp_server/attempt_retry_policy.py:21-33 | An attempt blocks follow-ups if and only if it can still be merged, or is, without asking for a retry |
| `AttemptDecisions.PolicyObjectsExactly` | apps/server/src/aidp_server/attempt_retry_policy.py:67-96 | What the policy objects to, and that the attempt it names is the live rival with the least number |
| `AttemptDecisions.FollowUpRefusedWith` | apps/server/src/aidp_server/attempt_actions.py:234-250 | A follow-up is refused with the policy's objection, and for its feedback only when there is none |
| `AttemptDecisions.DecidableExactly` | apps/server/src/aidp_server/attempt_actions.py:145-231 | Accepting and rejecting go through if and only if the attempt is open for review, and a rejection has a reason |
| `AttemptDecisions.DecisionRefusedWith` | apps/server/src/aidp_server/owner_attempt_tools.py:98-156 | A refused decision names the first fault: no such attempt, not open for review, no reason |
| `AttemptDecisions.UpdateGrantedExactly` | apps/server/src/aidp_server/work.py:646-656 | The status endpoint lets through exactly the public table and the status there is |
| `AttemptDecisions.UpdateLeaves` | apps/server/src/aidp_server/work.py:640-680 | The status endpoint writes status and summary, and the time of completion only of what is accepted or merged already |
| `AttemptPolicy.FindBlocking` | apps/server/src/aidp_server/attempt_retry_policy.py:52-64 | The blocking attempt with the least number, none if and only if none blocks |
| `AttemptPolicy.MaxNumber` | apps/server/src/aidp_server/attempt_actions.py:253-258 | The highest number of the task, or 0 |
| `AttemptService.AttemptActions.RequestFollowUp` | apps/server/src/aidp_server/attempt_actions.py:234-306 | The endpoint makes exactly the specified follow-up or refuses it unchanged |
| `AttemptService.AttemptActions.FollowUpTool` | apps/server/src/aidp_server/owner_attempt_tools.py:159-214 | The tool has the same effect as the endpoint, its feedback checked after the policy |
| `AttemptService.AttemptActions.CloseAndCreate` | apps/server/src/aidp_server/owner_attempt_tools.py:174-193 | Source closed if open for review, then the new attempt |
| `AttemptService.AttemptActions.AcceptAttempt` | apps/server/src/aidp_server/attempt_actions.py:145-186 | Only an attempt open for review is accepted; an empty summary keeps the old one |
| `AttemptService.AttemptActions.RejectAttempt` | apps/server/src/aidp_server/owner_attempt_tools.py:126-156 | Only an attempt open for review is rejected, with a reason |
| `AttemptService.AttemptActions.UpdateAttempt` | apps/server/src/aidp_server/work.py:640-680 | The status endpoint, behind the public table |
| `AttemptService.AttemptActions.CreateAttempt` | apps/server/src/aidp_server/work.py:581-614 | A new attempt with the next number, no policy asked |
| `RetrySummary.SummaryAgreesWithPolicy` | apps/server/src/aidp_server/task_workspace.py:327-360 | For any listing of the task's attempts: available if and only if the policy accepts a follow-up from the named source, else refused for the attempt it names; no source named means no attempt can be one |
| `RetrySummary.ReachableSummaryAgrees` | apps/server/src/aidp_server/task_workspace.py:327-360 | In every reachable table the two agree |
| `RetrySummary.SameBlockingAttempt` | apps/server/src/aidp_server/task_workspace.py:335-344 | The blocking attempt shown is the one the policy finds |
| `RetrySummary.SummaryMissesExactly` | apps/server/src/aidp_server/task_workspace.py:327-355 | Some attempt can be followed up if and only if the summary says so or the attempt it shows as blocking is itself open for review and alone |
| `RetrySummary.SummaryCanMiss` | apps/server/src/aidp_server/task_workspace.py:327-344 | Two attempts for which it says no and the policy accepts |
| `RetrySummary.MissedReachable` | apps/server/src/aidp_server/work.py:581-614 | That table is reached |
| `RetrySummary.FirstSorted` | apps/server/src/aidp_server/task_workspace.py:327-344 | Sorting by number and taking the first match finds a match with the extreme number |
| `UnifiedDiff.ParseUnifiedDiff` | apps/web/src/components/dashboard/PersonalModeDashboard.tsx:162-213 | The loop computes the specified parse |
| `UnifiedDiff.FeedLine` | apps/web/src/components/dashboard/PersonalModeDashboard.tsx:175-212 | One round of the loop, branch by branch |
| `UnifiedDiffFacts.ParseLosesNothing` | apps/web/src/components/dashboard/PersonalModeDashboard.tsx:168-213 | For any text that is not blank the lines of all files in order are the lines of the text |
| `UnifiedDiffFacts.ParseNumbersLines` | apps/web/src/components/dashboard/PersonalModeDashboard.tsx:183-211 | Every line shows its kind and, per side, the last hunk's start (or 0) plus the lines of that side since; a new file does not reset it |
| `UnifiedDiffFacts.ParseCountsExactly` | apps/web/src/components/dashboard/PersonalModeDashboard.tsx:193-205 | All files count their added and removed lines exactly if and only if the first line of the text is neither |
| `UnifiedDiffFacts.GitDiffCountsExactly` | apps/web/src/components/dashboard/PersonalModeDashboard.tsx:176-182 | So they do for a text that starts with a git header |
| `UnifiedDiffFacts.ParseIsAll` | apps/web/src/components/dashboard/PersonalModeDashboard.tsx:213 | The files are those of the loop after the last line, and the last filter drops none |
| `UnifiedDiffFacts.FilesPerHeader` | apps/web/src/components/dashboard/PersonalModeDashboard.tsx:168-182 | One file a header, and one more if lines come before the first |
| `UnifiedDiffFacts.ParseCutsAtHeaders` | apps/web/src/components/dashboard/PersonalModeDashboard.tsx:174-212 | The files cut the text exactly at the headers: each holds, in order, the lines of its place among them |
| `UnifiedDiffFacts.SameFile` | apps/web/src/components/dashboard/PersonalModeDashboard.tsx:176-182 | Two lines stand in one file if and only if no header comes after the first up to the second |
| `UnifiedDiffFacts.FilesOpened` | apps/web/src/components/dashboard/PersonalModeDashboard.tsx:176-181 | A file opens with the header line it is named after, except the unnamed first one |
| `UnifiedDiffFacts.IdsDistinct` | apps/web/src/components/dashboard/PersonalModeDashboard.tsx:170-179 | No two files share an id |
| `DiffLineFacts.HunkReadBack` | apps/web/src/components/dashboard/PersonalModeDashboard.tsx:184-185 | A printed hunk header gives its two starts, with or without counts and whatever follows |
| `DiffLineFacts.HeaderPathExact` | apps/web/src/components/dashboard/PersonalModeDashboard.tsx:158-161 | The path shown is the new path if and only if no line terminator is in either and the old one holds no " b/" after its first character |
| `DiffLineFacts.TwoSidesShown` | apps/web/src/components/dashboard/PersonalModeDashboard.tsx:158-161 | A header line a/... b/... shows what comes after the first " b/" |
| `DiffLineFacts.OtherHeaderShown` | apps/web/src/components/dashboard/PersonalModeDashboard.tsx:158-161 | One of any other shape, with quoted paths say, shows all it says after leading white space |
| `DiffLineFacts.QuotedHeaderShown` | apps/web/src/components/dashboard/PersonalModeDashboard.tsx:160 | So a header with both paths in quotes shows both |
| `DiffHunks.MatchHunkExactly` | apps/web/src/components/dashboard/PersonalModeDashboard.tsx:184 | A text starts with a hunk header if and only if it is written as the pattern has it, and the two starts are its numbers |
| `DiffHunks.FindHunkFirst` | apps/web/src/components/dashboard/PersonalModeDashboard.tsx:184-185 | In a line the first header counts, and none is found only where there is none |
| `DiffLineFacts.AddedLineExact` | apps/web/src/components/dashboard/PersonalModeDashboard.tsx:189-193 | A printed added line is taken for one if its text does not start with ++, and for meta text if it does |
| `DiffLineFacts.RemovedLineExact` | apps/web/src/components/dashboard/PersonalModeDashboard.tsx:189-199 | A printed removed line is taken for one if its text does not start with --, and for meta text if it does |
| `PrintedHunks.PrintedHunkRead` | apps/web/src/components/dashboard/PersonalModeDashboard.tsx:175-211 | A line of a printed hunk is shown as the edit it is if and only if its text does not double its sign, and with its true old and new numbers if and only if besides no line before it that shares a side with it does |
| `PrintedHunks.EveryKindExactly` | apps/web/src/components/dashboard/PersonalModeDashboard.tsx:183-211 | Every line of a text is added, removed, kept or meta text by its first signs alone |

## Left out

- HTTP routing, views, authentication, several users of one row, audit and policy rows, artifacts: all rows
  belong to one user, except in `Liveness`, where the tick loops over users.
- Real git: a repository is a branch, a head and a dirty flag, and a commit gives a sha not seen before. The
  head moves between requests, not within one. The reads and the artifact after the squash commit succeed.
- Fingerprints are the tuple of the hashed fields, so they never collide; user, project, risk level and the
  worktree's own id are fixed by the attempt and are not repeated in it. Time is one integer clock.
- MergeService.ReviewService.ShowDetail: the closing `git diff` of the reply, which may fail after the
  commit, changes no row and is not modelled.
- MergeService.ReviewService.EnsureWorktree: the test of the worktree path on disk is not modelled, and the
  branches do not change between their reading and the creation.
- MergeProvenance.SquashProvenance: worker adapters, cleanup and status updates appear only as steps that set
  a status; commit-result is the one writer of a result, which holds of the code because all adapters
  commit through `apply_worktree_result`.
- Only the newest merge review of an attempt is kept; the code never makes a second one.
- ClaimRuns.HandOverHasGap: a claim is split in its checks and its update, each of them atomic; heartbeats,
  releases and revocations are atomic steps.
- Claims and the owner queue are two models: a claim does not appear in the queue, nor a worker run among
  the claims, but for the start tool's assignment of a worker.
- ClaimLeases.NoStealing: the start tool also refuses an attempt with an active worker run; the assignment here
  looks at the attempt's status only.
- AttemptRuns.OneLineRuns: a writer that asks no table may write any status at any time, where claim, release,
  hand-off, commit-result, squash and recovery each write a few under conditions of their own.
- ClaimService.WorkService.RecordHeartbeat: the heartbeat's update of worker runs is not in it; it is
  `LivenessService.LivenessRunner.BeatRuns`, over the rows of that model.
- WorkerQueue.CapacityOne: runs with a late beginning are excluded, since the rule is false of them;
  `CapacityRuns` has the exact condition. The experimental, manual and mock HTTP adapters, which start runs
  without a capacity check, are not among the steps.
- QueueLoop.EmptiesQueue: nothing enqueues while the loop runs, and the gate and the worktrees stay as they
  are.
- QueueService.QueueRunner.StartAttempt: the lookup of the system worker and of the task's owner; the worker
  is a parameter.
- LivenessService.LivenessRunner.RecoverStaleWorkerRuns: the order of the visit is a parameter, any one, where
  the code sorts by the time of the last update; audit rows and the report's texts are not modelled.
- Tables for worker runs, workers and worktrees: no code enforces the first and the last, and the bounds
  would repeat the attempt's.
- AttemptService.AttemptActions.FollowUpTool: error messages and the tool call's own row are reduced to the
  kind of error; work-room messages are not modelled.
- RetrySummary.SummaryAgreesWithPolicy: the counters of the summary that are plain counts, and its worker-run
  fields.
- UnifiedDiff.ParseUnifiedDiff: files are values and the current one is the last, where the code keeps a
  reference to it; characters are code points, not UTF-16 units; numbers are unbounded, where JavaScript
  loses precision past 2^53.
- Owner providers, sessions, conversations, redaction, process environment, agent-run step numbers, the
  tool registry: input and output, flat mappings, or easy.
