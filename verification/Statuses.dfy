/** The status enumerations of `db/models.py` that the models use. */
module Statuses {

  datatype AttemptStatus =
    | Created | QueuedWorker | PreparingWorktree | RunningWorker | WaitingForCommit | Committed
    | WorkerFailed | Reviewing | Accepted | Rejected | RetryRequested | MergeReady | Merged
    | Abandoned | Cancelled | Failed

  datatype TaskStatus =
    | Draft | Ready | Queued | Running | WaitingForReview | ChangesRequested | Completed
    | Blocked | TaskCancelled | TaskFailed

  datatype WorktreeStatus =
    | Planned | Creating | WtReady | InUse | DirtyResult | WtCommitted | WtReviewing | WtMergeReady
    | WtMerged | WtAbandoned | CleanupPending | Cleaned | WtFailed

  datatype ReviewStatus =
    | RvCreated | RvReviewing | RvApproved | RvMergePrepared | RvMerged | RvRejected | RvFailed | RvCancelled

  datatype ApprovalStatus = ApPending | ApApproved | ApRejected | ApStale | ApCancelled | ApExpired

  datatype RunStatus =
    | RunCreated | RunQueued | RunRunning | RunSucceeded | RunFailed | RunCancelled | RunSkipped

  /** `RECOVERABLE_ATTEMPT_STATUSES`: an attempt that fails with its stale run. */
  const RECOVERABLE := {Created, QueuedWorker, PreparingWorktree, RunningWorker, WaitingForCommit, RetryRequested}

  /** `LEASE_TTL`, in seconds. */
  const LEASE_TTL := 300

  datatype WorkerStatus =
    | Available | Claimed | WkRunning | HeartbeatLost | Expired | Released | WkCompleted
    | WkCancelled | WkFailed | Revoked
}
