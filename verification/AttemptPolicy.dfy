/** Follow-up policy and the steps that create, review and update attempts. */
module AttemptPolicy {
  import opened Common
  import opened Statuses
  import opened Transitions

  /** A row of the attempts table; rows stand in order of creation and a row's place is its id. */
  datatype Attempt = Attempt(
    task: nat,
    number: nat,
    status: AttemptStatus,
    completedAt: Option<int>,
    summary: Option<string>)

  datatype Error =
    | AttemptNotFound
    | InvalidArguments
    | NotReviewable
    | TransitionNotAllowed
    | TaskMismatch
    | NotFollowUpSource
    | ActiveAttemptExists(blocking: nat)

  const FOLLOW_UP_SOURCES := {Committed, Reviewing, Rejected, WorkerFailed, Failed}
  const BLOCKING := {Created, QueuedWorker, PreparingWorktree, RunningWorker, WaitingForCommit, Committed, Reviewing,
                     Accepted, RetryRequested, MergeReady, Merged}
  const REVIEWABLE := {Committed, Reviewing}
  const ADOPTED := {Accepted, MergeReady, Merged}

  // -------------------------------------------------------------------- queries

  predicate Blocks(rows: seq<Attempt>, task: nat, source: nat, i: nat) {
    i < |rows| && rows[i].task == task && i != source && rows[i].status in BLOCKING
  }

  /** `order_by(attempt_number, created_at)`: row `i` comes before row `j`. */
  predicate Before(rows: seq<Attempt>, i: nat, j: nat)
    requires i < |rows| && j < |rows|
  {
    rows[i].number < rows[j].number || (rows[i].number == rows[j].number && i <= j)
  }

  /** `find_retry_blocking_attempt`, over the first `n` rows. */
  function FindBlocking(rows: seq<Attempt>, task: nat, source: nat, n: nat): (r: Option<nat>)
    requires n <= |rows|
    ensures r.None? ==> forall i: nat | i < n :: !Blocks(rows, task, source, i)
    ensures r.Some? ==> r.value < n && Blocks(rows, task, source, r.value)
                        && forall i: nat | i < n && Blocks(rows, task, source, i) :: Before(rows, r.value, i)
  {
    if n == 0 then None
    else
      var best := FindBlocking(rows, task, source, n - 1);
      if Blocks(rows, task, source, n - 1) && (best.None? || rows[n - 1].number < rows[best.value].number)
      then Some(n - 1) else best
  }

  /** `ensure_explicit_retry_allowed`: the error raised, if any. */
  function RetryRefusal(rows: seq<Attempt>, task: nat, source: nat): Option<Error>
    requires source < |rows|
  {
    if rows[source].task != task then Some(TaskMismatch)
    else if rows[source].status !in FOLLOW_UP_SOURCES then Some(NotFollowUpSource)
    else match FindBlocking(rows, task, source, |rows|)
      case Some(b) => Some(ActiveAttemptExists(b))
      case None => None
  }

  /** `max(attempt_number)` over the task's rows, or 0. */
  function MaxNumber(rows: seq<Attempt>, task: nat): (m: nat)
    ensures forall i | 0 <= i < |rows| && rows[i].task == task :: rows[i].number <= m
    ensures m == 0 || exists i :: 0 <= i < |rows| && rows[i].task == task && rows[i].number == m
  {
    if rows == [] then 0
    else
      var last := rows[|rows| - 1];
      var m := MaxNumber(rows[..|rows| - 1], task);
      if last.task == task && last.number > m then last.number else m
  }

  // ---------------------------------------------------------------------- steps

  function NewAttempt(rows: seq<Attempt>, task: nat): Attempt {
    Attempt(task, MaxNumber(rows, task) + 1, Created, None, None)
  }

  /** `create_attempt` and the tool that starts a task: neither asks the policy. */
  function Create(rows: seq<Attempt>, task: nat): seq<Attempt> {
    rows + [NewAttempt(rows, task)]
  }

  function Close(a: Attempt, status: AttemptStatus, summary: Option<string>, now: int): Attempt {
    a.(status := status, completedAt := Some(now), summary := summary)
  }

  /** The source of a follow-up is closed when it was open for review. */
  function CloseSource(rows: seq<Attempt>, source: nat, feedback: string, now: int): seq<Attempt>
    requires source < |rows|
  {
    if rows[source].status in REVIEWABLE
    then rows[source := Close(rows[source], Rejected, Some(feedback), now)] else rows
  }

  function FollowUp(rows: seq<Attempt>, source: nat, feedback: string, now: int): Result<seq<Attempt>, Error> {
    if source >= |rows| then Err(AttemptNotFound)
    else
      var task := rows[source].task;
      match RetryRefusal(rows, task, source)
      case Some(error) => Err(error)
      case None =>
        if feedback == "" then Err(InvalidArguments)
        else
          var closed := CloseSource(rows, source, feedback, now);
          Ok(closed + [NewAttempt(closed, task)])
  }

  /** An absent or empty summary leaves the one the row has. */
  function Accept(rows: seq<Attempt>, id: nat, summary: Option<string>, now: int): Result<seq<Attempt>, Error> {
    if id >= |rows| then Err(AttemptNotFound)
    else if rows[id].status !in REVIEWABLE then Err(NotReviewable)
    else
      var kept := if summary.Some? && summary.value != "" then summary else rows[id].summary;
      Ok(rows[id := Close(rows[id], Accepted, kept, now)])
  }

  function Reject(rows: seq<Attempt>, id: nat, reason: string, now: int): Result<seq<Attempt>, Error> {
    if id >= |rows| then Err(AttemptNotFound)
    else if rows[id].status !in REVIEWABLE then Err(NotReviewable)
    else if reason == "" then Err(InvalidArguments)
    else Ok(rows[id := Close(rows[id], Rejected, Some(reason), now)])
  }

  /** `update_attempt`: the public table, and the summary is overwritten. */
  function Update(rows: seq<Attempt>, id: nat, target: AttemptStatus, summary: Option<string>, now: int)
    : Result<seq<Attempt>, Error>
  {
    if id >= |rows| then Err(AttemptNotFound)
    else if !PubliclyAllowed(rows[id].status, target) then Err(TransitionNotAllowed)
    else
      var completedAt := if target in {Accepted, Merged} then Some(now) else rows[id].completedAt;
      Ok(rows[id := rows[id].(status := target, summary := summary, completedAt := completedAt)])
  }

  /** Any other change of status that the full table lets through. */
  function Move(rows: seq<Attempt>, id: nat, target: AttemptStatus): Result<seq<Attempt>, Error> {
    if id >= |rows| then Err(AttemptNotFound)
    else if !Allowed(rows[id].status, target) then Err(TransitionNotAllowed)
    else Ok(rows[id := rows[id].(status := target)])
  }

  /**
   * What the writers that ask no table may do to a row: claim and release, the queue's
   * hand-off, the worktree, commit-result and squash endpoints, the worker adapters and
   * stale-run recovery set a status outright.
   */
  function Write(rows: seq<Attempt>, id: nat, target: AttemptStatus, summary: Option<string>, completedAt: Option<int>)
    : Result<seq<Attempt>, Error>
  {
    if id >= |rows| then Err(AttemptNotFound)
    else Ok(rows[id := rows[id].(status := target, summary := summary, completedAt := completedAt)])
  }

  datatype Step =
    | DoCreate(task: nat)
    | DoFollowUp(source: nat, feedback: string, now: int)
    | DoAccept(id: nat, note: Option<string>, now: int)
    | DoReject(id: nat, reason: string, now: int)
    | DoUpdate(id: nat, target: AttemptStatus, note: Option<string>, now: int)
    | DoMove(id: nat, target: AttemptStatus)
    | DoWrite(id: nat, target: AttemptStatus, note: Option<string>, end: Option<int>)

  function Outcome(rows: seq<Attempt>, step: Step): Result<seq<Attempt>, Error> {
    match step
    case DoCreate(task) => Ok(Create(rows, task))
    case DoFollowUp(source, feedback, now) => FollowUp(rows, source, feedback, now)
    case DoAccept(id, note, now) => Accept(rows, id, note, now)
    case DoReject(id, reason, now) => Reject(rows, id, reason, now)
    case DoUpdate(id, target, note, now) => Update(rows, id, target, note, now)
    case DoMove(id, target) => Move(rows, id, target)
    case DoWrite(id, target, note, end) => Write(rows, id, target, note, end)
  }

  /** A refused step changes nothing. */
  function Apply(rows: seq<Attempt>, step: Step): seq<Attempt> {
    var outcome := Outcome(rows, step);
    if outcome.Ok? then outcome.value else rows
  }

  function Run(rows: seq<Attempt>, steps: seq<Step>): seq<Attempt>
    decreases steps
  {
    if steps == [] then rows else Run(Apply(rows, steps[0]), steps[1..])
  }
}
