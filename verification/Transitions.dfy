/** The transition tables and how long an attempt can live (`state_transitions.py`). */
module Transitions {
  import opened Statuses

  /** `TASK_ATTEMPT_TRANSITIONS`. */
  function AttemptTargets(s: AttemptStatus): set<AttemptStatus> {
    match s
    case Created => {QueuedWorker, PreparingWorktree, RunningWorker, WorkerFailed, Failed, Cancelled}
    case QueuedWorker => {RunningWorker, WorkerFailed, Failed, Cancelled}
    case PreparingWorktree => {RunningWorker, WorkerFailed, Failed, Cancelled}
    case RunningWorker => {WaitingForCommit, Committed, WorkerFailed, Failed, Cancelled}
    case WaitingForCommit => {Committed, WorkerFailed, Failed, Cancelled}
    case Committed => {Reviewing, Accepted, Rejected, MergeReady, Merged}
    case Reviewing => {Accepted, Rejected, Failed}
    case Accepted => {MergeReady, Merged}
    case Rejected => {RetryRequested, Abandoned}
    case RetryRequested => {PreparingWorktree, RunningWorker, Cancelled, Abandoned}
    case MergeReady => {Merged}
    case WorkerFailed => {RetryRequested, Cancelled, Abandoned}
    case Failed => {RetryRequested, Abandoned}
    case Merged => {}
    case Abandoned => {}
    case Cancelled => {}
  }

  /** `PUBLIC_TASK_ATTEMPT_TRANSITIONS`: what the status endpoint lets through. */
  function PublicAttemptTargets(s: AttemptStatus): set<AttemptStatus> {
    match s
    case Created => {WorkerFailed, Failed, Cancelled}
    case QueuedWorker => {WorkerFailed, Failed, Cancelled}
    case PreparingWorktree => {WorkerFailed, Failed, Cancelled}
    case RunningWorker => {WaitingForCommit, WorkerFailed, Failed, Cancelled}
    case WaitingForCommit => {WorkerFailed, Failed, Cancelled}
    case WorkerFailed => {RetryRequested, Cancelled, Abandoned}
    case Failed => {RetryRequested, Abandoned}
    case Rejected => {RetryRequested}
    case _ => {}
  }

  /** `assert_allowed_transition` does not raise: an update to the same status is let through. */
  predicate Allowed(current: AttemptStatus, target: AttemptStatus) {
    current == target || target in AttemptTargets(current)
  }

  predicate PubliclyAllowed(current: AttemptStatus, target: AttemptStatus) {
    current == target || target in PublicAttemptTargets(current)
  }

  // ------------------------------------------------------------------------ traces

  predicate Guarded(trace: seq<AttemptStatus>) {
    forall i | 0 <= i < |trace| - 1 :: Allowed(trace[i], trace[i + 1])
  }

  /** Status changes; updates to the same status do not count. */
  function Changes(trace: seq<AttemptStatus>): nat {
    if |trace| < 2 then 0 else (if trace[0] != trace[1] then 1 else 0) + Changes(trace[1..])
  }

  /** Entries into `RetryRequested`. */
  function Retries(trace: seq<AttemptStatus>): nat {
    if |trace| < 2 then 0
    else (if trace[0] != trace[1] && trace[1] == RetryRequested then 1 else 0) + Retries(trace[1..])
  }

  /** Changes the table does not have: the writers that do not ask it make them. */
  function Jumps(trace: seq<AttemptStatus>): nat {
    if |trace| < 2 then 0
    else (if Allowed(trace[0], trace[1]) then 0 else 1) + Jumps(trace[1..])
  }

  lemma {:induction false} GuardedHasNoJumps(trace: seq<AttemptStatus>)
    ensures Guarded(trace) <==> Jumps(trace) == 0
  {
    if |trace| >= 2 {
      GuardedHasNoJumps(trace[1..]);
      if Guarded(trace[1..]) && Allowed(trace[0], trace[1]) {
        forall i | 0 <= i < |trace| - 1 ensures Allowed(trace[i], trace[i + 1]) {
          assert i > 0 ==> Allowed(trace[1..][i - 1], trace[1..][i]);
        }
      }
      if Guarded(trace) {
        assert Allowed(trace[0], trace[1]);
        forall i | 0 <= i < |trace[1..]| - 1 ensures Allowed(trace[1..][i], trace[1..][i + 1]) {
          assert Allowed(trace[i + 1], trace[i + 1 + 1]);
        }
      }
    }
  }

  /** The longest way on without another retry. */
  function StepsToEnd(s: AttemptStatus): nat {
    match s
    case Created => 8
    case RetryRequested => 8
    case QueuedWorker => 7
    case PreparingWorktree => 7
    case RunningWorker => 6
    case WaitingForCommit => 5
    case Committed => 4
    case Reviewing => 3
    case Accepted => 2
    case MergeReady => 1
    case Rejected => 1
    case WorkerFailed => 1
    case Failed => 1
    case Merged => 0
    case Abandoned => 0
    case Cancelled => 0
  }

  predicate CanRetry(s: AttemptStatus) {
    s !in {Accepted, MergeReady, Merged, Abandoned, Cancelled}
  }

  /** The longest way to the next entry into `RetryRequested`. */
  function StepsToRetry(s: AttemptStatus): nat {
    match s
    case Created => 7
    case RetryRequested => 7
    case QueuedWorker => 6
    case PreparingWorktree => 6
    case RunningWorker => 5
    case WaitingForCommit => 4
    case Committed => 3
    case Reviewing => 2
    case _ => 1
  }

  /** The longest way to the end, or with retries to come to the first of them and on. */
  function Reach(s: AttemptStatus, retries: bool): nat {
    if retries && CanRetry(s) && StepsToRetry(s) + 1 > StepsToEnd(s) then StepsToRetry(s) + 1 else StepsToEnd(s)
  }

  /** What is left at most, with `k` retries and `u` changes outside the table to come. */
  function Budget(s: AttemptStatus, k: nat, u: nat): nat {
    7 * k + 9 * u + Reach(s, k > 0)
  }

  /** Every change pays: a retry with one of `k`, one outside the table with one of `u`, any other out of `Reach`. */
  lemma BudgetPaysForStep(s: AttemptStatus, t: AttemptStatus, k: nat, u: nat)
    requires s != t && (t == RetryRequested ==> k > 0) && (!Allowed(s, t) ==> u > 0)
    ensures Budget(s, k, u) >=
              1 + Budget(t, if t == RetryRequested then k - 1 else k, if Allowed(s, t) then u else u - 1)
  {
    ReachIsShort(s, k > 0);
    ReachIsShort(t, k > 0);
    ReachIsShort(t, k > 1);
    if Allowed(s, t) {
      TablePays(s, t, k);
    }
  }

  lemma ReachIsShort(s: AttemptStatus, retries: bool)
    ensures Reach(s, retries) <= 8
  {
  }

  lemma TablePays(s: AttemptStatus, t: AttemptStatus, k: nat)
    requires t in AttemptTargets(s) && (t == RetryRequested ==> k > 0)
    ensures Budget(s, k, 0) >= 1 + Budget(t, if t == RetryRequested then k - 1 else k, 0)
  {
  }

  lemma {:induction false} ChangesWithinBudget(trace: seq<AttemptStatus>)
    requires trace != []
    ensures Changes(trace) <= Budget(trace[0], Retries(trace), Jumps(trace))
  {
    if |trace| >= 2 {
      ChangesWithinBudget(trace[1..]);
      if trace[0] != trace[1] {
        BudgetPaysForStep(trace[0], trace[1], Retries(trace), Jumps(trace));
      }
    }
  }

  /**
   * A new attempt that asks for `k` retries and has its status set outside the table `u`
   * times changes it at most `7k + 9u + 8` times.
   */
  lemma AttemptLifeBound(trace: seq<AttemptStatus>)
    requires trace != [] && trace[0] == Created
    ensures Changes(trace) <= 7 * Retries(trace) + 9 * Jumps(trace) + 8
  {
    ChangesWithinBudget(trace);
  }

  // ---------------------------------------------------------------- the bound is met

  const AGAIN := [PreparingWorktree, RunningWorker, WaitingForCommit, Committed, Reviewing, Rejected, RetryRequested]
  const FINISH :=
    [PreparingWorktree, RunningWorker, WaitingForCommit, Committed, Reviewing, Accepted, MergeReady, Merged]

  predicate Restart(s: AttemptStatus) {
    s == Created || s == RetryRequested
  }

  /** Update `i` of `path` is a real change to the status after it, and not a retry before the last one. */
  predicate Climbs(path: seq<AttemptStatus>, goal: AttemptStatus, i: nat)
    requires i < |path|
  {
    var next := if i + 1 < |path| then path[i + 1] else goal;
    next != path[i] && next in AttemptTargets(path[i]) && (i > 0 ==> path[i] != RetryRequested)
  }

  lemma {:induction false} ClimbCounts(path: seq<AttemptStatus>, rest: seq<AttemptStatus>)
    requires rest != [] && forall i: nat | i < |path| :: Climbs(path, rest[0], i)
    ensures Jumps(path + rest) == Jumps(rest) && Changes(path + rest) == |path| + Changes(rest)
    ensures Retries(path + rest) == (if path != [] && rest[0] == RetryRequested then 1 else 0) + Retries(rest)
  {
    if path == [] {
      assert path + rest == rest;
    } else {
      forall i: nat | i < |path[1..]| ensures Climbs(path[1..], rest[0], i) {
        assert Climbs(path, rest[0], i + 1);
      }
      ClimbCounts(path[1..], rest);
      var t, u := path + rest, path[1..] + rest;
      assert t[1..] == u && Climbs(path, rest[0], 0);
      assert t[1] == if |path| > 1 then path[1] else rest[0];
      assert |path| > 1 ==> Climbs(path, rest[0], 1);
    }
  }

  lemma RoundClimbs(s: AttemptStatus, rest: seq<AttemptStatus>)
    requires Restart(s)
    ensures var path := [s] + AGAIN[..6];
            && path + ([RetryRequested] + rest) == [s] + (AGAIN + rest)
            && forall i: nat | i < |path| :: Climbs(path, RetryRequested, i)
  {
  }

  lemma OneRound(s: AttemptStatus, rest: seq<AttemptStatus>)
    requires Restart(s)
    ensures Jumps([s] + (AGAIN + rest)) == Jumps([RetryRequested] + rest)
    ensures Changes([s] + (AGAIN + rest)) == 7 + Changes([RetryRequested] + rest)
    ensures Retries([s] + (AGAIN + rest)) == 1 + Retries([RetryRequested] + rest)
  {
    RoundClimbs(s, rest);
    ClimbCounts([s] + AGAIN[..6], [RetryRequested] + rest);
  }

  lemma LastRound(s: AttemptStatus, rest: seq<AttemptStatus>)
    requires Restart(s)
    ensures Jumps([s] + (FINISH + rest)) == Jumps([Merged] + rest)
    ensures Changes([s] + (FINISH + rest)) == 8 + Changes([Merged] + rest)
    ensures Retries([s] + (FINISH + rest)) == Retries([Merged] + rest)
  {
    var path := [s] + FINISH[..7];
    assert |path| == 8 && path[0] == s && forall i: nat | 0 < i < 8 :: path[i] == FINISH[i - 1];
    forall i: nat | i < |path| ensures Climbs(path, Merged, i) {
    }
    ClimbCounts(path, [Merged] + rest);
    assert path + ([Merged] + rest) == [s] + (FINISH + rest);
  }

  /** `u` times over: merged work whose claim is released as new. */
  function Reopened(u: nat): seq<AttemptStatus> {
    if u == 0 then [] else [Created] + (FINISH + Reopened(u - 1))
  }

  lemma {:induction false} ReopenedCounts(u: nat)
    ensures var trace := [Merged] + Reopened(u);
            Retries(trace) == 0 && Jumps(trace) == u && Changes(trace) == 9 * u
  {
    if u > 0 {
      ReopenedCounts(u - 1);
      LastRound(Created, Reopened(u - 1));
      var again := [Created] + (FINISH + Reopened(u - 1));
      assert ([Merged] + Reopened(u))[1..] == again;
    }
  }

  /** The life of an attempt with `k` retries that is reopened `u` times. */
  function Life(k: nat, u: nat): seq<AttemptStatus> {
    if k == 0 then FINISH + Reopened(u) else AGAIN + Life(k - 1, u)
  }

  /** For every `k` and `u` some life reaches the bound, so it cannot be lowered. */
  lemma {:induction false} AttemptLifeBoundIsTight(s: AttemptStatus, k: nat, u: nat)
    requires Restart(s)
    ensures var trace := [s] + Life(k, u);
            Retries(trace) == k && Jumps(trace) == u && Changes(trace) == 7 * k + 9 * u + 8
    decreases k
  {
    if k == 0 {
      LastRound(s, Reopened(u));
      ReopenedCounts(u);
    } else {
      AttemptLifeBoundIsTight(RetryRequested, k - 1, u);
      OneRound(s, Life(k - 1, u));
    }
  }

  /** Through the table alone, such a life has at most `7k + 8` changes. */
  lemma GuardedLifeBound(trace: seq<AttemptStatus>)
    requires trace != [] && trace[0] == Created && Guarded(trace)
    ensures Changes(trace) <= 7 * Retries(trace) + 8
  {
    GuardedHasNoJumps(trace);
    AttemptLifeBound(trace);
  }

  /** And for every `k` one reaches that. */
  lemma GuardedLifeBoundIsTight(k: nat)
    ensures var trace := [Created] + Life(k, 0);
            Guarded(trace) && Retries(trace) == k && Changes(trace) == 7 * k + 8
  {
    AttemptLifeBoundIsTight(Created, k, 0);
    GuardedHasNoJumps([Created] + Life(k, 0));
  }

  /** Claimed and released as new, again and again. */
  function Alternating(n: nat): seq<AttemptStatus> {
    if n == 0 then [Created] else [Created, RunningWorker] + Alternating(n - 1)
  }

  /** Without the count of changes outside the table there is no bound, not even for one that never retries. */
  lemma {:induction false} ClaimAndReleaseUnbounded(n: nat)
    ensures var trace := Alternating(n);
            trace != [] && trace[0] == Created
            && Retries(trace) == 0 && Jumps(trace) == n && Changes(trace) == 2 * n
  {
    if n > 0 {
      ClaimAndReleaseUnbounded(n - 1);
      var rest := Alternating(n - 1);
      assert Alternating(n)[1..] == [RunningWorker] + rest && ([RunningWorker] + rest)[1..] == rest;
    }
  }

  /** The public table grants nothing the full table does not. */
  lemma PublicWithinFull(current: AttemptStatus, target: AttemptStatus)
    requires PubliclyAllowed(current, target)
    ensures Allowed(current, target)
  {
  }

  // ------------------------------------------------------------- the table, backwards

  /** From where each status can be entered through the table. */
  lemma EnteredFrom(s: AttemptStatus, t: AttemptStatus)
    ensures t in AttemptTargets(s) <==>
              match t
              case Created => false
              case QueuedWorker => s == Created
              case PreparingWorktree => s in {Created, RetryRequested}
              case RunningWorker => s in {Created, QueuedWorker, PreparingWorktree, RetryRequested}
              case WaitingForCommit => s == RunningWorker
              case Committed => s in {RunningWorker, WaitingForCommit}
              case WorkerFailed => s in {Created, QueuedWorker, PreparingWorktree, RunningWorker, WaitingForCommit}
              case Reviewing => s == Committed
              case Accepted => s in {Committed, Reviewing}
              case Rejected => s in {Committed, Reviewing}
              case RetryRequested => s in {Rejected, WorkerFailed, Failed}
              case MergeReady => s in {Committed, Accepted}
              case Merged => s in {Committed, Accepted, MergeReady}
              case Abandoned => s in {Rejected, RetryRequested, WorkerFailed, Failed}
              case Cancelled => s in {Created, QueuedWorker, PreparingWorktree, RunningWorker, WaitingForCommit,
                                      RetryRequested, WorkerFailed}
              case Failed => s in {Created, QueuedWorker, PreparingWorktree, RunningWorker, WaitingForCommit, Reviewing}
  {
  }

  /**
   * The public table is the full one cut down to failures, retries, cancellations and the
   * wait for a commit, and nothing at all where work is open for review or asks for a retry;
   * rejected work may only ask for one.
   */
  lemma PublicIsCutDown(s: AttemptStatus, t: AttemptStatus)
    ensures t in PublicAttemptTargets(s) <==>
              && t in AttemptTargets(s)
              && t in {WaitingForCommit, WorkerFailed, Failed, Cancelled, Abandoned, RetryRequested}
              && s !in {Committed, Reviewing, RetryRequested}
              && (s == Rejected ==> t == RetryRequested)
  {
  }

  // ------------------------------------------------------------------------- tasks

  /** `TASK_TRANSITIONS`. */
  function TaskTargets(s: TaskStatus): set<TaskStatus> {
    match s
    case Draft => {Ready, Queued, Running, TaskCancelled}
    case Ready => {Queued, Running, TaskCancelled}
    case Queued => {Running, Blocked, TaskFailed, TaskCancelled}
    case Running => {WaitingForReview, Blocked, TaskFailed, TaskCancelled}
    case WaitingForReview => {ChangesRequested, Completed}
    case ChangesRequested => {Queued, Running, TaskCancelled}
    case Blocked => {Queued, Running, TaskFailed, TaskCancelled}
    case _ => {}
  }

  /** `PUBLIC_TASK_TRANSITIONS`: the table with its two discards. */
  function PublicTaskTargets(s: TaskStatus): set<TaskStatus> {
    if s == Running then TaskTargets(s) - {WaitingForReview}
    else if s == WaitingForReview then TaskTargets(s) - {Completed}
    else TaskTargets(s)
  }

  predicate TaskPubliclyAllowed(current: TaskStatus, target: TaskStatus) {
    current == target || target in PublicTaskTargets(current)
  }

  /**
   * Through the status endpoint a task never becomes completed or waiting for
   * review, and never leaves a final status.
   */
  lemma PublicTaskUpdates(s: TaskStatus, t: TaskStatus)
    requires TaskPubliclyAllowed(s, t) && s != t
    ensures t != Completed && t != WaitingForReview && t != Draft
    ensures s !in {Completed, TaskCancelled, TaskFailed}
  {
  }

  /** From where each status of a task can be entered, and which entries the endpoint leaves out. */
  lemma TaskEnteredFrom(s: TaskStatus, t: TaskStatus)
    ensures t in TaskTargets(s) <==>
              match t
              case Draft => false
              case Ready => s == Draft
              case Queued => s in {Draft, Ready, ChangesRequested, Blocked}
              case Running => s in {Draft, Ready, Queued, ChangesRequested, Blocked}
              case WaitingForReview => s == Running
              case ChangesRequested => s == WaitingForReview
              case Completed => s == WaitingForReview
              case Blocked => s in {Queued, Running}
              case TaskFailed => s in {Queued, Running, Blocked}
              case TaskCancelled => s in {Draft, Ready, Queued, Running, ChangesRequested, Blocked}
    ensures t in PublicTaskTargets(s) <==> t in TaskTargets(s) && t != WaitingForReview && t != Completed
  {
  }
}
