/** What a decision on an attempt means for the rest of its task. */
module AttemptDecisions {
  import opened Common
  import opened Statuses
  import opened Transitions
  import opened AttemptPolicy
  import opened AttemptRuns

  // ------------------------------------------------------------------ the statuses

  /** Follow-ups start from work open for review, and from closed work that the table lets retry. */
  lemma SourcesAreReviewableOrRetriable(s: AttemptStatus)
    ensures s in FOLLOW_UP_SOURCES <==> s in {Committed, Reviewing} || RetryRequested in AttemptTargets(s)
  {
  }

  predicate Advances(path: seq<AttemptStatus>, i: int)
    requires 0 <= i < |path| - 1
  {
    path[i + 1] in AttemptTargets(path[i]) && path[i + 1] != RetryRequested
  }

  /** A way through the table that asks for no retry. */
  predicate Way(path: seq<AttemptStatus>) {
    forall i | 0 <= i < |path| - 1 :: Advances(path, i)
  }

  /** The way from an active status to the merge. */
  function WayToMerged(s: AttemptStatus): seq<AttemptStatus>
    requires s in BLOCKING
  {
    match s
    case Created => [Created, RunningWorker, Committed, Merged]
    case QueuedWorker => [QueuedWorker, RunningWorker, Committed, Merged]
    case PreparingWorktree => [PreparingWorktree, RunningWorker, Committed, Merged]
    case RetryRequested => [RetryRequested, RunningWorker, Committed, Merged]
    case RunningWorker => [RunningWorker, Committed, Merged]
    case WaitingForCommit => [WaitingForCommit, Committed, Merged]
    case Reviewing => [Reviewing, Accepted, Merged]
    case Merged => [Merged]
    case _ => [s, Merged]
  }

  lemma {:induction false} ClosedStaysClosed(path: seq<AttemptStatus>, n: nat)
    requires Way(path) && n < |path| && path[0] !in BLOCKING
    ensures path[n] !in BLOCKING
  {
    if n > 0 {
      ClosedStaysClosed(path, n - 1);
      assert Advances(path, n - 1);
      OnlyRetryRevives(path[n - 1], path[n]);
    }
  }

  /** An attempt blocks others exactly when it can still be merged, or is, without asking for a retry. */
  lemma BlockingMeansMergeable(s: AttemptStatus)
    ensures s in BLOCKING <==> exists path :: Way(path) && path != [] && path[0] == s && path[|path| - 1] == Merged
  {
    if s in BLOCKING {
      var path := WayToMerged(s);
      assert Way(path) && path[0] == s && path[|path| - 1] == Merged;
    } else {
      forall path | Way(path) && path != [] && path[0] == s ensures path[|path| - 1] != Merged {
        ClosedStaysClosed(path, |path| - 1);
      }
    }
  }

  // -------------------------------------------------------------------- acceptance

  /** Accepted at the given time, with the note if there is one, and no other row changed. */
  lemma AcceptLeaves(rows: seq<Attempt>, id: nat, note: Option<string>, now: int, i: nat)
    requires Accept(rows, id, note, now).Ok? && i < |rows|
    ensures id < |rows| && rows[id].status in {Committed, Reviewing}
    ensures var after := Accept(rows, id, note, now).value;
            && |after| == |rows| && (i != id ==> after[i] == rows[i])
            && after[id].task == rows[id].task && after[id].number == rows[id].number
            && after[id].status == Accepted && after[id].completedAt == Some(now)
            && (after[id].summary == if note == None || note == Some("") then rows[id].summary else note)
  {
  }

  /** It ends the follow-ups on the task, for good unless a write without the table takes it back. */
  lemma AcceptEndsFollowUps(
      rows: seq<Attempt>, id: nat, note: Option<string>, at: int,
      steps: seq<Step>, source: nat, feedback: string, now: int)
    requires Accept(rows, id, note, at).Ok?
    requires forall i | 0 <= i < |steps| :: !Unadopts(steps[i], id)
    ensures var after := Run(rows, [DoAccept(id, note, at)] + steps);
            && Adopted(after, id, rows[id].task)
            && (source < |after| && after[source].task == rows[id].task ==> FollowUp(after, source, feedback, now).Err?)
  {
    AcceptLeaves(rows, id, note, at, 0);
    var accepted := Accept(rows, id, note, at).value;
    FirstStep(rows, DoAccept(id, note, at), steps, accepted);
    AdoptedEndsFollowUps(accepted, id, steps, source, feedback, now);
  }

  // --------------------------------------------------------------------- rejection

  lemma RejectLeaves(rows: seq<Attempt>, id: nat, reason: string, now: int, i: nat)
    requires AttemptPolicy.Reject(rows, id, reason, now).Ok? && i < |rows|
    ensures id < |rows| && rows[id].status in {Committed, Reviewing} && reason != ""
    ensures var after := AttemptPolicy.Reject(rows, id, reason, now).value;
            && |after| == |rows| && (i != id ==> after[i] == rows[i])
            && after[id] == Attempt(rows[id].task, rows[id].number, Rejected, Some(now), Some(reason))
  {
  }

  /**
   * A rejection opens the task: with no other live attempt of it the rejected one can be
   * followed up, and keeps the time and the reason of its rejection.
   */
  lemma RejectOpensFollowUp(
      rows: seq<Attempt>, id: nat, reason: string, at: int, feedback: string, now: int)
    requires AttemptPolicy.Reject(rows, id, reason, at).Ok? && Alone(rows, id) && feedback != ""
    ensures var rejected := AttemptPolicy.Reject(rows, id, reason, at).value;
            && FollowUp(rejected, id, feedback, now).Ok?
            && |FollowUp(rejected, id, feedback, now).value| == |rows| + 1
            && FollowUp(rejected, id, feedback, now).value[id] == rejected[id]
            && rejected[id].completedAt == Some(at) && rejected[id].summary == Some(reason)
  {
    var rejected := AttemptPolicy.Reject(rows, id, reason, at).value;
    RejectLeaves(rows, id, reason, at, 0);
    forall i: nat | i < |rejected| && i != id ensures !Live(rejected, rejected[id].task, i) {
      RejectLeaves(rows, id, reason, at, i);
      assert !Live(rows, rows[id].task, i);
    }
    FollowUpGrantedExactly(rejected, id, feedback, now);
  }

  /** What is open for review can be decided either way, by whoever asks, and nothing else can. */
  lemma DecidableExactly(rows: seq<Attempt>, id: nat, note: Option<string>, reason: string, now: int)
    ensures Accept(rows, id, note, now).Ok? <==> id < |rows| && rows[id].status in {Committed, Reviewing}
    ensures AttemptPolicy.Reject(rows, id, reason, now).Ok? <==>
              id < |rows| && rows[id].status in {Committed, Reviewing} && reason != ""
  {
  }

  /** What is wrong with a decision, the first fault counting. */
  lemma DecisionRefusedWith(rows: seq<Attempt>, id: nat, note: Option<string>, reason: string, now: int)
    requires Accept(rows, id, note, now).Err? || AttemptPolicy.Reject(rows, id, reason, now).Err?
    ensures var error := if id >= |rows| then AttemptNotFound
                         else if rows[id].status !in {Committed, Reviewing} then NotReviewable
                         else InvalidArguments;
            && (Accept(rows, id, note, now).Err? ==> Accept(rows, id, note, now) == Err(error))
            && AttemptPolicy.Reject(rows, id, reason, now) == Err(error)
  {
  }

  // -------------------------------------------------------------------------- follow-up

  /** What the policy objects to: another task's attempt, one that is no source, or the oldest live rival. */
  lemma PolicyObjectsExactly(rows: seq<Attempt>, task: nat, source: nat, b: nat)
    requires source < |rows|
    ensures var refusal := RetryRefusal(rows, task, source);
            && (refusal == Some(TaskMismatch) <==> rows[source].task != task)
            && (refusal == Some(NotFollowUpSource) <==>
                  rows[source].task == task
                  && rows[source].status !in {Committed, Reviewing, Rejected, WorkerFailed, Failed})
            && (refusal == Some(ActiveAttemptExists(b)) ==>
                  b != source && Live(rows, task, b) && forall i: nat | Live(rows, task, i) && i != source ::
                    rows[b].number <= rows[i].number)
            && (refusal.None? ==> rows[source].task == task && Alone(rows, source))
  {
    var found := FindBlocking(rows, task, source, |rows|);
    forall i: nat | Live(rows, task, i) && i != source ensures Blocks(rows, task, source, i) {
    }
    if rows[source].task == task && found.None? {
      forall i: nat | i < |rows| && i != source ensures !Live(rows, rows[source].task, i) {
        assert !Blocks(rows, task, source, i);
      }
    }
  }

  /** A follow-up is refused with the policy's objection, and for its feedback only when there is none. */
  lemma FollowUpRefusedWith(rows: seq<Attempt>, source: nat, feedback: string, now: int)
    requires FollowUp(rows, source, feedback, now).Err?
    ensures var error := FollowUp(rows, source, feedback, now).error;
            if source >= |rows| then error == AttemptNotFound
            else
              var refusal := RetryRefusal(rows, rows[source].task, source);
              if refusal.Some? then error == refusal.value else error == InvalidArguments && feedback == ""
  {
  }

  // --------------------------------------------------------------- the status endpoint

  /** The public update goes through exactly along the public table, or to the status there is. */
  lemma UpdateGrantedExactly(rows: seq<Attempt>, id: nat, target: AttemptStatus, note: Option<string>, now: int)
    ensures Update(rows, id, target, note, now).Ok? <==>
              id < |rows| && (target == rows[id].status || target in PublicAttemptTargets(rows[id].status))
  {
  }

  /** It sets status and summary, and the time of completion of what is accepted or merged already. */
  lemma UpdateLeaves(rows: seq<Attempt>, id: nat, target: AttemptStatus, note: Option<string>, now: int, i: nat)
    requires Update(rows, id, target, note, now).Ok? && i < |rows|
    ensures id < |rows|
    ensures var after := Update(rows, id, target, note, now).value;
            && |after| == |rows| && (i != id ==> after[i] == rows[i])
            && after[id].task == rows[id].task && after[id].number == rows[id].number
            && after[id].status == target && after[id].summary == note
            && (after[id].completedAt ==
                if rows[id].status in {Accepted, Merged} then Some(now) else rows[id].completedAt)
  {
    if target != rows[id].status {
      UpdateAdoptsNothing(rows[id].status, target);
    }
  }

  /** It neither commits, accepts nor merges: its targets are failures, retries and the wait for a commit. */
  lemma UpdateAdoptsNothing(s: AttemptStatus, t: AttemptStatus)
    requires PubliclyAllowed(s, t) && s != t
    ensures t in {WaitingForCommit, WorkerFailed, Failed, Cancelled, Abandoned, RetryRequested}
    ensures s !in {Committed, Reviewing, Accepted, MergeReady, Merged, Abandoned, Cancelled}
  {
  }
}
