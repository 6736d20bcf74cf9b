/** What every run of attempt steps keeps. */
module AttemptRuns {
  import opened Common
  import opened Statuses
  import opened Transitions
  import opened AttemptPolicy
  import Induction

  // ------------------------------------------------------------- attempt numbers

  function CountTask(rows: seq<Attempt>, task: nat): (c: nat)
    ensures c <= |rows|
  {
    if rows == [] then 0
    else CountTask(rows[..|rows| - 1], task) + (if rows[|rows| - 1].task == task then 1 else 0)
  }

  /** Each row is numbered one more than its task had rows when it was made. */
  ghost predicate Numbered(rows: seq<Attempt>) {
    forall i | 0 <= i < |rows| :: rows[i].number == 1 + CountTask(rows[..i], rows[i].task)
  }

  lemma {:induction false} CountGrows(rows: seq<Attempt>, task: nat, i: nat, j: nat)
    requires i <= j <= |rows|
    ensures CountTask(rows[..i], task) <= CountTask(rows[..j], task)
    decreases j
  {
    if i < j {
      CountGrows(rows, task, i, j - 1);
      assert rows[..j][..j - 1] == rows[..j - 1];
    }
  }

  lemma {:induction false} MaxIsCount(rows: seq<Attempt>, task: nat)
    requires Numbered(rows)
    ensures MaxNumber(rows, task) == CountTask(rows, task)
  {
    if rows != [] {
      var front := rows[..|rows| - 1];
      forall i | 0 <= i < |front| ensures front[i].number == 1 + CountTask(front[..i], front[i].task) {
        assert front[..i] == rows[..i];
      }
      MaxIsCount(front, task);
      assert rows[..|rows| - 1] == front;
    }
  }

  lemma ReplacedKeepsCount(rows: seq<Attempt>, id: nat, a: Attempt, i: nat, task: nat)
    requires id < |rows| && a.task == rows[id].task && i <= |rows|
    ensures CountTask(rows[id := a][..i], task) == CountTask(rows[..i], task)
    decreases i
  {
    if i > 0 {
      ReplacedKeepsCount(rows, id, a, i - 1, task);
      assert rows[id := a][..i][..i - 1] == rows[id := a][..i - 1];
      assert rows[..i][..i - 1] == rows[..i - 1];
    }
  }

  lemma ReplacedStaysNumbered(rows: seq<Attempt>, id: nat, a: Attempt)
    requires id < |rows| && a.task == rows[id].task && a.number == rows[id].number && Numbered(rows)
    ensures Numbered(rows[id := a])
  {
    var after := rows[id := a];
    forall i | 0 <= i < |after| ensures after[i].number == 1 + CountTask(after[..i], after[i].task) {
      ReplacedKeepsCount(rows, id, a, i, after[i].task);
    }
  }

  lemma AppendedStaysNumbered(rows: seq<Attempt>, task: nat)
    requires Numbered(rows)
    ensures Numbered(rows + [NewAttempt(rows, task)])
  {
    MaxIsCount(rows, task);
    var after := rows + [NewAttempt(rows, task)];
    forall i | 0 <= i < |after| ensures after[i].number == 1 + CountTask(after[..i], after[i].task) {
      assert after[..i] == rows[..i];
      assert i == |rows| ==> rows[..i] == rows;
    }
  }

  lemma FollowUpStaysNumbered(rows: seq<Attempt>, source: nat, feedback: string, now: int)
    requires Numbered(rows) && FollowUp(rows, source, feedback, now).Ok?
    ensures Numbered(FollowUp(rows, source, feedback, now).value)
  {
    ReplacedStaysNumbered(rows, source, Close(rows[source], Rejected, Some(feedback), now));
    AppendedStaysNumbered(CloseSource(rows, source, feedback, now), rows[source].task);
  }

  lemma StepKeepsNumbers(rows: seq<Attempt>, step: Step)
    requires Numbered(rows)
    ensures Numbered(Apply(rows, step))
  {
    match step
    case DoCreate(task) =>
      AppendedStaysNumbered(rows, task);
    case DoFollowUp(source, feedback, now) =>
      if Outcome(rows, step).Ok? { FollowUpStaysNumbered(rows, source, feedback, now); }
    case DoAccept(id, note, now) =>
      if Outcome(rows, step).Ok? { ReplacedStaysNumbered(rows, id, Apply(rows, step)[id]); }
    case DoReject(id, reason, now) =>
      if Outcome(rows, step).Ok? { ReplacedStaysNumbered(rows, id, Apply(rows, step)[id]); }
    case DoUpdate(id, target, note, now) =>
      if Outcome(rows, step).Ok? { ReplacedStaysNumbered(rows, id, Apply(rows, step)[id]); }
    case DoMove(id, target) =>
      if Outcome(rows, step).Ok? { ReplacedStaysNumbered(rows, id, Apply(rows, step)[id]); }
    case DoWrite(id, target, note, end) =>
      if Outcome(rows, step).Ok? { ReplacedStaysNumbered(rows, id, Apply(rows, step)[id]); }
  }

  lemma {:induction false} RunKeepsNumbers(rows: seq<Attempt>, steps: seq<Step>)
    requires Numbered(rows)
    ensures Numbered(Run(rows, steps))
    decreases steps
  {
    if steps != [] {
      StepKeepsNumbers(rows, steps[0]);
      RunKeepsNumbers(Apply(rows, steps[0]), steps[1..]);
    }
  }

  ghost predicate DistinctNumbers(rows: seq<Attempt>, task: nat) {
    forall i, j | 0 <= i < j < |rows| && rows[i].task == task && rows[j].task == task ::
      rows[i].number != rows[j].number
  }

  lemma NumbersRise(rows: seq<Attempt>, task: nat, i: nat, j: nat)
    requires Numbered(rows) && i < j < |rows| && rows[i].task == task && rows[j].task == task
    ensures rows[i].number < rows[j].number
  {
    assert rows[..i + 1][..i] == rows[..i];
    CountGrows(rows, task, i + 1, j);
  }

  lemma NumberedDistinct(rows: seq<Attempt>, task: nat)
    requires Numbered(rows)
    ensures DistinctNumbers(rows, task)
    ensures forall i | 0 <= i < |rows| && rows[i].task == task :: 1 <= rows[i].number <= CountTask(rows, task)
  {
    forall i, j | 0 <= i < j < |rows| && rows[i].task == task && rows[j].task == task
      ensures rows[i].number != rows[j].number
    {
      NumbersRise(rows, task, i, j);
    }
    MaxIsCount(rows, task);
  }

  lemma {:induction false} EveryNumberIsUsed(rows: seq<Attempt>, task: nat, k: nat)
    requires Numbered(rows) && 1 <= k <= CountTask(rows, task)
    ensures exists i :: 0 <= i < |rows| && rows[i].task == task && rows[i].number == k
    decreases |rows|
  {
    var n := |rows| - 1;
    var front := rows[..n];
    if rows[n].task != task || k <= CountTask(front, task) {
      forall i | 0 <= i < |front| ensures front[i].number == 1 + CountTask(front[..i], front[i].task) {
        assert front[..i] == rows[..i];
      }
      EveryNumberIsUsed(front, task, k);
      var i :| 0 <= i < |front| && front[i].task == task && front[i].number == k;
      assert rows[i] == front[i];
    }
  }

  /** In every run from an empty table, a task with `n` attempts has the numbers 1 to `n`, each once. */
  lemma NumbersAreOneToN(steps: seq<Step>, task: nat, k: nat)
    ensures var rows := Run([], steps);
            (exists i :: 0 <= i < |rows| && rows[i].task == task && rows[i].number == k)
              <==> 1 <= k <= CountTask(rows, task)
    ensures DistinctNumbers(Run([], steps), task)
  {
    RunKeepsNumbers([], steps);
    var rows := Run([], steps);
    NumberedDistinct(rows, task);
    if 1 <= k <= CountTask(rows, task) {
      EveryNumberIsUsed(rows, task, k);
    }
  }

  // ------------------------------------------------------------ one line of work

  predicate Live(rows: seq<Attempt>, task: nat, i: nat) {
    i < |rows| && rows[i].task == task && rows[i].status in BLOCKING
  }

  /** No task has two attempts that are active or adopted. */
  predicate OneLine(rows: seq<Attempt>) {
    forall i, j | 0 <= i < j < |rows| && rows[i].task == rows[j].task ::
      rows[i].status !in BLOCKING || rows[j].status !in BLOCKING
  }

  /** No other attempt of the task is active or adopted. */
  predicate Alone(rows: seq<Attempt>, id: nat)
    requires id < |rows|
  {
    forall i: nat | i < |rows| && i != id :: !Live(rows, rows[id].task, i)
  }

  /** What a caller has to look at before the step. */
  predicate KeepsOneLine(rows: seq<Attempt>, step: Step) {
    match step
    case DoCreate(task) => forall i: nat | i < |rows| :: !Live(rows, task, i)
    case DoUpdate(id, target, note, now) => RetriesAlone(rows, id, target, PublicAttemptTargets)
    case DoMove(id, target) => RetriesAlone(rows, id, target, AttemptTargets)
    case DoWrite(id, target, note, end) =>
      id < |rows| && rows[id].status !in BLOCKING && target in BLOCKING ==> Alone(rows, id)
    case _ => true
  }

  /** A closed attempt asked to retry has no rival. */
  predicate RetriesAlone(
      rows: seq<Attempt>, id: nat, target: AttemptStatus, table: AttemptStatus -> set<AttemptStatus>)
  {
    id < |rows| && target == RetryRequested && rows[id].status != RetryRequested && target in table(rows[id].status) ==>
      Alone(rows, id)
  }

  /** In the table only an entry into `RetryRequested` brings a closed attempt back. */
  lemma OnlyRetryRevives(s: AttemptStatus, t: AttemptStatus)
    requires s !in BLOCKING && t in AttemptTargets(s)
    ensures t in BLOCKING <==> t == RetryRequested
  {
  }

  lemma Rivals(rows: seq<Attempt>, i: nat, j: nat)
    requires i < |rows| && i != j && Live(rows, rows[i].task, i) && Live(rows, rows[i].task, j)
    ensures !OneLine(rows)
  {
    if i < j {
      assert rows[i].status in BLOCKING && rows[j].status in BLOCKING;
    } else {
      assert rows[j].status in BLOCKING && rows[i].status in BLOCKING;
    }
  }

  /** A change of status, by whatever code, keeps the rule unless it revives an attempt beside another. */
  lemma StatusStepOneLine(rows: seq<Attempt>, id: nat, a: Attempt)
    requires OneLine(rows) && id < |rows| && a.task == rows[id].task
    ensures OneLine(rows[id := a]) <==> (rows[id].status !in BLOCKING && a.status in BLOCKING ==> Alone(rows, id))
  {
    var after := rows[id := a];
    if rows[id].status !in BLOCKING && a.status in BLOCKING {
      if i: nat :| i < |rows| && i != id && Live(rows, a.task, i) {
        Rivals(after, i, id);
      } else {
        forall i: nat, j: nat | i < j < |after| && after[i].task == after[j].task
          ensures after[i].status !in BLOCKING || after[j].status !in BLOCKING
        {
          assert !(i != id && Live(rows, a.task, i)) && !(j != id && Live(rows, a.task, j));
        }
      }
    }
  }

  /** When the table lets it through, that is a retry. */
  lemma TableStepOneLine(rows: seq<Attempt>, id: nat, a: Attempt)
    requires OneLine(rows) && id < |rows| && a.task == rows[id].task && Allowed(rows[id].status, a.status)
    ensures OneLine(rows[id := a]) <==>
              (a.status == RetryRequested && rows[id].status != RetryRequested ==> Alone(rows, id))
  {
    StatusStepOneLine(rows, id, a);
    if rows[id].status !in BLOCKING && a.status != rows[id].status {
      OnlyRetryRevives(rows[id].status, a.status);
    }
  }

  lemma CreateOneLine(rows: seq<Attempt>, task: nat)
    requires OneLine(rows)
    ensures OneLine(rows + [NewAttempt(rows, task)]) <==> forall i: nat | i < |rows| :: !Live(rows, task, i)
  {
    var after := rows + [NewAttempt(rows, task)];
    if i: nat :| i < |rows| && Live(rows, task, i) {
      Rivals(after, i, |rows|);
    } else {
      forall i: nat, j: nat | i < j < |after| && after[i].task == after[j].task
        ensures after[i].status !in BLOCKING || after[j].status !in BLOCKING
      {
        assert !(i < |rows| && Live(rows, task, i));
      }
    }
  }

  lemma FollowUpOneLine(rows: seq<Attempt>, source: nat, feedback: string, now: int)
    requires OneLine(rows) && FollowUp(rows, source, feedback, now).Ok?
    ensures OneLine(FollowUp(rows, source, feedback, now).value)
  {
    var task, closed := rows[source].task, CloseSource(rows, source, feedback, now);
    if rows[source].status in REVIEWABLE {
      TableStepOneLine(rows, source, closed[source]);
    }
    forall i: nat | i < |closed| ensures !Live(closed, task, i) {
      assert !Blocks(rows, task, source, i);
    }
    CreateOneLine(closed, task);
  }

  /** Exactly the steps that keep one line of work per task. */
  lemma OneLineExact(rows: seq<Attempt>, step: Step)
    requires OneLine(rows)
    ensures OneLine(Apply(rows, step)) <==> KeepsOneLine(rows, step)
  {
    match step
    case DoCreate(task) =>
      CreateOneLine(rows, task);
    case DoFollowUp(source, feedback, now) =>
      if Outcome(rows, step).Ok? { FollowUpOneLine(rows, source, feedback, now); }
    case DoAccept(id, note, now) =>
      if Outcome(rows, step).Ok? { TableStepOneLine(rows, id, Apply(rows, step)[id]); }
    case DoReject(id, reason, now) =>
      if Outcome(rows, step).Ok? { TableStepOneLine(rows, id, Apply(rows, step)[id]); }
    case DoUpdate(id, target, note, now) =>
      if Outcome(rows, step).Ok? {
        PublicWithinFull(rows[id].status, target);
        TableStepOneLine(rows, id, Apply(rows, step)[id]);
      }
    case DoMove(id, target) =>
      if Outcome(rows, step).Ok? { TableStepOneLine(rows, id, Apply(rows, step)[id]); }
    case DoWrite(id, target, note, end) =>
      if Outcome(rows, step).Ok? { StatusStepOneLine(rows, id, Apply(rows, step)[id]); }
  }

  predicate CarefulRun(rows: seq<Attempt>, steps: seq<Step>)
    decreases steps
  {
    steps == [] || (KeepsOneLine(rows, steps[0]) && CarefulRun(Apply(rows, steps[0]), steps[1..]))
  }

  /** A run keeps one line of work per task throughout exactly when each of its steps was careful. */
  lemma {:induction false} OneLineRuns(rows: seq<Attempt>, steps: seq<Step>)
    requires OneLine(rows)
    ensures CarefulRun(rows, steps) <==> forall n | 0 <= n <= |steps| :: OneLine(Run(rows, steps[..n]))
    decreases steps
  {
    if steps != [] {
      OneLineExact(rows, steps[0]);
      var next := Apply(rows, steps[0]);
      assert forall n | 0 < n <= |steps| :: steps[..n][0] == steps[0] && steps[..n][1..] == steps[1..][..n - 1];
      assert forall n | 0 < n <= |steps| :: Run(rows, steps[..n]) == Run(next, steps[1..][..n - 1]);
      if OneLine(next) {
        OneLineRuns(next, steps[1..]);
        if CarefulRun(next, steps[1..]) {
          forall n | 0 <= n <= |steps| ensures OneLine(Run(rows, steps[..n])) {
            assert n > 0 ==> OneLine(Run(next, steps[1..][..n - 1]));
          }
        } else {
          var n :| 0 <= n <= |steps[1..]| && !OneLine(Run(next, steps[1..][..n]));
          assert Run(rows, steps[..n + 1]) == Run(next, steps[1..][..n + 1 - 1]);
        }
      } else {
        assert Run(rows, steps[..1]) == Run(next, steps[1..][..0]) == next;
      }
    }
  }

  /** When a follow-up goes through. */
  lemma FollowUpGrantedExactly(rows: seq<Attempt>, source: nat, feedback: string, now: int)
    ensures FollowUp(rows, source, feedback, now).Ok? <==>
              && source < |rows| && rows[source].status in FOLLOW_UP_SOURCES && feedback != ""
              && forall i: nat | i < |rows| && i != source :: !Live(rows, rows[source].task, i)
  {
    if source < |rows| {
      var task := rows[source].task;
      assert forall i: nat | i < |rows| && i != source :: Blocks(rows, task, source, i) <==> Live(rows, task, i);
      var found := FindBlocking(rows, task, source, |rows|);
      if found.Some? {
        assert Live(rows, task, found.value);
      }
    }
  }

  lemma NextNumber(rows: seq<Attempt>, source: nat, feedback: string, now: int)
    requires Numbered(rows) && source < |rows|
    ensures var task := rows[source].task;
            NewAttempt(CloseSource(rows, source, feedback, now), task)
            == Attempt(task, CountTask(rows, task) + 1, Created, None, None)
  {
    var task, closed := rows[source].task, CloseSource(rows, source, feedback, now);
    if rows[source].status in REVIEWABLE {
      ReplacedStaysNumbered(rows, source, closed[source]);
      ReplacedKeepsCount(rows, source, closed[source], |rows|, task);
      assert closed[..|rows|] == closed && rows[..|rows|] == rows;
    }
    MaxIsCount(closed, task);
  }

  lemma ClosedSourceNotLive(rows: seq<Attempt>, source: nat, feedback: string, now: int, i: nat)
    requires source < |rows| && rows[source].status in FOLLOW_UP_SOURCES
    requires i < |rows| && i != source ==> !Live(rows, rows[source].task, i)
    ensures !Live(CloseSource(rows, source, feedback, now), rows[source].task, i)
  {
  }

  /**
   * And what it leaves: the new attempt is the only live one of the task, its number
   * is the next; the source is closed with the feedback if it was open for review;
   * every other row is as it was.
   */
  lemma FollowUpLeavesOne(rows: seq<Attempt>, source: nat, feedback: string, now: int, i: nat)
    requires Numbered(rows) && FollowUp(rows, source, feedback, now).Ok?
    ensures var after, task := FollowUp(rows, source, feedback, now).value, rows[source].task;
            && |after| == |rows| + 1
            && after[|rows|] == Attempt(task, CountTask(rows, task) + 1, Created, None, None)
            && (Live(after, task, i) <==> i == |rows|)
            && (i < |rows| && i != source ==> after[i] == rows[i])
            && (if rows[source].status in REVIEWABLE
                then after[source] == Close(rows[source], Rejected, Some(feedback), now)
                else after[source] == rows[source])
  {
    FollowUpGrantedExactly(rows, source, feedback, now);
    NextNumber(rows, source, feedback, now);
    ClosedSourceNotLive(rows, source, feedback, now, i);
  }

  /** After a follow-up the next one on the same task is refused, whichever source it names. */
  lemma NoSecondFollowUp(
      rows: seq<Attempt>, source: nat, feedback: string, now: int, again: nat, more: string, later: int)
    requires FollowUp(rows, source, feedback, now).Ok?
    ensures var after := FollowUp(rows, source, feedback, now).value;
            again < |after| && after[again].task == rows[source].task ==>
              FollowUp(after, again, more, later).Err?
  {
    var after := FollowUp(rows, source, feedback, now).value;
    var task := rows[source].task;
    if again < |after| && after[again].task == task && again != |rows| {
      assert Blocks(after, task, again, |rows|);
    }
  }

  // ------------------------------------------------------- after a follow-up

  /**
   * The source of a granted follow-up is closed but not out of reach: a later write that
   * asks no table keeps one line of work exactly when it leaves the source closed.
   */
  lemma SourceRevivedExactly(
      rows: seq<Attempt>, source: nat, feedback: string, now: int,
      target: AttemptStatus, note: Option<string>, end: Option<int>)
    requires OneLine(rows) && FollowUp(rows, source, feedback, now).Ok?
    ensures var after := FollowUp(rows, source, feedback, now).value;
            OneLine(Apply(after, DoWrite(source, target, note, end))) <==> target !in BLOCKING
  {
    var after := FollowUp(rows, source, feedback, now).value;
    FollowUpOneLine(rows, source, feedback, now);
    assert Live(after, after[source].task, |rows|) && !Live(after, after[source].task, source);
    StatusStepOneLine(after, source, after[source].(status := target, summary := note, completedAt := end));
  }

  /** A first attempt claimed, released as failed and followed up, and then claimed again. */
  function ReclaimedSource(task: nat, feedback: string, now: int): seq<Step> {
    [DoCreate(task), DoWrite(0, RunningWorker, None, None), DoWrite(0, WorkerFailed, None, None),
     DoFollowUp(0, feedback, now), DoWrite(0, RunningWorker, None, None)]
  }

  lemma OneFailed(task: nat, feedback: string, now: int)
    requires feedback != ""
    ensures var failed := [Attempt(task, 1, WorkerFailed, None, None)];
            && Run([], ReclaimedSource(task, feedback, now)[..3]) == failed
            && FollowUp(failed, 0, feedback, now).Ok?
  {
    var one := Attempt(task, 1, Created, None, None);
    var running, failed := one.(status := RunningWorker), one.(status := WorkerFailed);
    var claim, release := DoWrite(0, RunningWorker, None, None), DoWrite(0, WorkerFailed, None, None);
    assert MaxNumber([], task) == 0;
    FirstStep([running], release, [], [failed]);
    FirstStep([one], claim, [release], [running]);
    FirstStep([], DoCreate(task), [claim] + [release], [one]);
    assert ReclaimedSource(task, feedback, now)[..3] == [DoCreate(task)] + ([claim] + [release]);
    FollowUpGrantedExactly([failed], 0, feedback, now);
  }

  /** So two live attempts of one task are reached although every creation and follow-up asked the policy. */
  lemma ReclaimedSourceDoubles(task: nat, feedback: string, now: int)
    requires feedback != ""
    ensures var steps := ReclaimedSource(task, feedback, now);
            OneLine(Run([], steps[..4])) && !OneLine(Run([], steps))
  {
    var steps := ReclaimedSource(task, feedback, now);
    var failed := [Attempt(task, 1, WorkerFailed, None, None)];
    OneFailed(task, feedback, now);
    FollowUpOneLine(failed, 0, feedback, now);
    SourceRevivedExactly(failed, 0, feedback, now, RunningWorker, None, None);
    RunConcat([], steps[..3], [steps[3]]);
    assert steps[..3] + [steps[3]] == steps[..4];
    RunConcat([], steps[..4], [steps[4]]);
    assert steps[..4] + [steps[4]] == steps;
  }

  lemma FirstStep(rows: seq<Attempt>, step: Step, rest: seq<Step>, next: seq<Attempt>)
    requires Apply(rows, step) == next
    ensures Run(rows, [step] + rest) == Run(next, rest)
  {
    assert ([step] + rest)[1..] == rest;
  }

  lemma {:induction false} RunConcat(rows: seq<Attempt>, steps: seq<Step>, more: seq<Step>)
    ensures Run(rows, steps + more) == Run(Run(rows, steps), more)
    decreases steps
  {
    if steps == [] {
      assert steps + more == more;
    } else {
      RunConcat(Apply(rows, steps[0]), steps[1..], more);
      assert (steps + more)[1..] == steps[1..] + more;
    }
  }

  // ----------------------------------------------------------------- adopted work

  predicate Adopted(rows: seq<Attempt>, id: nat, task: nat) {
    id < |rows| && rows[id].task == task && rows[id].status in ADOPTED
  }

  /** A write that asks no table takes the adoption back. */
  predicate Unadopts(step: Step, id: nat) {
    step.DoWrite? && step.id == id && step.target !in ADOPTED
  }

  lemma StepKeepsAdopted(rows: seq<Attempt>, step: Step, id: nat, task: nat)
    requires Adopted(rows, id, task)
    ensures Adopted(Apply(rows, step), id, task) <==> !Unadopts(step, id)
  {
  }

  /** An adopted attempt stays adopted throughout a run exactly when no write of the run takes that back. */
  lemma {:induction false} StaysAdoptedExactly(rows: seq<Attempt>, id: nat, task: nat, steps: seq<Step>)
    requires Adopted(rows, id, task)
    ensures (forall i | 0 <= i < |steps| :: !Unadopts(steps[i], id)) <==>
            (forall n | 0 <= n <= |steps| :: Adopted(Run(rows, steps[..n]), id, task))
  {
    var holds: nat -> bool := (n: nat) => n <= |steps| && Adopted(Run(rows, steps[..n]), id, task);
    var careful: nat -> bool := (n: nat) => n < |steps| && !Unadopts(steps[n], id);
    forall n: nat | n < |steps| && holds(n) ensures holds(n + 1) <==> careful(n) {
      RunConcat(rows, steps[..n], [steps[n]]);
      assert steps[..n] + [steps[n]] == steps[..n + 1];
      StepKeepsAdopted(Run(rows, steps[..n]), steps[n], id, task);
    }
    assert steps[..0] == [];
    Induction.HoldsThroughout(holds, careful, |steps|);
    assert forall n: nat | n < |steps| :: careful(n) <==> !Unadopts(steps[n], id);
    assert forall n: nat | n <= |steps| :: holds(n) <==> Adopted(Run(rows, steps[..n]), id, task);
  }

  lemma AdoptedBlocks(rows: seq<Attempt>, id: nat, source: nat, feedback: string, now: int)
    requires id < |rows| && Adopted(rows, id, rows[id].task)
    requires source < |rows| && rows[source].task == rows[id].task
    ensures FollowUp(rows, source, feedback, now).Err?
  {
    if source != id {
      assert Blocks(rows, rows[id].task, source, id);
    }
  }

  /** While it does, no follow-up on its task succeeds. */
  lemma AdoptedEndsFollowUps(
      rows: seq<Attempt>, id: nat, steps: seq<Step>, source: nat, feedback: string, now: int)
    requires id < |rows| && rows[id].status in ADOPTED
    requires forall i | 0 <= i < |steps| :: !Unadopts(steps[i], id)
    ensures var after := Run(rows, steps);
            && Adopted(after, id, rows[id].task)
            && (source < |after| && after[source].task == rows[id].task ==> FollowUp(after, source, feedback, now).Err?)
  {
    StaysAdoptedExactly(rows, id, rows[id].task, steps);
    assert steps[..|steps|] == steps;
    if source < |Run(rows, steps)| && Run(rows, steps)[source].task == rows[id].task {
      AdoptedBlocks(Run(rows, steps), id, source, feedback, now);
    }
  }

  /**
   * And otherwise one may: adopted work claimed under an expired lease and released as
   * failed can be followed up as if it had never been adopted.
   */
  lemma ReclaimEndsAdoption(rows: seq<Attempt>, id: nat, feedback: string, now: int)
    requires OneLine(rows) && id < |rows| && rows[id].status in ADOPTED && feedback != ""
    ensures var claimed := Apply(rows, DoWrite(id, RunningWorker, None, None));
            FollowUp(Apply(claimed, DoWrite(id, WorkerFailed, None, None)), id, feedback, now).Ok?
  {
    var claimed := Apply(rows, DoWrite(id, RunningWorker, None, None));
    var released := Apply(claimed, DoWrite(id, WorkerFailed, None, None));
    forall i: nat | i < |released| && i != id ensures !Live(released, released[id].task, i) {
      if Live(rows, rows[id].task, i) {
        Rivals(rows, id, i);
      }
    }
    FollowUpGrantedExactly(released, id, feedback, now);
  }

  // ------------------------------------------------------- the life of an attempt

  /** The statuses of attempt `id` along a run. */
  function Life(rows: seq<Attempt>, steps: seq<Step>, id: nat): seq<AttemptStatus>
    requires id < |rows|
    decreases steps
  {
    [rows[id].status] +
    if steps == [] || id >= |Apply(rows, steps[0])| then [] else Life(Apply(rows, steps[0]), steps[1..], id)
  }

  /** How many steps write the status of attempt `id` without asking a table. */
  function Writes(steps: seq<Step>, id: nat): nat {
    if steps == [] then 0
    else (if steps[0].DoWrite? && steps[0].id == id then 1 else 0) + Writes(steps[1..], id)
  }

  /** Every other step moves an attempt by the table, if at all. */
  lemma StepMovesByTable(rows: seq<Attempt>, step: Step, id: nat)
    requires id < |rows|
    ensures id < |Apply(rows, step)|
    ensures !(step.DoWrite? && step.id == id) ==> Allowed(rows[id].status, Apply(rows, step)[id].status)
  {
    if step.DoUpdate? && step.id < |rows| && PubliclyAllowed(rows[step.id].status, step.target) {
      PublicWithinFull(rows[step.id].status, step.target);
    }
  }

  lemma {:induction false} JumpsAreWrites(rows: seq<Attempt>, steps: seq<Step>, id: nat)
    requires id < |rows|
    ensures Life(rows, steps, id) != [] && Life(rows, steps, id)[0] == rows[id].status
    ensures Jumps(Life(rows, steps, id)) <= Writes(steps, id)
    decreases steps
  {
    if steps != [] {
      var next := Apply(rows, steps[0]);
      StepMovesByTable(rows, steps[0], id);
      JumpsAreWrites(next, steps[1..], id);
      assert Life(rows, steps, id)[1..] == Life(next, steps[1..], id);
    }
  }

  /**
   * In every run a new attempt that enters `RetryRequested` k times and is written u times
   * without the table changes its status at most 7k + 9u + 8 times.
   */
  lemma RunLifeBound(rows: seq<Attempt>, steps: seq<Step>, id: nat)
    requires id < |rows| && rows[id].status == Created
    ensures var life := Life(rows, steps, id);
            Changes(life) <= 7 * Retries(life) + 9 * Writes(steps, id) + 8
  {
    JumpsAreWrites(rows, steps, id);
    AttemptLifeBound(Life(rows, steps, id));
  }
}
