/**
 * Worker runs: starting, dispatching, draining, finishing (`owner_tools.py`,
 * `worker_execution.py`, the outcome part of `antigravity_cli.py`).
 *
 * A run is named by its place in the order of creation. The hand-off of a run and
 * the moment its background execution begins are one step; `Restart` shows what
 * the second of them does on its own.
 */
module WorkerQueue {
  import opened Common
  import opened Statuses
  import Induction
  import Runs

  type Id = string

  datatype Run = Run(worker: Id, task: Id, attempt: Id, adapter: string, status: RunStatus)

  datatype Attempt = Attempt(task: Id, status: AttemptStatus)

  datatype State = State(runs: seq<Run>, attempts: map<Id, Attempt>)

  /** The configuration gate, and the attempts for which a worktree can be had. */
  datatype World = World(gateOpen: bool, worktreeOk: set<Id>)

  /** How the execution of a run ends; an exception counts as a failure. */
  datatype Ending = ResultCommitted | NothingChanged | RunFails

  datatype Reply =
    | StartQueued | RunExists | NotStartable | NotFound | Unsupported | CapacityFull | Disabled
    | WorktreeFails | HandedOff(run: nat) | MockDone | Idle | Ended

  // --------------------------------------------------------------------- queries

  predicate Waiting(status: RunStatus) {
    status == RunQueued || status == RunCreated
  }

  predicate WorkerBusy(s: State, wid: Id) {
    exists i | 0 <= i < |s.runs| :: s.runs[i].worker == wid && s.runs[i].status == RunRunning
  }

  predicate OtherRunning(s: State, r: nat)
    requires r < |s.runs|
  {
    exists i | 0 <= i < |s.runs| :: i != r && s.runs[i].worker == s.runs[r].worker && s.runs[i].status == RunRunning
  }

  predicate TaskRunning(s: State, r: nat)
    requires r < |s.runs|
  {
    exists i | 0 <= i < |s.runs| :: i != r && s.runs[i].task == s.runs[r].task && s.runs[i].status == RunRunning
  }

  predicate AttemptActive(s: State, aid: Id) {
    exists i | 0 <= i < |s.runs| ::
      s.runs[i].attempt == aid && (Waiting(s.runs[i].status) || s.runs[i].status == RunRunning)
  }

  /** A run the drain may pick for the worker. */
  predicate Eligible(s: State, wid: Id, r: nat) {
    && r < |s.runs| && s.runs[r].worker == wid && Waiting(s.runs[r].status)
    && s.runs[r].attempt in s.attempts
    && (s.attempts[s.runs[r].attempt].status == QueuedWorker || s.attempts[s.runs[r].attempt].status == Created)
    && !TaskRunning(s, r)
  }

  /** The oldest eligible run from place `i` on. */
  function Select(s: State, wid: Id, i: nat): (k: Option<nat>)
    requires i <= |s.runs|
    ensures k.Some? ==> i <= k.value && Eligible(s, wid, k.value) && forall j | i <= j < k.value :: !Eligible(s, wid, j)
    ensures k.None? ==> forall j | i <= j < |s.runs| :: !Eligible(s, wid, j)
    decreases |s.runs| - i
  {
    if i == |s.runs| then None
    else if Eligible(s, wid, i) then Some(i)
    else Select(s, wid, i + 1)
  }

  // ----------------------------------------------------------------------- steps

  function SetRun(s: State, r: nat, status: RunStatus): State
    requires r < |s.runs|
  {
    s.(runs := s.runs[r := s.runs[r].(status := status)])
  }

  function SetAttempt(s: State, aid: Id, status: AttemptStatus): State {
    if aid in s.attempts then s.(attempts := s.attempts[aid := s.attempts[aid].(status := status)]) else s
  }

  /** `worker.start_task_attempt` for an attempt that exists. */
  function Start(s: State, aid: Id, wid: Id, adapter: string): (State, Reply) {
    if aid !in s.attempts then (s, NotFound)
    else if s.attempts[aid].status != Created && s.attempts[aid].status != QueuedWorker then (s, NotStartable)
    else if AttemptActive(s, aid) then (s, RunExists)
    else
      var queued := SetAttempt(s, aid, QueuedWorker);
      (queued.(runs := s.runs + [Run(wid, s.attempts[aid].task, aid, adapter, RunQueued)]), StartQueued)
  }

  /** `worker.start_task_attempt` for a task: a new attempt `aid`, then as above. */
  function StartNew(s: State, aid: Id, tid: Id, wid: Id, adapter: string): (State, Reply) {
    if aid in s.attempts then (s, NotFound)
    else Start(s.(attempts := s.attempts[aid := Attempt(tid, Created)]), aid, wid, adapter)
  }

  function HandOff(s: State, r: nat): State
    requires r < |s.runs|
  {
    SetAttempt(SetRun(s, r, RunRunning), s.runs[r].attempt, RunningWorker)
  }

  /** `_run_worker_run`: it looks at the adapter and the worker, not at the run's status. */
  function Dispatch(s: State, r: nat, world: World): (State, Reply) {
    if r >= |s.runs| || s.runs[r].attempt !in s.attempts then (s, NotFound)
    else
      var run := s.runs[r];
      if run.adapter != "mock" && run.adapter != "agy" then (s, Unsupported)
      else if OtherRunning(s, r) then (SetAttempt(SetRun(s, r, RunQueued), run.attempt, QueuedWorker), CapacityFull)
      else if run.adapter == "agy" then
        if !world.gateOpen then (s, Disabled)
        else if run.attempt !in world.worktreeOk then (s, WorktreeFails)
        else (HandOff(s, r), HandedOff(r))
      else (SetAttempt(SetRun(s, r, RunSucceeded), run.attempt, Accepted), MockDone)
  }

  /** `drain_next_worker_run`. */
  function Drain(s: State, wid: Id, world: World): (State, Reply) {
    if WorkerBusy(s, wid) then (s, CapacityFull)
    else match Select(s, wid, 0)
      case None => (s, Idle)
      case Some(r) => Dispatch(s, r, world)
  }

  /** The end of an execution: the run is over whatever its row said meanwhile. */
  function Finish(s: State, r: nat, ending: Ending): State
    requires r < |s.runs|
  {
    var aid := s.runs[r].attempt;
    match ending
    case ResultCommitted => SetAttempt(SetRun(s, r, RunSucceeded), aid, Committed)
    case NothingChanged => SetRun(s, r, RunSucceeded)
    case RunFails => SetAttempt(SetRun(s, r, RunFailed), aid, WorkerFailed)
  }

  /** Recovery of one stale run. */
  function Recover(s: State, r: nat): State
    requires r < |s.runs|
  {
    var aid := s.runs[r].attempt;
    if s.runs[r].status != RunRunning then s
    else if aid in s.attempts && s.attempts[aid].status in RECOVERABLE
    then SetAttempt(SetRun(s, r, RunFailed), aid, WorkerFailed)
    else SetRun(s, r, RunFailed)
  }

  /**
   * The background execution marks its run running once more when it begins. As a step
   * of its own it may come at any time after the hand-off.
   */
  function Restart(s: State, r: nat): State
    requires r < |s.runs|
  {
    SetRun(s, r, RunRunning)
  }

  datatype Event =
    | DoStart(aid: Id, wid: Id, adapter: string)
    | DoStartNew(aid: Id, tid: Id, wid: Id, adapter: string)
    | DoRun(run: nat, world: World)
    | DoDrain(wid: Id, world: World)
    | DoFinish(run: nat, ending: Ending)
    | DoRecover(run: nat)
    | DoRestart(run: nat)
    | DoSetAttempt(aid: Id, status: AttemptStatus)

  function Apply(s: State, e: Event): State {
    match e
    case DoStart(aid, wid, adapter) => Start(s, aid, wid, adapter).0
    case DoStartNew(aid, tid, wid, adapter) => StartNew(s, aid, tid, wid, adapter).0
    case DoRun(r, world) => Dispatch(s, r, world).0
    case DoDrain(wid, world) => Drain(s, wid, world).0
    case DoFinish(r, ending) => if r < |s.runs| then Finish(s, r, ending) else s
    case DoRecover(r) => if r < |s.runs| then Recover(s, r) else s
    case DoRestart(r) => if r < |s.runs| then Restart(s, r) else s
    case DoSetAttempt(aid, status) => SetAttempt(s, aid, status)
  }

  // ------------------------------------------------------------------ capacity

  /** No worker has two running runs. */
  predicate OnePerWorker(s: State) {
    forall i, j | 0 <= i < j < |s.runs| && s.runs[i].status == RunRunning && s.runs[j].status == RunRunning ::
      s.runs[i].worker != s.runs[j].worker
  }

  /** No task has two running runs. */
  predicate OnePerTask(s: State) {
    forall i, j | 0 <= i < j < |s.runs| && s.runs[i].status == RunRunning && s.runs[j].status == RunRunning ::
      s.runs[i].task != s.runs[j].task
  }

  lemma DispatchKeepsCapacity(s: State, r: nat, world: World)
    requires OnePerWorker(s)
    ensures OnePerWorker(Dispatch(s, r, world).0)
  {
  }

  lemma StartsKeepCapacity(s: State, e: Event)
    requires OnePerWorker(s) && (e.DoStart? || e.DoStartNew?)
    ensures OnePerWorker(Apply(s, e))
  {
  }

  lemma StepKeepsCapacity(s: State, e: Event)
    requires OnePerWorker(s) && !e.DoRestart?
    ensures OnePerWorker(Apply(s, e))
  {
    match e
    case DoStart(_, _, _) => StartsKeepCapacity(s, e);
    case DoStartNew(_, _, _, _) => StartsKeepCapacity(s, e);
    case DoRun(r, world) => DispatchKeepsCapacity(s, r, world);
    case DoDrain(wid, world) =>
      if Select(s, wid, 0).Some? { DispatchKeepsCapacity(s, Select(s, wid, 0).value, world); }
    case _ =>
  }

  lemma DrainKeepsTasksApart(s: State, wid: Id, world: World)
    requires OnePerTask(s)
    ensures OnePerTask(Drain(s, wid, world).0)
  {
  }

  lemma StartsKeepTasksApart(s: State, e: Event)
    requires OnePerTask(s) && (e.DoStart? || e.DoStartNew?)
    ensures OnePerTask(Apply(s, e))
  {
  }

  lemma StepKeepsTasksApart(s: State, e: Event)
    requires OnePerTask(s) && !e.DoRun? && !e.DoRestart?
    ensures OnePerTask(Apply(s, e))
  {
    match e
    case DoStart(_, _, _) => StartsKeepTasksApart(s, e);
    case DoStartNew(_, _, _, _) => StartsKeepTasksApart(s, e);
    case DoDrain(wid, world) => DrainKeepsTasksApart(s, wid, world);
    case _ =>
  }

  function After(s: State, es: seq<Event>): State {
    Runs.Fold(Apply, s, es)
  }

  /** In every run in which hand-off and beginning are one step, each worker executes at most one run at a time. */
  lemma {:induction false} CapacityOne(s: State, es: seq<Event>)
    requires s.runs == [] && forall i | 0 <= i < |es| :: !es[i].DoRestart?
    ensures OnePerWorker(After(s, es))
  {
    if es != [] {
      CapacityOne(s, es[..|es| - 1]);
      StepKeepsCapacity(After(s, es[..|es| - 1]), es[|es| - 1]);
    }
  }

  /** If every dispatch is a drain, running runs pair workers and tasks one to one. */
  lemma {:induction false} RunningIsMatching(s: State, es: seq<Event>)
    requires s.runs == [] && forall i | 0 <= i < |es| :: !es[i].DoRun? && !es[i].DoRestart?
    ensures OnePerWorker(After(s, es)) && OnePerTask(After(s, es))
  {
    if es != [] {
      RunningIsMatching(s, es[..|es| - 1]);
      StepKeepsCapacity(After(s, es[..|es| - 1]), es[|es| - 1]);
      StepKeepsTasksApart(After(s, es[..|es| - 1]), es[|es| - 1]);
    }
  }

  /** A direct dispatch keeps the tasks apart exactly when no other run of the task is running. */
  lemma DirectDispatchKeepsTasksApart(s: State, r: nat, world: World)
    requires OnePerTask(s) && r < |s.runs| && Dispatch(s, r, world).1.HandedOff?
    ensures OnePerTask(Dispatch(s, r, world).0) <==> !TaskRunning(s, r)
  {
    var s' := HandOff(s, r);
    if TaskRunning(s, r) {
      var i :| 0 <= i < |s.runs| && i != r && s.runs[i].task == s.runs[r].task && s.runs[i].status == RunRunning;
      assert s'.runs[i] == s.runs[i] && s'.runs[r].status == RunRunning;
    }
  }

  /**
   * Taken apart from the hand-off, that mark keeps the capacity rule exactly when
   * no other run of the worker has been started meanwhile.
   */
  lemma RestartKeepsCapacity(s: State, r: nat)
    requires OnePerWorker(s) && r < |s.runs|
    ensures OnePerWorker(Restart(s, r)) <==> !OtherRunning(s, r)
  {
    var s' := Restart(s, r);
    if OtherRunning(s, r) {
      var i :| 0 <= i < |s.runs| && i != r && s.runs[i].worker == s.runs[r].worker && s.runs[i].status == RunRunning;
      assert s'.runs[i] == s.runs[i] && s'.runs[r].status == RunRunning;
    }
  }

  /**
   * It does happen: hand a run off, lose it to stale recovery, hand off the next
   * run of the worker, and only then let the first execution begin.
   */
  lemma LateRestartBreaksCapacity(s: State, r: nat, q: nat, world: World)
    requires OnePerWorker(s) && r < |s.runs| && q < |s.runs| && r != q && s.runs[r].worker == s.runs[q].worker
    requires Dispatch(s, r, world).1.HandedOff?
    requires s.runs[q].adapter == "agy" && s.runs[q].attempt in s.attempts && s.runs[q].attempt in world.worktreeOk
    ensures var lost := Recover(Dispatch(s, r, world).0, r);
            Dispatch(lost, q, world).1.HandedOff? && !OnePerWorker(Restart(Dispatch(lost, q, world).0, r))
  {
    var lost := Recover(Dispatch(s, r, world).0, r);
    var next := Dispatch(lost, q, world).0;
    assert lost.runs[q] == s.runs[q] && !OtherRunning(lost, q);
    assert next.runs[q].status == RunRunning && next.runs[r].worker == next.runs[q].worker;
    StepKeepsCapacity(lost, DoRun(q, world));
    RestartKeepsCapacity(next, r);
  }

  // ----------------------------------------------------------------- whole runs

  /** What has to be true before the step. */
  predicate KeepsCapacity(s: State, e: Event) {
    e.DoRestart? && e.run < |s.runs| ==> !OtherRunning(s, e.run)
  }

  predicate KeepsTasksApart(s: State, e: Event) {
    && (e.DoRestart? && e.run < |s.runs| ==> !TaskRunning(s, e.run))
    && (e.DoRun? && Dispatch(s, e.run, e.world).1.HandedOff? ==> !TaskRunning(s, e.run))
  }

  lemma CapacityExact(s: State, e: Event)
    requires OnePerWorker(s)
    ensures OnePerWorker(Apply(s, e)) <==> KeepsCapacity(s, e)
  {
    if e.DoRestart? {
      if e.run < |s.runs| { RestartKeepsCapacity(s, e.run); }
    } else {
      StepKeepsCapacity(s, e);
    }
  }

  lemma RestartKeepsTasksApart(s: State, r: nat)
    requires OnePerTask(s) && r < |s.runs|
    ensures OnePerTask(Restart(s, r)) <==> !TaskRunning(s, r)
  {
    var s' := Restart(s, r);
    if TaskRunning(s, r) {
      var i :| 0 <= i < |s.runs| && i != r && s.runs[i].task == s.runs[r].task && s.runs[i].status == RunRunning;
      assert s'.runs[i] == s.runs[i] && s'.runs[r].status == RunRunning;
    }
  }

  /** A dispatch that hands nothing off starts no run. */
  lemma OtherDispatchKeepsTasksApart(s: State, r: nat, world: World)
    requires OnePerTask(s) && !Dispatch(s, r, world).1.HandedOff?
    ensures OnePerTask(Dispatch(s, r, world).0)
  {
  }

  lemma TasksApartExact(s: State, e: Event)
    requires OnePerTask(s)
    ensures OnePerTask(Apply(s, e)) <==> KeepsTasksApart(s, e)
  {
    if e.DoRestart? {
      if e.run < |s.runs| { RestartKeepsTasksApart(s, e.run); }
    } else if e.DoRun? {
      if Dispatch(s, e.run, e.world).1.HandedOff? {
        DirectDispatchKeepsTasksApart(s, e.run, e.world);
      } else {
        OtherDispatchKeepsTasksApart(s, e.run, e.world);
      }
    } else {
      StepKeepsTasksApart(s, e);
    }
  }

  lemma NextState(s: State, es: seq<Event>, n: nat)
    requires n < |es|
    ensures After(s, es[..n + 1]) == Apply(After(s, es[..n]), es[n])
  {
    Runs.FoldNext(Apply, s, es, n);
  }

  /** Every step of the run met its condition. */
  predicate Careful(s: State, es: seq<Event>, rule: (State, Event) -> bool) {
    forall n: nat | n < |es| :: rule(After(s, es[..n]), es[n])
  }

  /** No worker ever has two running runs exactly when no run was begun late beside another of its worker. */
  lemma CapacityRuns(s: State, es: seq<Event>)
    requires OnePerWorker(s)
    ensures Careful(s, es, KeepsCapacity) <==> forall n: nat | n <= |es| :: OnePerWorker(After(s, es[..n]))
  {
    var holds: nat -> bool := (n: nat) => n <= |es| && OnePerWorker(After(s, es[..n]));
    var careful: nat -> bool := (n: nat) => n < |es| && KeepsCapacity(After(s, es[..n]), es[n]);
    forall n: nat | n < |es| && holds(n) ensures holds(n + 1) <==> careful(n) {
      NextState(s, es, n);
      CapacityExact(After(s, es[..n]), es[n]);
    }
    assert es[..0] == [];
    Induction.HoldsThroughout(holds, careful, |es|);
    assert forall n: nat | n < |es| :: careful(n) <==> KeepsCapacity(After(s, es[..n]), es[n]);
    assert forall n: nat | n <= |es| :: holds(n) <==> OnePerWorker(After(s, es[..n]));
  }

  /** Likewise for tasks: every start other than by a drain found no other run of its task running. */
  lemma TasksApartRuns(s: State, es: seq<Event>)
    requires OnePerTask(s)
    ensures Careful(s, es, KeepsTasksApart) <==> forall n: nat | n <= |es| :: OnePerTask(After(s, es[..n]))
  {
    var holds: nat -> bool := (n: nat) => n <= |es| && OnePerTask(After(s, es[..n]));
    var careful: nat -> bool := (n: nat) => n < |es| && KeepsTasksApart(After(s, es[..n]), es[n]);
    forall n: nat | n < |es| && holds(n) ensures holds(n + 1) <==> careful(n) {
      NextState(s, es, n);
      TasksApartExact(After(s, es[..n]), es[n]);
    }
    assert es[..0] == [];
    Induction.HoldsThroughout(holds, careful, |es|);
    assert forall n: nat | n < |es| :: careful(n) <==> KeepsTasksApart(After(s, es[..n]), es[n]);
    assert forall n: nat | n <= |es| :: holds(n) <==> OnePerTask(After(s, es[..n]));
  }

  /** Two new attempts of one task, for two workers, each dispatched by name: the task runs twice. */
  lemma DirectDispatchesDoubleTask(tid: Id, a: Id, b: Id, v: Id, w: Id, world: World)
    requires a != b && v != w && world.gateOpen && a in world.worktreeOk && b in world.worktreeOk
    ensures var es := [DoStartNew(a, tid, v, "agy"), DoStartNew(b, tid, w, "agy"), DoRun(0, world), DoRun(1, world)];
            !OnePerTask(After(State([], map[]), es))
  {
    var es := [DoStartNew(a, tid, v, "agy"), DoStartNew(b, tid, w, "agy"), DoRun(0, world), DoRun(1, world)];
    var s1 := Apply(State([], map[]), es[0]);
    assert s1.runs == [Run(v, tid, a, "agy", RunQueued)];
    var s2 := Apply(s1, es[1]);
    assert s2.runs == [Run(v, tid, a, "agy", RunQueued), Run(w, tid, b, "agy", RunQueued)];
    var s3 := Apply(s2, es[2]);
    assert s3.runs == [Run(v, tid, a, "agy", RunRunning), Run(w, tid, b, "agy", RunQueued)];
    var s4 := Apply(s3, es[3]);
    assert s4.runs[0].status == RunRunning && s4.runs[1].status == RunRunning && s4.runs[0].task == s4.runs[1].task;
    Runs.FoldFour(Apply, State([], map[]), es);
  }

  // ------------------------------------------------------------- terminal runs

  predicate Terminal(status: RunStatus) {
    status in {RunSucceeded, RunFailed, RunCancelled, RunSkipped}
  }

  /** The dispatch reaches a decision that does not look at the run's own status. */
  predicate Revives(s: State, r: nat, world: World)
    requires r < |s.runs|
  {
    && s.runs[r].attempt in s.attempts
    && (|| (s.runs[r].adapter in {"mock", "agy"} && OtherRunning(s, r))
        || (s.runs[r].adapter == "agy" && world.gateOpen && s.runs[r].attempt in world.worktreeOk))
  }

  /**
   * A terminal run is not safe from a direct dispatch, however it ended: it waits again
   * when its worker is busy, and runs again when it can be handed off, and only then.
   */
  lemma TerminalRunRevived(s: State, r: nat, world: World)
    requires r < |s.runs| && Terminal(s.runs[r].status)
    ensures !Terminal(Dispatch(s, r, world).0.runs[r].status) <==> Revives(s, r, world)
  {
    if s.runs[r].attempt in s.attempts && OtherRunning(s, r) && s.runs[r].adapter in {"mock", "agy"} {
      assert Dispatch(s, r, world).1 == CapacityFull;
    }
  }

  /** A drain hands off or ends only a waiting run. */
  lemma DrainSparesTerminal(s: State, wid: Id, world: World, r: nat)
    requires r < |s.runs| && Terminal(s.runs[r].status)
    ensures r < |Drain(s, wid, world).0.runs| && Drain(s, wid, world).0.runs[r] == s.runs[r]
  {
  }

  /** Only a direct dispatch of the run, or a late beginning of it, brings a terminal run back. */
  lemma OnlyDispatchRevives(s: State, e: Event, r: nat)
    requires r < |s.runs| && Terminal(s.runs[r].status)
    ensures r < |Apply(s, e).runs|
    ensures !Terminal(Apply(s, e).runs[r].status) ==> (e.DoRun? || e.DoRestart?) && e.run == r
  {
    if e.DoDrain? {
      DrainSparesTerminal(s, e.wid, e.world, r);
    }
  }
}
