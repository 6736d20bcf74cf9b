/** The owner tools and the background loop as they change rows in place. */
module QueueService {
  import opened Common
  import opened Statuses
  import opened WorkerQueue
  import opened QueueLoop

  class QueueRunner {
    var runs: seq<Run>
    var attempts: map<Id, Attempt>

    ghost function Snapshot(): State
      reads this
    {
      State(runs, attempts)
    }

    constructor ()
      ensures Snapshot() == State([], map[])
    {
      runs, attempts := [], map[];
    }

    method SetRunStatus(r: nat, status: RunStatus)
      requires r < |runs|
      modifies this`runs
      ensures Snapshot() == SetRun(old(Snapshot()), r, status)
    {
      runs := runs[r := runs[r].(status := status)];
    }

    method SetAttemptStatus(aid: Id, status: AttemptStatus)
      modifies this`attempts
      ensures Snapshot() == SetAttempt(old(Snapshot()), aid, status)
    {
      if aid in attempts { attempts := attempts[aid := attempts[aid].(status := status)]; }
    }

    /** A run other than `r` that is running for the same worker. */
    method FindOtherRunning(r: nat) returns (found: bool)
      requires r < |runs|
      ensures found <==> OtherRunning(Snapshot(), r)
    {
      for i := 0 to |runs|
        invariant forall j | 0 <= j < i :: j == r || runs[j].worker != runs[r].worker || runs[j].status != RunRunning
      {
        if i != r && runs[i].worker == runs[r].worker && runs[i].status == RunRunning { return true; }
      }
      return false;
    }

    method FindRunning(wid: Id) returns (found: bool)
      ensures found <==> WorkerBusy(Snapshot(), wid)
    {
      for i := 0 to |runs|
        invariant forall j | 0 <= j < i :: runs[j].worker != wid || runs[j].status != RunRunning
      {
        if runs[i].worker == wid && runs[i].status == RunRunning { return true; }
      }
      return false;
    }

    method TaskHasActiveRun(r: nat) returns (found: bool)
      requires r < |runs|
      ensures found <==> TaskRunning(Snapshot(), r)
    {
      for i := 0 to |runs|
        invariant forall j | 0 <= j < i :: j == r || runs[j].task != runs[r].task || runs[j].status != RunRunning
      {
        if i != r && runs[i].task == runs[r].task && runs[i].status == RunRunning { return true; }
      }
      return false;
    }

    /** The candidates in order of creation; the first that passes both tests. */
    method NextQueued(wid: Id) returns (k: Option<nat>)
      ensures k == Select(Snapshot(), wid, 0)
    {
      for i := 0 to |runs|
        invariant Select(Snapshot(), wid, 0) == Select(Snapshot(), wid, i)
      {
        if runs[i].worker != wid || !(runs[i].status == RunQueued || runs[i].status == RunCreated) { continue; }
        var aid := runs[i].attempt;
        if aid !in attempts || (attempts[aid].status != QueuedWorker && attempts[aid].status != Created) { continue; }
        var blocked := TaskHasActiveRun(i);
        if blocked { continue; }
        return Some(i);
      }
      return None;
    }

    method StartAttempt(aid: Id, wid: Id, adapter: string) returns (reply: Reply)
      modifies this
      ensures (Snapshot(), reply) == Start(old(Snapshot()), aid, wid, adapter)
    {
      if aid !in attempts { return NotFound; }
      if attempts[aid].status != Created && attempts[aid].status != QueuedWorker { return NotStartable; }
      for i := 0 to |runs|
        invariant forall j | 0 <= j < i ::
                    !(runs[j].attempt == aid && (Waiting(runs[j].status) || runs[j].status == RunRunning))
      {
        var status := runs[i].status;
        if runs[i].attempt == aid && (status == RunCreated || status == RunQueued || status == RunRunning) {
          return RunExists;
        }
      }
      SetAttemptStatus(aid, QueuedWorker);
      runs := runs + [Run(wid, attempts[aid].task, aid, adapter, RunQueued)];
      return StartQueued;
    }

    method RunWorkerRun(r: nat, world: World) returns (reply: Reply)
      modifies this
      ensures (Snapshot(), reply) == Dispatch(old(Snapshot()), r, world)
    {
      if r >= |runs| || runs[r].attempt !in attempts { return NotFound; }
      var run := runs[r];
      if run.adapter !in {"mock", "agy"} { return Unsupported; }
      var full := FindOtherRunning(r);
      if full {
        SetRunStatus(r, RunQueued);
        SetAttemptStatus(run.attempt, QueuedWorker);
        return CapacityFull;
      }
      if run.adapter == "agy" {
        if !world.gateOpen { return Disabled; }
        if run.attempt !in world.worktreeOk { return WorktreeFails; }
        SetRunStatus(r, RunRunning);
        SetAttemptStatus(run.attempt, RunningWorker);
        return HandedOff(r);
      }
      SetRunStatus(r, RunSucceeded);
      SetAttemptStatus(run.attempt, Accepted);
      return MockDone;
    }

    method DrainNext(wid: Id, world: World) returns (reply: Reply)
      modifies this
      ensures (Snapshot(), reply) == Drain(old(Snapshot()), wid, world)
    {
      var busy := FindRunning(wid);
      if busy { return CapacityFull; }
      var k := NextQueued(wid);
      if k.None? { return Idle; }
      reply := RunWorkerRun(k.value, world);
    }

    /** The outcome branches of the execution; an exception marks the run failed alike. */
    method EndExecution(r: nat, ending: Ending)
      requires r < |runs|
      modifies this
      ensures Snapshot() == Finish(old(Snapshot()), r, ending)
    {
      match ending
      case ResultCommitted =>
        SetAttemptStatus(runs[r].attempt, Committed);
        SetRunStatus(r, RunSucceeded);
      case NothingChanged =>
        SetRunStatus(r, RunSucceeded);
      case RunFails =>
        SetRunStatus(r, RunFailed);
        SetAttemptStatus(runs[r].attempt, WorkerFailed);
    }

    /** One round: execute, then drain; the run handed off next, if any. */
    method Round(r: nat, world: World, ends: Endings) returns (next: Option<nat>)
      requires r < |runs|
      modifies this
      ensures next.Some? ==> next.value < |runs|
      ensures Loop(old(Snapshot()), r, world, ends) == Rest(Snapshot(), next, [r], world, ends)
      ensures next.Some? ==> Rounds(Snapshot(), next.value, ends) < Rounds(old(Snapshot()), r, ends)
    {
      var wid := runs[r].worker;
      EndExecution(r, ends(r));
      ghost var ended := Snapshot();
      var reply := DrainNext(wid, world);
      if !reply.HandedOff? {
        assert [r] + [] == [r];
        return None;
      }
      DrainHandsOff(ended, wid, world);
      RoundShrinksQueue(ended, wid, reply.run, ends(reply.run));
      return Some(reply.run);
    }

    /** `background_agy_runner`; it stops when nothing is handed off, so it terminates. */
    method BackgroundRunner(r: nat, world: World, ends: Endings) returns (executed: seq<nat>)
      requires r < |runs|
      modifies this
      ensures (Snapshot(), executed) == Loop(old(Snapshot()), r, world, ends)
    {
      var next: Option<nat> := Round(r, world, ends);
      executed := [r];
      while next.Some?
        invariant next.Some? ==> next.value < |runs|
        invariant Loop(old(Snapshot()), r, world, ends) == Rest(Snapshot(), next, executed, world, ends)
        decreases if next.Some? then 1 + Rounds(Snapshot(), next.value, ends) else 0
      {
        var current := next.value;
        ghost var before := Snapshot();
        next := Round(current, world, ends);
        RestGrows(before, current, Snapshot(), next, executed, world, ends);
        executed := executed + [current];
      }
    }
  }

  /** How many runs may still wait when the execution of `r` has ended. */
  ghost function Rounds(s: State, r: nat, ends: Endings): nat
    requires r < |s.runs|
  {
    CountWaiting(Finish(s, r, ends(r)).runs, s.runs[r].worker)
  }

  /** How the loop ends, from a point where it has executed these runs and handed off `next`. */
  ghost function Rest(s: State, next: Option<nat>, executed: seq<nat>, world: World, ends: Endings): (State, seq<nat>)
    requires next.Some? ==> next.value < |s.runs|
  {
    match next
    case None => (s, executed)
    case Some(r) =>
      var (last, more) := Loop(s, r, world, ends);
      (last, executed + more)
  }

  lemma RestGrows(
      s: State, r: nat, later: State, next: Option<nat>, executed: seq<nat>, world: World, ends: Endings)
    requires r < |s.runs| && (next.Some? ==> next.value < |later.runs|)
    requires Loop(s, r, world, ends) == Rest(later, next, [r], world, ends)
    ensures Rest(s, Some(r), executed, world, ends) == Rest(later, next, executed + [r], world, ends)
  {
    if next.Some? {
      var more := Loop(later, next.value, world, ends).1;
      assert executed + ([r] + more) == executed + [r] + more;
    }
  }
}
