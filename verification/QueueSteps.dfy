/** What single steps of the queue decide: starts, refused dispatches, busy drains, recoveries. */
module QueueSteps {
  import opened Common
  import opened Statuses
  import opened WorkerQueue
  import opened QueueLoop

  // ------------------------------------------------------------------- a started run

  /** A run just started is eligible exactly when no other run of its task is running. */
  lemma StartedIsEligible(s: State, aid: Id, wid: Id, adapter: string)
    requires Start(s, aid, wid, adapter).1 == StartQueued
    ensures aid in s.attempts
    ensures Eligible(Start(s, aid, wid, adapter).0, wid, |s.runs|) <==>
              forall i | 0 <= i < |s.runs| :: s.runs[i].status == RunRunning ==> s.runs[i].task != s.attempts[aid].task
  {
    var started := Start(s, aid, wid, adapter).0;
    assert started.runs[|s.runs|] == Run(wid, s.attempts[aid].task, aid, adapter, RunQueued);
    assert forall i | 0 <= i < |s.runs| :: started.runs[i] == s.runs[i];
  }

  /** And it makes no other run eligible, and none that was no longer so. */
  lemma OthersAsEligible(s: State, aid: Id, wid: Id, adapter: string, other: Id, i: nat)
    requires Start(s, aid, wid, adapter).1 == StartQueued && i < |s.runs|
    ensures Eligible(Start(s, aid, wid, adapter).0, other, i) <==> Eligible(s, other, i)
  {
    var started := Start(s, aid, wid, adapter).0;
    assert started.runs[i] == s.runs[i] && started.runs[|s.runs|].status == RunQueued;
    if TaskRunning(s, i) {
      var j :| 0 <= j < |s.runs| && j != i && s.runs[j].task == s.runs[i].task && s.runs[j].status == RunRunning;
      assert started.runs[j] == s.runs[j];
    }
    if s.runs[i].attempt == aid {
      assert !Waiting(s.runs[i].status);
    }
  }

  /** So a drain of a free worker with nothing else eligible takes it. */
  lemma StartedIsNext(s: State, aid: Id, wid: Id, adapter: string)
    requires Start(s, aid, wid, adapter).1 == StartQueued
    requires forall i | 0 <= i < |s.runs| :: s.runs[i].status == RunRunning ==> s.runs[i].task != s.attempts[aid].task
    requires forall i: nat :: !Eligible(s, wid, i)
    ensures Select(Start(s, aid, wid, adapter).0, wid, 0) == Some(|s.runs|)
  {
    StartedIsEligible(s, aid, wid, adapter);
    forall i: nat | i < |s.runs| ensures !Eligible(Start(s, aid, wid, adapter).0, wid, i) {
      OthersAsEligible(s, aid, wid, adapter, wid, i);
    }
  }

  lemma StartedIsHandedOff(s: State, aid: Id, wid: Id, world: World)
    requires Start(s, aid, wid, "agy").1 == StartQueued && !WorkerBusy(s, wid)
    requires forall i | 0 <= i < |s.runs| :: s.runs[i].status == RunRunning ==> s.runs[i].task != s.attempts[aid].task
    requires forall i: nat :: !Eligible(s, wid, i)
    ensures Drain(Start(s, aid, wid, "agy").0, wid, world).1 ==
            if !world.gateOpen then Disabled
            else if aid !in world.worktreeOk then WorktreeFails
            else HandedOff(|s.runs|)
  {
    var started := Start(s, aid, wid, "agy").0;
    StartedIsNext(s, aid, wid, "agy");
    assert !WorkerBusy(started, wid) && !OtherRunning(started, |s.runs|);
  }

  /** Which attempts can be started: new or queued ones without a run that waits or runs. */
  lemma StartableExactly(s: State, aid: Id, wid: Id, adapter: string)
    ensures Start(s, aid, wid, adapter).1 == StartQueued <==>
              && aid in s.attempts && s.attempts[aid].status in {Created, QueuedWorker}
              && forall i | 0 <= i < |s.runs| :: s.runs[i].attempt == aid ==>
                   s.runs[i].status in {RunSucceeded, RunFailed, RunCancelled, RunSkipped}
    ensures Start(s, aid, wid, adapter).1 != StartQueued ==> Start(s, aid, wid, adapter).0 == s
  {
  }

  /** What a start leaves: one more run, waiting, and its attempt queued. */
  lemma StartLeaves(s: State, aid: Id, wid: Id, adapter: string)
    requires Start(s, aid, wid, adapter).1 == StartQueued
    ensures aid in s.attempts
    ensures var s' := Start(s, aid, wid, adapter).0;
            && s'.runs == s.runs + [Run(wid, s.attempts[aid].task, aid, adapter, RunQueued)]
            && s'.attempts == s.attempts[aid := s.attempts[aid].(status := QueuedWorker)]
  {
  }

  /** Starting a task makes a new attempt, which is started, and leaves every other as it was. */
  lemma StartNewLeaves(s: State, aid: Id, tid: Id, wid: Id, adapter: string)
    ensures aid in s.attempts ==> StartNew(s, aid, tid, wid, adapter).0 == s
    ensures StartNew(s, aid, tid, wid, adapter).1 == StartQueued ==>
              && StartNew(s, aid, tid, wid, adapter).0.attempts == s.attempts[aid := Attempt(tid, QueuedWorker)]
              && StartNew(s, aid, tid, wid, adapter).0.runs == s.runs + [Run(wid, tid, aid, adapter, RunQueued)]
  {
  }

  // ---------------------------------------------------------------- waiting for a worker

  /** A waiting run is eligible, on an idle task, exactly while its attempt is new or queued. */
  lemma EligibleWithAttempt(s: State, r: nat, status: AttemptStatus)
    requires r < |s.runs| && s.runs[r].status in {RunCreated, RunQueued} && s.runs[r].attempt in s.attempts
    requires forall i | 0 <= i < |s.runs| && i != r && s.runs[i].task == s.runs[r].task ::
               s.runs[i].status != RunRunning
    ensures Eligible(SetAttempt(s, s.runs[r].attempt, status), s.runs[r].worker, r) <==>
              status in {Created, QueuedWorker}
  {
  }

  /** A dispatch for a busy worker puts run and attempt back in the queue, whatever they were. */
  lemma CapacityRefusalLeaves(s: State, r: nat, world: World)
    requires Dispatch(s, r, world).1 == CapacityFull
    ensures r < |s.runs| && s.runs[r].attempt in s.attempts
    ensures var s', aid := Dispatch(s, r, world).0, s.runs[r].attempt;
            && s'.runs == s.runs[r := s.runs[r].(status := RunQueued)]
            && s'.attempts == s.attempts[aid := s.attempts[aid].(status := QueuedWorker)]
  {
  }

  /**
   * And there it is taken up: when the run that kept the worker busy has ended, a drain
   * hands the refused one off, unless an older run is eligible or its task is at work.
   */
  lemma RefusedThenHandedOff(s: State, r: nat, q: nat, world: World, ending: Ending)
    requires Dispatch(s, r, world).1 == CapacityFull && s.runs[r].adapter == "agy" && OnePerWorker(s)
    requires q < |s.runs| && q != r && s.runs[q].worker == s.runs[r].worker && s.runs[q].status == RunRunning
    requires s.runs[q].attempt != s.runs[r].attempt
    requires forall i | 0 <= i < |s.runs| && i != r && i != q && s.runs[i].task == s.runs[r].task ::
               s.runs[i].status != RunRunning
    ensures var freed := Finish(Dispatch(s, r, world).0, q, ending);
            && Eligible(freed, s.runs[r].worker, r)
            && (Select(freed, s.runs[r].worker, 0) == Some(r) && CanHandOff(s, r, world) ==>
                  Drain(freed, s.runs[r].worker, world).1 == HandedOff(r))
  {
    var freed := Finish(Dispatch(s, r, world).0, q, ending);
    CapacityRefusalLeaves(s, r, world);
    assert freed.runs[r] == s.runs[r].(status := RunQueued);
    assert forall i | 0 <= i < |s.runs| && i != r && i != q :: freed.runs[i] == s.runs[i];
    assert freed.runs[q].status != RunRunning;
    assert !WorkerBusy(freed, s.runs[r].worker);
  }

  /** A drain of a busy worker does nothing. */
  lemma BusyDrainIdle(s: State, wid: Id, world: World, i: nat)
    requires i < |s.runs| && s.runs[i].worker == wid && s.runs[i].status == RunRunning
    ensures Drain(s, wid, world) == (s, CapacityFull)
  {
  }

  /** A dispatch that the configuration refuses, or for which there is no worktree, changes nothing. */
  lemma RefusedDispatchIdle(s: State, r: nat, world: World)
    requires Dispatch(s, r, world).1 in {NotFound, Unsupported, Disabled, WorktreeFails}
    ensures Dispatch(s, r, world).0 == s
  {
  }

  // ------------------------------------------------------------------------- recovery

  /** Recovery fails a running run, and its attempt unless that is past its execution. */
  lemma RecoverLeaves(s: State, r: nat)
    requires r < |s.runs|
    ensures s.runs[r].status != RunRunning ==> Recover(s, r) == s
    ensures s.runs[r].status == RunRunning ==>
              var s', aid := Recover(s, r), s.runs[r].attempt;
              && s'.runs == s.runs[r := s.runs[r].(status := RunFailed)]
              && s'.attempts.Keys == s.attempts.Keys
              && (forall a :: a in s.attempts && a != aid ==> s'.attempts[a] == s.attempts[a])
              && (aid in s.attempts ==>
                    s'.attempts[aid] ==
                    if s.attempts[aid].status in
                         {Created, QueuedWorker, PreparingWorktree, RunningWorker, WaitingForCommit, RetryRequested}
                    then s.attempts[aid].(status := WorkerFailed) else s.attempts[aid])
  {
  }
}
