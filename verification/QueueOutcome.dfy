/** What the background loop leaves behind: every run, every attempt. */
module QueueOutcome {
  import opened Common
  import opened Statuses
  import opened WorkerQueue
  import opened QueueLoop

  /** How a run and its attempt stand once an execution is over. */
  function EndedRun(ending: Ending): RunStatus {
    if ending.RunFails? then RunFailed else RunSucceeded
  }

  function EndedAttempt(ending: Ending): AttemptStatus {
    match ending
    case ResultCommitted => Committed
    case NothingChanged => RunningWorker
    case RunFails => WorkerFailed
  }

  /** The mock run the last drain of the loop finishes: every older first run has been executed. */
  predicate MockReached(s: State, wid: Id, world: World, i: nat) {
    && FirstOfAttempt(s, wid, i) && s.runs[i].adapter == "mock"
    && forall j: nat | j < i && FirstOfAttempt(s, wid, j) :: CanHandOff(s, j, world)
  }

  lemma MockAfterRound(s: State, next: State, wid: Id, world: World, k: nat, i: nat)
    requires RoundOf(s, next, wid, k) && CanHandOff(s, k, world)
    ensures MockReached(s, wid, world, i) <==> MockReached(next, wid, world, i)
  {
    SelectedIsFirst(s, wid);
    forall j: nat | j <= i ensures FirstOfAttempt(s, wid, j) <==> j == k || FirstOfAttempt(next, wid, j) {
      FirstAfterRound(s, next, wid, k, j);
    }
    if MockReached(s, wid, world, i) {
      forall j: nat | j < i && FirstOfAttempt(next, wid, j) ensures CanHandOff(next, j, world) {
      }
    }
    if MockReached(next, wid, world, i) {
      forall j: nat | j < i && FirstOfAttempt(s, wid, j) ensures CanHandOff(s, j, world) {
      }
    }
  }

  /** One round, in the fields: run `k` and its attempt end, and nothing else changes. */
  lemma RoundLeaves(s: State, wid: Id, k: nat, ending: Ending)
    requires Eligible(s, wid, k)
    ensures var next, aid := Finish(HandOff(s, k), k, ending), s.runs[k].attempt;
            && next.runs == s.runs[k := s.runs[k].(status := EndedRun(ending))]
            && next.attempts == s.attempts[aid := s.attempts[aid].(status := EndedAttempt(ending))]
  {
  }

  /** How the loop leaves run `i` of the queue it found. */
  function RunLeft(s: State, wid: Id, world: World, ends: Endings, i: nat): RunStatus
    requires i < |s.runs|
  {
    if Reached(s, wid, world, i) then EndedRun(ends(i))
    else if MockReached(s, wid, world, i) then RunSucceeded
    else s.runs[i].status
  }

  /** The selected run can be handed off, and then one round and the rest are the whole. */
  predicate FirstRound(s: State, next: State, wid: Id, world: World, ends: Endings, k: nat) {
    && RoundOf(s, next, wid, k) && CanHandOff(s, k, world)
    && next.runs == s.runs[k := s.runs[k].(status := EndedRun(ends(k)))]
    && s.runs[k].attempt in s.attempts
    && next.attempts == s.attempts[s.runs[k].attempt :=
                                     s.attempts[s.runs[k].attempt].(status := EndedAttempt(ends(k)))]
    && CountWaiting(next.runs, wid) < CountWaiting(s.runs, wid)
    && Continue(s, wid, world, ends).0 == Continue(next, wid, world, ends).0
  }

  lemma RoundIsFirst(s: State, wid: Id, world: World, ends: Endings, k: nat)
    requires !WorkerBusy(s, wid) && Select(s, wid, 0) == Some(k) && CanHandOff(s, k, world)
    ensures FirstRound(s, Finish(HandOff(s, k), k, ends(k)), wid, world, ends, k)
  {
    RoundIsRound(s, wid, k, ends(k));
    RoundLeaves(s, wid, k, ends(k));
    OneRound(s, wid, world, ends, k);
  }

  /** No run of the attempt is left to execute. */
  lemma NoneOfAttempt(s: State, next: State, wid: Id, world: World, ends: Endings, k: nat, i: nat)
    requires FirstRound(s, next, wid, world, ends, k)
    requires Reached(next, wid, world, i) || MockReached(next, wid, world, i)
    ensures next.runs[i].attempt != s.runs[k].attempt && i != k
  {
    assert Eligible(next, wid, i);
  }

  lemma RunLeftAfterRound(s: State, next: State, wid: Id, world: World, ends: Endings, k: nat, i: nat)
    requires FirstRound(s, next, wid, world, ends, k) && i < |s.runs|
    ensures RunLeft(next, wid, world, ends, i) == RunLeft(s, wid, world, ends, i)
  {
    ReachedAfterRound(s, next, wid, world, k, i);
    MockAfterRound(s, next, wid, world, k, i);
    if Reached(next, wid, world, i) || MockReached(next, wid, world, i) {
      NoneOfAttempt(s, next, wid, world, ends, k, i);
    }
  }

  /** When the selected run cannot be handed off, none is, and only a mock run is done. */
  lemma StuckLeaves(s: State, wid: Id, world: World, k: nat, i: nat)
    requires Select(s, wid, 0) == Some(k) && !CanHandOff(s, k, world)
    ensures !Reached(s, wid, world, i)
    ensures MockReached(s, wid, world, i) <==> i == k && s.runs[k].adapter == "mock"
  {
    SelectedIsFirst(s, wid);
  }

  /** Every run: by its ending if executed, done if it is the mock run, and as it was otherwise. */
  lemma {:induction false} RunsLeft(s: State, wid: Id, world: World, ends: Endings, i: nat)
    requires !WorkerBusy(s, wid) && i < |s.runs|
    ensures var last := Continue(s, wid, world, ends).0;
            |last.runs| == |s.runs| && last.runs[i] == s.runs[i].(status := RunLeft(s, wid, world, ends, i))
    decreases CountWaiting(s.runs, wid)
  {
    if Select(s, wid, 0).Some? {
      var k := Select(s, wid, 0).value;
      if CanHandOff(s, k, world) {
        var next := Finish(HandOff(s, k), k, ends(k));
        RoundIsFirst(s, wid, world, ends, k);
        RunsLeft(next, wid, world, ends, i);
        RunLeftAfterRound(s, next, wid, world, ends, k, i);
      } else {
        NoRound(s, wid, world, ends, k);
        StuckLeaves(s, wid, world, k, i);
      }
    }
  }

  /** An attempt none of whose runs is executed or done by mock keeps its status. */
  predicate LeftOut(s: State, wid: Id, world: World, aid: Id) {
    forall i: nat | i < |s.runs| && (Reached(s, wid, world, i) || MockReached(s, wid, world, i)) ::
      s.runs[i].attempt != aid
  }

  lemma LeftOutAfterRound(s: State, next: State, wid: Id, world: World, ends: Endings, k: nat, aid: Id)
    requires FirstRound(s, next, wid, world, ends, k) && (LeftOut(s, wid, world, aid) || aid == s.runs[k].attempt)
    ensures LeftOut(next, wid, world, aid)
    ensures LeftOut(s, wid, world, aid) ==> aid != s.runs[k].attempt
  {
    SelectedIsFirst(s, wid);
    ReachedAfterRound(s, next, wid, world, k, k);
    forall i: nat | i < |next.runs| && (Reached(next, wid, world, i) || MockReached(next, wid, world, i))
      ensures next.runs[i].attempt != aid
    {
      NoneOfAttempt(s, next, wid, world, ends, k, i);
      ReachedAfterRound(s, next, wid, world, k, i);
      MockAfterRound(s, next, wid, world, k, i);
    }
  }

  lemma {:induction false} OtherAttemptsStay(s: State, wid: Id, world: World, ends: Endings, aid: Id)
    requires !WorkerBusy(s, wid) && LeftOut(s, wid, world, aid)
    ensures var last := Continue(s, wid, world, ends).0;
            (aid in last.attempts <==> aid in s.attempts)
            && (aid in s.attempts ==> last.attempts[aid] == s.attempts[aid])
    decreases CountWaiting(s.runs, wid)
  {
    if Select(s, wid, 0).Some? {
      var k := Select(s, wid, 0).value;
      if CanHandOff(s, k, world) {
        var next := Finish(HandOff(s, k), k, ends(k));
        RoundIsFirst(s, wid, world, ends, k);
        LeftOutAfterRound(s, next, wid, world, ends, k, aid);
        OtherAttemptsStay(next, wid, world, ends, aid);
      } else {
        NoRound(s, wid, world, ends, k);
        StuckLeaves(s, wid, world, k, k);
      }
    }
  }

  /** The attempt of an executed run stands as its execution ended, that of the mock run is accepted. */
  lemma {:induction false} AttemptsLeft(s: State, wid: Id, world: World, ends: Endings, i: nat)
    requires !WorkerBusy(s, wid) && (Reached(s, wid, world, i) || MockReached(s, wid, world, i))
    ensures var last, aid := Continue(s, wid, world, ends).0, s.runs[i].attempt;
            aid in last.attempts
            && last.attempts[aid].status == if Reached(s, wid, world, i) then EndedAttempt(ends(i)) else Accepted
    decreases CountWaiting(s.runs, wid)
  {
    var k := Select(s, wid, 0).value;
    if CanHandOff(s, k, world) {
      var next := Finish(HandOff(s, k), k, ends(k));
      RoundIsFirst(s, wid, world, ends, k);
      ReachedAfterRound(s, next, wid, world, k, i);
      MockAfterRound(s, next, wid, world, k, i);
      if i == k {
        LeftOutAfterRound(s, next, wid, world, ends, k, s.runs[k].attempt);
        OtherAttemptsStay(next, wid, world, ends, s.runs[k].attempt);
      } else {
        AttemptsLeft(next, wid, world, ends, i);
      }
    } else {
      NoRound(s, wid, world, ends, k);
      StuckLeaves(s, wid, world, k, i);
    }
  }

  // -------------------------------------------------------------------- the whole loop

  /** The worker runs `r` alone, and its attempt is running with it. */
  predicate Executing(s: State, r: nat) {
    && r < |s.runs| && s.runs[r].status == RunRunning && OnePerWorker(s)
    && s.runs[r].attempt in s.attempts && s.attempts[s.runs[r].attempt].status == RunningWorker
  }

  lemma FirstEnds(s: State, r: nat, ending: Ending)
    requires Executing(s, r)
    ensures var free, aid := Finish(s, r, ending), s.runs[r].attempt;
            && !WorkerBusy(free, s.runs[r].worker)
            && free.runs == s.runs[r := s.runs[r].(status := EndedRun(ending))]
            && free.attempts == s.attempts[aid := s.attempts[aid].(status := EndedAttempt(ending))]
            && forall i: nat | Eligible(free, s.runs[r].worker, i) :: free.runs[i].attempt != aid && i != r
  {
    FreeAfterFinish(s, r, ending);
  }

  /**
   * Every executed run ends as its execution did, succeeded or failed, and its attempt with
   * it: committed, worker-failed, or still running when nothing was changed.
   */
  lemma ExecutedLeft(s: State, r: nat, world: World, ends: Endings, k: nat)
    requires Executing(s, r) && k in Loop(s, r, world, ends).1
    ensures var last := Loop(s, r, world, ends).0;
            && k < |s.runs| == |last.runs| && s.runs[k].attempt in last.attempts
            && last.runs[k] == s.runs[k].(status := EndedRun(ends(k)))
            && last.attempts[s.runs[k].attempt].status == EndedAttempt(ends(k))
  {
    var free, wid, aid := Finish(s, r, ends(r)), s.runs[r].worker, s.runs[r].attempt;
    FirstEnds(s, r, ends(r));
    ExecutesExactly(free, wid, world, ends, k);
    ExecutesExactly(free, wid, world, ends, r);
    if k == r {
      RunsLeft(free, wid, world, ends, r);
      OtherAttemptsStay(free, wid, world, ends, aid);
    } else {
      RunsLeft(free, wid, world, ends, k);
      AttemptsLeft(free, wid, world, ends, k);
    }
  }

  /** The mock run that ends the loop, which is not executed by it: at most one, done and its attempt accepted. */
  predicate DoneByMock(s: State, r: nat, world: World, ends: Endings, k: nat)
    requires r < |s.runs|
  {
    MockReached(Finish(s, r, ends(r)), s.runs[r].worker, world, k)
  }

  /** Every other run is as it was, but for that one. */
  lemma OtherRunsLeft(s: State, r: nat, world: World, ends: Endings, k: nat)
    requires Executing(s, r) && k < |s.runs| && k !in Loop(s, r, world, ends).1
    ensures var last := Loop(s, r, world, ends).0;
            && |last.runs| == |s.runs|
            && (if DoneByMock(s, r, world, ends, k) then last.runs[k] == s.runs[k].(status := RunSucceeded)
                else last.runs[k] == s.runs[k])
    ensures DoneByMock(s, r, world, ends, k) ==>
              && s.runs[k].adapter == "mock" && Waiting(s.runs[k].status)
              && s.runs[k].attempt in Loop(s, r, world, ends).0.attempts
              && Loop(s, r, world, ends).0.attempts[s.runs[k].attempt].status == Accepted
  {
    var free, wid := Finish(s, r, ends(r)), s.runs[r].worker;
    FirstEnds(s, r, ends(r));
    ExecutesExactly(free, wid, world, ends, k);
    RunsLeft(free, wid, world, ends, k);
    if DoneByMock(s, r, world, ends, k) {
      AttemptsLeft(free, wid, world, ends, k);
    }
  }

  lemma OneMockRun(s: State, r: nat, world: World, ends: Endings, j: nat, k: nat)
    requires r < |s.runs| && DoneByMock(s, r, world, ends, j) && DoneByMock(s, r, world, ends, k)
    ensures j == k
  {
  }

  /** Attempts of no executed run keep their row, save that of the mock run. */
  lemma OtherAttemptsLeft(s: State, r: nat, world: World, ends: Endings, aid: Id)
    requires Executing(s, r)
    requires forall k | k in Loop(s, r, world, ends).1 && k < |s.runs| :: s.runs[k].attempt != aid
    requires forall k: nat | k < |s.runs| && DoneByMock(s, r, world, ends, k) :: s.runs[k].attempt != aid
    ensures var last := Loop(s, r, world, ends).0;
            (aid in last.attempts <==> aid in s.attempts)
            && (aid in s.attempts ==> last.attempts[aid] == s.attempts[aid])
  {
    var free, wid := Finish(s, r, ends(r)), s.runs[r].worker;
    FirstEnds(s, r, ends(r));
    assert r in Loop(s, r, world, ends).1;
    forall i: nat | i < |free.runs| && (Reached(free, wid, world, i) || MockReached(free, wid, world, i))
      ensures free.runs[i].attempt != aid
    {
      ExecutesExactly(free, wid, world, ends, i);
      if Reached(free, wid, world, i) {
        assert i in Loop(s, r, world, ends).1;
      }
    }
    OtherAttemptsStay(free, wid, world, ends, aid);
  }
}
