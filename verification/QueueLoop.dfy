/**
 * The background loop (`background_agy_runner`): execute a run, then drain the
 * worker's queue, until a drain hands nothing off. Nothing else enqueues meanwhile.
 */
module QueueLoop {
  import opened Common
  import opened Statuses
  import opened WorkerQueue

  /** How each execution, named by its run, ends. */
  type Endings = nat -> Ending

  function CountWaiting(runs: seq<Run>, wid: Id): nat {
    if runs == [] then 0
    else CountWaiting(runs[..|runs| - 1], wid)
         + if runs[|runs| - 1].worker == wid && Waiting(runs[|runs| - 1].status) then 1 else 0
  }

  lemma {:induction false} CountAfterUpdate(runs: seq<Run>, wid: Id, r: nat, status: RunStatus)
    requires r < |runs| && runs[r].worker == wid && !Waiting(status)
    ensures var later := runs[r := runs[r].(status := status)];
            CountWaiting(later, wid) == CountWaiting(runs, wid) - if Waiting(runs[r].status) then 1 else 0
  {
    var later := runs[r := runs[r].(status := status)];
    var init := runs[..|runs| - 1];
    if r == |runs| - 1 {
      assert later[..|later| - 1] == init;
    } else {
      CountAfterUpdate(init, wid, r, status);
      assert later[..|later| - 1] == init[r := init[r].(status := status)];
    }
  }

  lemma DrainHandsOff(s: State, wid: Id, world: World)
    requires Drain(s, wid, world).1.HandedOff?
    ensures var k := Drain(s, wid, world).1.run;
            && Select(s, wid, 0) == Some(k) && !WorkerBusy(s, wid) && Eligible(s, wid, k)
            && Drain(s, wid, world).0 == HandOff(s, k)
            && s.runs[k].adapter == "agy" && world.gateOpen && s.runs[k].attempt in world.worktreeOk
  {
  }

  /** Each round takes one waiting run of the worker out of the queue. */
  lemma RoundShrinksQueue(s: State, wid: Id, k: nat, ending: Ending)
    requires Eligible(s, wid, k)
    ensures CountWaiting(Finish(HandOff(s, k), k, ending).runs, wid) < CountWaiting(s.runs, wid)
  {
    var handed := HandOff(s, k);
    CountAfterUpdate(s.runs, wid, k, RunRunning);
    var over := if ending == RunFails then RunFailed else RunSucceeded;
    assert Finish(handed, k, ending).runs == handed.runs[k := handed.runs[k].(status := over)];
    CountAfterUpdate(handed.runs, wid, k, over);
  }

  /** From the drain on: what is executed, and the state when the loop ends. */
  function Continue(s: State, wid: Id, world: World, ends: Endings): (State, seq<nat>)
    decreases CountWaiting(s.runs, wid)
  {
    var (drained, reply) := Drain(s, wid, world);
    if reply.HandedOff? then
      DrainHandsOff(s, wid, world);
      RoundShrinksQueue(s, wid, reply.run, ends(reply.run));
      var (last, executed) := Continue(Finish(drained, reply.run, ends(reply.run)), wid, world, ends);
      (last, [reply.run] + executed)
    else (drained, [])
  }

  /** The whole loop, from the execution of run `r`. */
  function Loop(s: State, r: nat, world: World, ends: Endings): (State, seq<nat>)
    requires r < |s.runs|
  {
    var (last, executed) := Continue(Finish(s, r, ends(r)), s.runs[r].worker, world, ends);
    (last, [r] + executed)
  }

  // ------------------------------------------------------------- what a round does

  /** A round takes the runs of one attempt out of the eligible ones and adds none. */
  lemma EligibleAfterRound(s: State, wid: Id, k: nat, ending: Ending, i: nat)
    requires !WorkerBusy(s, wid) && Eligible(s, wid, k) && i < |s.runs|
    ensures var next := Finish(HandOff(s, k), k, ending);
            Eligible(next, wid, i) <==> Eligible(s, wid, i) && s.runs[i].attempt != s.runs[k].attempt
  {
    var next := Finish(HandOff(s, k), k, ending);
    assert forall j | 0 <= j < |s.runs| && j != k :: next.runs[j] == s.runs[j];
    assert next.runs[k].status != RunRunning && s.runs[k].status != RunRunning;
    if TaskRunning(s, i) {
      var j :| 0 <= j < |s.runs| && j != i && s.runs[j].task == s.runs[i].task && s.runs[j].status == RunRunning;
      assert next.runs[j] == s.runs[j];
    }
    if TaskRunning(next, i) {
      var j :| 0 <= j < |s.runs| && j != i && next.runs[j].task == next.runs[i].task
               && next.runs[j].status == RunRunning;
      assert next.runs[j] == s.runs[j];
    }
  }

  lemma IdleAfterRound(s: State, wid: Id, k: nat, ending: Ending)
    requires !WorkerBusy(s, wid) && Eligible(s, wid, k)
    ensures !WorkerBusy(Finish(HandOff(s, k), k, ending), wid)
    ensures |Finish(HandOff(s, k), k, ending).runs| == |s.runs|
    ensures forall i | 0 <= i < |s.runs| :: var next := Finish(HandOff(s, k), k, ending);
              next.runs[i].attempt == s.runs[i].attempt && next.runs[i].adapter == s.runs[i].adapter
  {
  }

  /** What the state after a round of run `k` has in common with the one before. */
  predicate RoundOf(s: State, next: State, wid: Id, k: nat) {
    && Select(s, wid, 0) == Some(k) && |next.runs| == |s.runs| && !WorkerBusy(next, wid)
    && (forall j: nat | j < |s.runs| ::
          next.runs[j].attempt == s.runs[j].attempt && next.runs[j].adapter == s.runs[j].adapter)
    && forall j: nat | j < |s.runs| ::
         Eligible(next, wid, j) <==> Eligible(s, wid, j) && s.runs[j].attempt != s.runs[k].attempt
  }

  lemma RoundIsRound(s: State, wid: Id, k: nat, ending: Ending)
    requires !WorkerBusy(s, wid) && Select(s, wid, 0) == Some(k)
    ensures RoundOf(s, Finish(HandOff(s, k), k, ending), wid, k)
  {
    IdleAfterRound(s, wid, k, ending);
    forall j: nat | j < |s.runs|
      ensures var next := Finish(HandOff(s, k), k, ending);
              Eligible(next, wid, j) <==> Eligible(s, wid, j) && s.runs[j].attempt != s.runs[k].attempt
    {
      EligibleAfterRound(s, wid, k, ending, j);
    }
  }

  predicate Increasing(xs: seq<nat>) {
    forall i, j | 0 <= i < j < |xs| :: xs[i] < xs[j]
  }

  /** Eligible runs, oldest first, no two of one attempt. */
  predicate InTurn(s: State, wid: Id, xs: seq<nat>) {
    && Increasing(xs)
    && (forall i | 0 <= i < |xs| :: Eligible(s, wid, xs[i]))
    && (forall i, j | 0 <= i < j < |xs| :: s.runs[xs[i]].attempt != s.runs[xs[j]].attempt)
  }

  lemma RoundThenRest(s: State, next: State, wid: Id, k: nat, rest: seq<nat>)
    requires RoundOf(s, next, wid, k) && InTurn(next, wid, rest)
    ensures InTurn(s, wid, [k] + rest)
  {
    var xs := [k] + rest;
    forall i | 0 < i < |xs|
      ensures xs[i] == rest[i - 1] && Eligible(s, wid, xs[i]) && k < xs[i] && s.runs[xs[i]].attempt != s.runs[k].attempt
      ensures next.runs[xs[i]].attempt == s.runs[xs[i]].attempt
    {
      assert Eligible(next, wid, rest[i - 1]);
    }
  }

  /**
   * Whatever the world allows: the loop runs eligible runs of the queue it found,
   * oldest first, no two of one attempt, and no more than were waiting.
   */
  lemma {:induction false} RunsOldestFirst(s: State, wid: Id, world: World, ends: Endings)
    ensures InTurn(s, wid, Continue(s, wid, world, ends).1)
    ensures |Continue(s, wid, world, ends).1| <= CountWaiting(s.runs, wid)
    decreases CountWaiting(s.runs, wid)
  {
    var (drained, reply) := Drain(s, wid, world);
    if reply.HandedOff? {
      var k := reply.run;
      DrainHandsOff(s, wid, world);
      RoundShrinksQueue(s, wid, k, ends(k));
      RoundIsRound(s, wid, k, ends(k));
      var next := Finish(HandOff(s, k), k, ends(k));
      RunsOldestFirst(next, wid, world, ends);
      RoundThenRest(s, next, wid, k, Continue(next, wid, world, ends).1);
    }
  }

  // ----------------------------------------------------------------- when it ends

  /** The drain can hand this run off. */
  predicate CanHandOff(s: State, r: nat, world: World)
    requires r < |s.runs|
  {
    s.runs[r].adapter == "agy" && world.gateOpen && s.runs[r].attempt in world.worktreeOk
  }

  /** The state the last drain of the loop looked at. */
  function LastLook(s: State, wid: Id, world: World, ends: Endings): State
    decreases CountWaiting(s.runs, wid)
  {
    var (drained, reply) := Drain(s, wid, world);
    if reply.HandedOff? then
      DrainHandsOff(s, wid, world);
      RoundShrinksQueue(s, wid, reply.run, ends(reply.run));
      LastLook(Finish(drained, reply.run, ends(reply.run)), wid, world, ends)
    else s
  }

  /**
   * The loop stops for one of three reasons only: the worker is busy with another
   * run, no eligible run is left, or the oldest eligible one cannot be handed off.
   */
  lemma {:induction false} StopsOnlyWhenStuck(s: State, wid: Id, world: World, ends: Endings)
    ensures var last := LastLook(s, wid, world, ends);
            && Continue(s, wid, world, ends).0 == Drain(last, wid, world).0
            && (|| WorkerBusy(last, wid)
                || (forall i :: !Eligible(last, wid, i))
                || (Select(last, wid, 0).Some? && !CanHandOff(last, Select(last, wid, 0).value, world)))
    decreases CountWaiting(s.runs, wid)
  {
    var (drained, reply) := Drain(s, wid, world);
    if reply.HandedOff? {
      DrainHandsOff(s, wid, world);
      RoundShrinksQueue(s, wid, reply.run, ends(reply.run));
      StopsOnlyWhenStuck(Finish(drained, reply.run, ends(reply.run)), wid, world, ends);
    } else if !WorkerBusy(s, wid) && Select(s, wid, 0).Some? {
      var k := Select(s, wid, 0).value;
      assert !OtherRunning(s, k);
    }
  }

  /** The first eligible run of its attempt. */
  predicate FirstOfAttempt(s: State, wid: Id, i: nat) {
    Eligible(s, wid, i) && forall j | 0 <= j < i && Eligible(s, wid, j) :: s.runs[j].attempt != s.runs[i].attempt
  }

  /** Run `i` and every older first run of an attempt can be handed off. */
  predicate Reached(s: State, wid: Id, world: World, i: nat) {
    FirstOfAttempt(s, wid, i) && forall j: nat | j <= i && FirstOfAttempt(s, wid, j) :: CanHandOff(s, j, world)
  }

  lemma FirstAfterRound(s: State, next: State, wid: Id, k: nat, i: nat)
    requires Select(s, wid, 0) == Some(k) && |next.runs| == |s.runs|
    requires forall j | 0 <= j < |s.runs| :: next.runs[j].attempt == s.runs[j].attempt
    requires forall j: nat | j < |s.runs| ::
               Eligible(next, wid, j) <==> Eligible(s, wid, j) && s.runs[j].attempt != s.runs[k].attempt
    ensures FirstOfAttempt(s, wid, i) <==> i == k || FirstOfAttempt(next, wid, i)
  {
  }

  lemma SelectedIsFirst(s: State, wid: Id)
    requires Select(s, wid, 0).Some?
    ensures var k := Select(s, wid, 0).value;
            FirstOfAttempt(s, wid, k) && forall i: nat | FirstOfAttempt(s, wid, i) :: k <= i
  {
  }

  /** Some older eligible run of the same attempt is the first. */
  lemma {:induction false} AttemptHasFirst(s: State, wid: Id, i: nat) returns (j: nat)
    requires Eligible(s, wid, i)
    ensures j <= i && FirstOfAttempt(s, wid, j) && s.runs[j].attempt == s.runs[i].attempt
  {
    if FirstOfAttempt(s, wid, i) {
      j := i;
    } else {
      var m :| 0 <= m < i && Eligible(s, wid, m) && s.runs[m].attempt == s.runs[i].attempt;
      j := AttemptHasFirst(s, wid, m);
    }
  }

  /** One unfolding of the loop. */
  lemma OneRound(s: State, wid: Id, world: World, ends: Endings, k: nat)
    requires !WorkerBusy(s, wid) && Select(s, wid, 0) == Some(k) && CanHandOff(s, k, world)
    ensures var next := Finish(HandOff(s, k), k, ends(k));
            && CountWaiting(next.runs, wid) < CountWaiting(s.runs, wid)
            && Continue(s, wid, world, ends).0 == Continue(next, wid, world, ends).0
            && Continue(s, wid, world, ends).1 == [k] + Continue(next, wid, world, ends).1
  {
    assert !OtherRunning(s, k);
    assert Drain(s, wid, world) == (HandOff(s, k), HandedOff(k));
    RoundShrinksQueue(s, wid, k, ends(k));
  }

  /** The loop ends at once when the oldest eligible run cannot be handed off. */
  lemma NoRound(s: State, wid: Id, world: World, ends: Endings, k: nat)
    requires !WorkerBusy(s, wid) && Select(s, wid, 0) == Some(k) && !CanHandOff(s, k, world)
    ensures Continue(s, wid, world, ends).1 == []
    ensures Continue(s, wid, world, ends).0 ==
            if s.runs[k].adapter != "mock" then s
            else SetAttempt(SetRun(s, k, RunSucceeded), s.runs[k].attempt, Accepted)
  {
    assert !OtherRunning(s, k);
  }

  lemma ReachedAfterRound(s: State, next: State, wid: Id, world: World, k: nat, i: nat)
    requires RoundOf(s, next, wid, k) && CanHandOff(s, k, world)
    ensures Reached(s, wid, world, i) <==> i == k || Reached(next, wid, world, i)
  {
    SelectedIsFirst(s, wid);
    FirstAfterRound(s, next, wid, k, i);
    forall j: nat | j <= i ensures FirstOfAttempt(s, wid, j) <==> j == k || FirstOfAttempt(next, wid, j) {
      FirstAfterRound(s, next, wid, k, j);
    }
    if Reached(next, wid, world, i) {
      forall j: nat | j <= i && FirstOfAttempt(s, wid, j) ensures CanHandOff(s, j, world) {
      }
    }
    if Reached(s, wid, world, i) && i != k {
      forall j: nat | j <= i && FirstOfAttempt(next, wid, j) ensures CanHandOff(next, j, world) {
      }
    }
  }

  /**
   * The loop executes, besides the run it starts with, exactly the first eligible run
   * of each attempt up to the first of them that cannot be handed off.
   */
  lemma {:induction false} ExecutesExactly(s: State, wid: Id, world: World, ends: Endings, i: nat)
    requires !WorkerBusy(s, wid)
    ensures i in Continue(s, wid, world, ends).1 <==> Reached(s, wid, world, i)
    decreases CountWaiting(s.runs, wid)
  {
    if Select(s, wid, 0).Some? {
      var k := Select(s, wid, 0).value;
      SelectedIsFirst(s, wid);
      if CanHandOff(s, k, world) {
        var next := Finish(HandOff(s, k), k, ends(k));
        RoundIsRound(s, wid, k, ends(k));
        OneRound(s, wid, world, ends, k);
        ExecutesExactly(next, wid, world, ends, i);
        ReachedAfterRound(s, next, wid, world, k, i);
      } else {
        NoRound(s, wid, world, ends, k);
      }
    }
  }

  /** The first run of an attempt can be handed off, or is a mock run and the last of the first runs. */
  ghost predicate Passable(s: State, wid: Id, world: World, i: nat)
    requires i < |s.runs|
  {
    || CanHandOff(s, i, world)
    || (s.runs[i].adapter == "mock" && forall j: nat | FirstOfAttempt(s, wid, j) :: j <= i)
  }

  ghost predicate AllPassable(s: State, wid: Id, world: World) {
    forall i: nat | FirstOfAttempt(s, wid, i) :: Passable(s, wid, world, i)
  }

  ghost predicate NoneLeft(s: State, wid: Id) {
    forall i: nat :: !Eligible(s, wid, i)
  }

  lemma PassableAfterRound(s: State, next: State, wid: Id, world: World, k: nat)
    requires RoundOf(s, next, wid, k) && CanHandOff(s, k, world)
    ensures AllPassable(s, wid, world) <==> AllPassable(next, wid, world)
  {
    SelectedIsFirst(s, wid);
    forall i: nat ensures FirstOfAttempt(s, wid, i) <==> i == k || FirstOfAttempt(next, wid, i) {
      FirstAfterRound(s, next, wid, k, i);
    }
    if AllPassable(s, wid, world) {
      forall i: nat | FirstOfAttempt(next, wid, i) ensures Passable(next, wid, world, i) {
        assert Passable(s, wid, world, i);
      }
    }
    if AllPassable(next, wid, world) {
      forall i: nat | FirstOfAttempt(s, wid, i) ensures Passable(s, wid, world, i) {
        assert i != k ==> Passable(next, wid, world, i);
      }
    }
  }

  /** A mock run at the head leaves exactly the eligible runs of other attempts. */
  lemma MockLeaves(s: State, wid: Id, k: nat, i: nat)
    requires !WorkerBusy(s, wid) && Select(s, wid, 0) == Some(k)
    ensures var last := SetAttempt(SetRun(s, k, RunSucceeded), s.runs[k].attempt, Accepted);
            Eligible(last, wid, i) <==> Eligible(s, wid, i) && s.runs[i].attempt != s.runs[k].attempt
  {
    var last := SetAttempt(SetRun(s, k, RunSucceeded), s.runs[k].attempt, Accepted);
    if i < |s.runs| {
      if TaskRunning(s, i) {
        var j :| 0 <= j < |s.runs| && j != i && s.runs[j].task == s.runs[i].task && s.runs[j].status == RunRunning;
        assert last.runs[j] == s.runs[j];
      }
    }
  }

  lemma StuckHead(s: State, wid: Id, world: World, ends: Endings, k: nat)
    requires !WorkerBusy(s, wid) && Select(s, wid, 0) == Some(k) && !CanHandOff(s, k, world)
    ensures NoneLeft(Continue(s, wid, world, ends).0, wid) <==> AllPassable(s, wid, world)
  {
    var last := Continue(s, wid, world, ends).0;
    SelectedIsFirst(s, wid);
    NoRound(s, wid, world, ends, k);
    if s.runs[k].adapter == "mock" {
      forall i: nat ensures Eligible(last, wid, i) <==> Eligible(s, wid, i) && s.runs[i].attempt != s.runs[k].attempt {
        MockLeaves(s, wid, k, i);
      }
      if AllPassable(s, wid, world) {
        assert Passable(s, wid, world, k);
        forall i: nat | Eligible(s, wid, i) ensures s.runs[i].attempt == s.runs[k].attempt {
          var j := AttemptHasFirst(s, wid, i);
        }
      }
    } else {
      assert Eligible(last, wid, k) && !Passable(s, wid, world, k);
    }
  }

  /**
   * The loop leaves no eligible run of its worker behind exactly when the first
   * eligible run of every attempt can be handed off, but for a mock run as the last.
   */
  lemma {:induction false} EmptiesQueue(s: State, wid: Id, world: World, ends: Endings)
    requires !WorkerBusy(s, wid)
    ensures NoneLeft(Continue(s, wid, world, ends).0, wid) <==> AllPassable(s, wid, world)
    decreases CountWaiting(s.runs, wid)
  {
    if Select(s, wid, 0).Some? {
      var k := Select(s, wid, 0).value;
      if CanHandOff(s, k, world) {
        RoundIsRound(s, wid, k, ends(k));
        OneRound(s, wid, world, ends, k);
        var next := Finish(HandOff(s, k), k, ends(k));
        EmptiesQueue(next, wid, world, ends);
        PassableAfterRound(s, next, wid, world, k);
      } else {
        StuckHead(s, wid, world, ends, k);
      }
    }
  }

  /** When every first run can be handed off, the loop executes exactly these. */
  lemma ExecutesAllFirst(s: State, wid: Id, world: World, ends: Endings, i: nat)
    requires !WorkerBusy(s, wid) && forall j: nat | FirstOfAttempt(s, wid, j) :: CanHandOff(s, j, world)
    ensures i in Continue(s, wid, world, ends).1 <==> FirstOfAttempt(s, wid, i)
    ensures NoneLeft(Continue(s, wid, world, ends).0, wid)
  {
    ExecutesExactly(s, wid, world, ends, i);
    forall j: nat | FirstOfAttempt(s, wid, j) ensures Passable(s, wid, world, j) {
    }
    EmptiesQueue(s, wid, world, ends);
  }

  /** The worker is indeed free when the execution the loop starts with has ended. */
  lemma FreeAfterFinish(s: State, r: nat, ending: Ending)
    requires OnePerWorker(s) && r < |s.runs| && s.runs[r].status == RunRunning
    ensures !WorkerBusy(Finish(s, r, ending), s.runs[r].worker)
  {
  }

  /**
   * Without that the queue need not empty: a mock run at its head ends the loop,
   * and every eligible run of another attempt stays in the queue.
   */
  lemma MockEndsLoop(s: State, wid: Id, world: World, ends: Endings, k: nat, i: nat)
    requires !WorkerBusy(s, wid) && Select(s, wid, 0) == Some(k) && s.runs[k].adapter == "mock"
    requires Eligible(s, wid, i) && s.runs[i].attempt != s.runs[k].attempt
    ensures Continue(s, wid, world, ends).1 == [] && Eligible(Continue(s, wid, world, ends).0, wid, i)
  {
    assert !OtherRunning(s, k);
    var last := SetAttempt(SetRun(s, k, RunSucceeded), s.runs[k].attempt, Accepted);
    assert Drain(s, wid, world) == (last, MockDone);
    assert last.runs[i] == s.runs[i];
  }
}
