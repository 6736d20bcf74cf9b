/** The recovery loop and the scheduler tick as they change rows in place. */
module LivenessService {
  import opened Common
  import opened Statuses
  import opened Liveness

  class LivenessRunner {
    var runs: seq<Run>
    var attempts: map<Id, Attempt>

    ghost function Snapshot(): State
      reads this
    {
      State(runs, attempts)
    }

    constructor (runs: seq<Run>, attempts: map<Id, Attempt>)
      ensures Snapshot() == State(runs, attempts)
    {
      this.runs, this.attempts := runs, attempts;
    }

    /** One turn of the recovery loop: whether the run is recovered. */
    method RecoverOne(k: nat, now: int, timeout: int, f: Filter) returns (hit: bool)
      requires k < |runs|
      modifies this
      ensures hit == Hit(old(Snapshot()), k, now, timeout, f)
      ensures Snapshot() == VisitOne(old(Snapshot()), k, now, timeout, f)
    {
      var run := runs[k];
      if !Selected(run, f) || run.status != RunRunning { return false; }
      if run.leaseEnd.Some? {
        if run.leaseEnd.value > now { return false; }
      } else if LivenessAt(run) > now - timeout {
        return false;
      }
      runs := runs[k := run.(status := RunFailed, failedAt := Some(now))];
      if run.attempt in attempts && attempts[run.attempt].status in RECOVERABLE {
        attempts := attempts[run.attempt := Attempt(WorkerFailed, Some(now))];
      }
      return true;
    }

    /**
     * `recover_stale_worker_runs`: the places of the recovered runs, or an argument error.
     * `order` is the order of the query, by the times of the last updates; any other has the
     * same effect.
     */
    method RecoverStaleWorkerRuns(now: int, timeout: int, f: Filter, order: seq<nat>)
      returns (r: Result<seq<nat>, string>)
      requires VisitsAll(order, |runs|)
      modifies this
      ensures timeout <= 0 ==> r.Err? && Snapshot() == old(Snapshot())
      ensures timeout > 0 ==> r == Ok(HitsAlong(old(Snapshot()), order, now, timeout, f))
                              && Snapshot() == Recovered(old(Snapshot()), now, timeout, f)
    {
      if timeout <= 0 { return Err("timeout_seconds must be positive"); }
      var recovered: seq<nat> := [];
      ghost var s := Snapshot();
      for i := 0 to |order|
        invariant Snapshot() == VisitAll(s, order[..i], now, timeout, f)
        invariant recovered == HitsAlong(s, order[..i], now, timeout, f)
      {
        OneMoreVisit(s, order, i, now, timeout, f);
        var hit := RecoverOne(order[i], now, timeout, f);
        if hit { recovered := recovered + [order[i]]; }
      }
      assert order[..|order|] == order;
      VisitAllRecovers(s, order, now, timeout, f);
      return Ok(recovered);
    }

    /** The bulk update of a heartbeat over the worker's running runs. */
    method BeatRuns(worker: Id, now: int)
      modifies this`runs
      ensures Snapshot() == Beat(old(Snapshot()), worker, now)
    {
      for i := 0 to |runs|
        invariant |runs| == |old(runs)|
        invariant forall j | 0 <= j < i :: runs[j] == Beaten(old(runs)[j], worker, now)
        invariant forall j | i <= j < |runs| :: runs[j] == old(runs)[j]
      {
        if runs[i].worker == worker && runs[i].status == RunRunning {
          runs := runs[i := runs[i].(lastHeartbeat := Some(now), leaseEnd := Some(now + LEASE_TTL))];
        }
      }
    }

    /** `mark_worker_run_running_with_lease`. */
    method MarkRunningWithLease(k: nat, now: int, timeout: int)
      requires k < |runs|
      modifies this`runs
      ensures runs == old(runs)[k := MarkRunning(old(runs)[k], now, timeout)]
    {
      var run := runs[k].(status := RunRunning);
      if run.startedAt.None? { run := run.(startedAt := Some(now)); }
      run := run.(lastHeartbeat := Some(now));
      runs := runs[k := run.(leaseEnd := Some(now + timeout))];
    }

    /** The users with a running run, each once. */
    method ListRunningUsers() returns (users: seq<Id>)
      ensures forall u :: u in users <==> u in RunningUsers(Snapshot())
      ensures forall i, j | 0 <= i < j < |users| :: users[i] != users[j]
    {
      users := [];
      for i := 0 to |runs|
        invariant forall u :: u in users <==>
                    exists k :: 0 <= k < i && runs[k].status == RunRunning && runs[k].user == u
        invariant forall j, k | 0 <= j < k < |users| :: users[j] != users[k]
      {
        if runs[i].status == RunRunning && runs[i].user !in users { users := users + [runs[i].user]; }
      }
    }

    /**
     * `run_worker_liveness_tick`: user by user, and in effect one global pass; the
     * count is the number of runs the pass recovers.
     */
    method Tick(now: int, timeout: int, orders: Id -> seq<nat>) returns (recoveredCount: nat, userCount: nat)
      requires forall u :: VisitsAll(orders(u), |runs|)
      modifies this
      ensures timeout > 0 ==>
                && Snapshot() == GlobalPass(old(Snapshot()), now, timeout)
                && recoveredCount == |Hits(old(Snapshot()), now, timeout, ForUsers(RunningUsers(old(Snapshot()))))|
      ensures timeout <= 0 ==> Snapshot() == old(Snapshot()) && recoveredCount == 0
      ensures userCount == |RunningUsers(old(Snapshot()))|
    {
      ghost var s := Snapshot();
      var users := ListRunningUsers();
      recoveredCount := 0;
      RecoverNobody(s, now, timeout);
      assert Firsts(users, 0) == {};
      for i := 0 to |users|
        invariant |runs| == |s.runs|
        invariant timeout <= 0 ==> Snapshot() == s && recoveredCount == 0
        invariant timeout > 0 ==>
                    && Snapshot() == Recovered(s, now, timeout, ForUsers(Firsts(users, i)))
                    && recoveredCount == |HitsBefore(s, |s.runs|, now, timeout, ForUsers(Firsts(users, i)))|
      {
        ghost var before, mid := Firsts(users, i), Snapshot();
        var r := RecoverStaleWorkerRuns(now, timeout, ForUsers({users[i]}), orders(users[i]));
        if r.Ok? { recoveredCount := recoveredCount + |r.value|; }
        FirstsGrow(users, i);
        if timeout > 0 {
          RecoverInTurn(s, now, timeout, before, {users[i]});
          HitsAddUp(s, |s.runs|, now, timeout, before, {users[i]});
          SameCount(mid, orders(users[i]), now, timeout, ForUsers({users[i]}));
        }
      }
      assert Firsts(users, |users|) == RunningUsers(s);
      FirstsSize(users, |users|);
      userCount := |users|;
    }
  }

  ghost function Firsts(users: seq<Id>, n: nat): set<Id>
    requires n <= |users|
  {
    set i | 0 <= i < n :: users[i]
  }

  lemma FirstsGrow(users: seq<Id>, n: nat)
    requires n < |users| && forall i, j | 0 <= i < j < |users| :: users[i] != users[j]
    ensures Firsts(users, n + 1) == Firsts(users, n) + {users[n]} && users[n] !in Firsts(users, n)
  {
  }

  lemma {:induction false} FirstsSize(users: seq<Id>, n: nat)
    requires n <= |users| && forall i, j | 0 <= i < j < |users| :: users[i] != users[j]
    ensures |Firsts(users, n)| == n
  {
    if n > 0 {
      FirstsSize(users, n - 1);
      FirstsGrow(users, n - 1);
    }
  }

  lemma RecoverNobody(s: State, now: int, timeout: int)
    ensures Recovered(s, now, timeout, ForUsers({})) == s
    ensures HitsBefore(s, |s.runs|, now, timeout, ForUsers({})) == []
  {
    NoHitsNoChange(s, now, timeout, ForUsers({}));
  }
}
