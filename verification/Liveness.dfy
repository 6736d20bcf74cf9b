/** Stale-run recovery and the scheduler tick (`worker_liveness.py`, `worker_liveness_scheduler.py`). */
module Liveness {
  import opened Common
  import opened Statuses
  import Sets

  type Id = string

  datatype Run = Run(
    user: Id, project: Id, worker: Id, adapter: string, attempt: Id, status: RunStatus,
    lastHeartbeat: Option<int>, updatedAt: Option<int>, startedAt: Option<int>, createdAt: int,
    leaseEnd: Option<int>, failedAt: Option<int>)

  datatype Attempt = Attempt(status: AttemptStatus, failedAt: Option<int>)

  datatype State = State(runs: seq<Run>, attempts: map<Id, Attempt>)

  /** Which runs a recovery looks at: those of the users, narrowed by the optional fields. */
  datatype Filter = Filter(users: set<Id>, project: Option<Id>, worker: Option<Id>, adapter: Option<string>)

  /** What of a run never changes. */
  datatype Key = Key(user: Id, project: Id, worker: Id, adapter: string)

  function KeyOf(r: Run): Key {
    Key(r.user, r.project, r.worker, r.adapter)
  }

  /** A field is no restriction when it is absent or empty. */
  predicate Narrows(field: Option<string>, value: string) {
    field.Some? && field.value != "" ==> value == field.value
  }

  predicate Covers(f: Filter, k: Key) {
    k.user in f.users && Narrows(f.project, k.project) && Narrows(f.worker, k.worker) && Narrows(f.adapter, k.adapter)
  }

  predicate Selected(r: Run, f: Filter) {
    Covers(f, KeyOf(r))
  }

  function LivenessAt(r: Run): int {
    if r.lastHeartbeat.Some? then r.lastHeartbeat.value
    else if r.updatedAt.Some? then r.updatedAt.value
    else if r.startedAt.Some? then r.startedAt.value
    else r.createdAt
  }

  /** A running run whose lease is over or, without a lease, that was silent for the timeout. */
  predicate Stale(r: Run, now: int, timeout: int) {
    && r.status == RunRunning
    && if r.leaseEnd.Some? then r.leaseEnd.value <= now else LivenessAt(r) <= now - timeout
  }

  /** `mark_worker_run_running_with_lease`. */
  function MarkRunning(r: Run, now: int, timeout: int): Run {
    r.(status := RunRunning,
       startedAt := if r.startedAt.Some? then r.startedAt else Some(now),
       lastHeartbeat := Some(now),
       leaseEnd := Some(now + timeout))
  }

  /** The heartbeat of a worker renews its running runs, late or not. */
  function Beaten(r: Run, worker: Id, at: int): Run {
    if r.worker == worker && r.status == RunRunning
    then r.(lastHeartbeat := Some(at), leaseEnd := Some(at + LEASE_TTL)) else r
  }

  function Beat(s: State, worker: Id, at: int): State {
    s.(runs := seq(|s.runs|, i requires 0 <= i < |s.runs| => Beaten(s.runs[i], worker, at)))
  }

  // ------------------------------------------------------------------- one recovery

  predicate Hit(s: State, i: int, now: int, timeout: int, f: Filter) {
    0 <= i < |s.runs| && Selected(s.runs[i], f) && Stale(s.runs[i], now, timeout)
  }

  function RecoverRun(r: Run, now: int, timeout: int, f: Filter): Run {
    if Selected(r, f) && Stale(r, now, timeout) then r.(status := RunFailed, failedAt := Some(now)) else r
  }

  /** The attempt of a recovered run fails too, if its status is recoverable. */
  function RecoverAttempt(s: State, aid: Id, now: int, timeout: int, f: Filter): Attempt
    requires aid in s.attempts
  {
    var a := s.attempts[aid];
    if a.status in RECOVERABLE && exists i | 0 <= i < |s.runs| :: Hit(s, i, now, timeout, f) && s.runs[i].attempt == aid
    then Attempt(WorkerFailed, Some(now)) else a
  }

  function Recovered(s: State, now: int, timeout: int, f: Filter): State {
    State(
      seq(|s.runs|, i requires 0 <= i < |s.runs| => RecoverRun(s.runs[i], now, timeout, f)),
      map aid | aid in s.attempts :: RecoverAttempt(s, aid, now, timeout, f))
  }

  /** The places of the stale runs among the first `n`, in order. */
  function HitsBefore(s: State, n: nat, now: int, timeout: int, f: Filter): seq<nat>
    requires n <= |s.runs|
  {
    if n == 0 then []
    else HitsBefore(s, n - 1, now, timeout, f) + if Hit(s, n - 1, now, timeout, f) then [n - 1] else []
  }

  /** The order a query visits the runs in: every place once. */
  predicate VisitsAll(order: seq<nat>, n: nat) {
    |order| == n && (forall i | 0 <= i < n :: order[i] < n) && Distinct(order)
  }

  /** The places of the stale runs in the order of the visit. */
  function HitsAlong(s: State, order: seq<nat>, now: int, timeout: int, f: Filter): seq<nat> {
    if order == [] then []
    else
      var last := |order| - 1;
      HitsAlong(s, order[..last], now, timeout, f) + if Hit(s, order[last], now, timeout, f) then [order[last]] else []
  }

  /** What the loop does to the run at place `k`. */
  function VisitOne(s: State, k: nat, now: int, timeout: int, f: Filter): State
    requires k < |s.runs|
  {
    if !Hit(s, k, now, timeout, f) then s
    else
      var aid := s.runs[k].attempt;
      State(
        s.runs[k := s.runs[k].(status := RunFailed, failedAt := Some(now))],
        if aid in s.attempts && s.attempts[aid].status in RECOVERABLE
        then s.attempts[aid := Attempt(WorkerFailed, Some(now))] else s.attempts)
  }

  function VisitAll(s: State, order: seq<nat>, now: int, timeout: int, f: Filter): (r: State)
    requires forall i | 0 <= i < |order| :: order[i] < |s.runs|
    ensures |r.runs| == |s.runs| && r.attempts.Keys == s.attempts.Keys
  {
    if order == [] then s
    else
      var last := |order| - 1;
      VisitOne(VisitAll(s, order[..last], now, timeout, f), order[last], now, timeout, f)
  }

  function Hits(s: State, now: int, timeout: int, f: Filter): seq<nat> {
    HitsBefore(s, |s.runs|, now, timeout, f)
  }

  function RunningUsers(s: State): set<Id> {
    set i | 0 <= i < |s.runs| && s.runs[i].status == RunRunning :: s.runs[i].user
  }

  function ForUsers(users: set<Id>): Filter {
    Filter(users, None, None, None)
  }

  /** One pass over everybody's runs. */
  function GlobalPass(s: State, now: int, timeout: int): State {
    Recovered(s, now, timeout, ForUsers(RunningUsers(s)))
  }

  // -------------------------------------------------------------------- properties

  lemma {:induction false} HitsAreHits(s: State, n: nat, now: int, timeout: int, f: Filter)
    requires n <= |s.runs|
    ensures forall k: nat :: k in HitsBefore(s, n, now, timeout, f) <==> k < n && Hit(s, k, now, timeout, f)
  {
    if n > 0 {
      HitsAreHits(s, n - 1, now, timeout, f);
    }
  }

  lemma {:induction false} NoHits(s: State, n: nat, now: int, timeout: int, f: Filter)
    requires n <= |s.runs| && forall i | 0 <= i < n :: !Hit(s, i, now, timeout, f)
    ensures HitsBefore(s, n, now, timeout, f) == []
  {
    if n > 0 {
      NoHits(s, n - 1, now, timeout, f);
    }
  }

  lemma NoHitsNoChange(s: State, now: int, timeout: int, f: Filter)
    requires forall i | 0 <= i < |s.runs| :: !Hit(s, i, now, timeout, f)
    ensures Recovered(s, now, timeout, f) == s && Hits(s, now, timeout, f) == []
  {
    NoHits(s, |s.runs|, now, timeout, f);
    forall i | 0 <= i < |s.runs| ensures RecoverRun(s.runs[i], now, timeout, f) == s.runs[i] {
      assert !Hit(s, i, now, timeout, f);
    }
    assert Recovered(s, now, timeout, f).runs == s.runs;
    assert Recovered(s, now, timeout, f).attempts == s.attempts;
  }

  lemma AttemptChange(s: State, aid: Id, now: int, timeout: int, f: Filter)
    requires aid in s.attempts && RecoverAttempt(s, aid, now, timeout, f) != s.attempts[aid]
    ensures s.attempts[aid].status in RECOVERABLE
    ensures exists i :: 0 <= i < |s.runs| && Stale(s.runs[i], now, timeout) && s.runs[i].attempt == aid
  {
    var i :| 0 <= i < |s.runs| && Hit(s, i, now, timeout, f) && s.runs[i].attempt == aid;
    assert Stale(s.runs[i], now, timeout);
  }

  /** A recovery looks at a user's runs, and at fewer only by fields that are given and not empty. */
  lemma SelectedExactly(r: Run, f: Filter)
    ensures Selected(r, f) <==>
              && r.user in f.users
              && (f.project == None || f.project == Some("") || f.project == Some(r.project))
              && (f.worker == None || f.worker == Some("") || f.worker == Some(r.worker))
              && (f.adapter == None || f.adapter == Some("") || f.adapter == Some(r.adapter))
  {
  }

  // ------------------------------------------------------------ the order of a visit

  predicate Distinct(order: seq<nat>) {
    forall i, j | 0 <= i < j < |order| :: order[i] != order[j]
  }

  /** A run not yet visited is as it was, a visited one as after the recovery. */
  lemma {:induction false} VisitedRuns(s: State, order: seq<nat>, now: int, timeout: int, f: Filter, k: nat)
    requires Distinct(order) && (forall i | 0 <= i < |order| :: order[i] < |s.runs|) && k < |s.runs|
    ensures VisitAll(s, order, now, timeout, f).runs[k] ==
            if k in order then RecoverRun(s.runs[k], now, timeout, f) else s.runs[k]
  {
    if order != [] {
      var init, last := order[..|order| - 1], order[|order| - 1];
      VisitedRuns(s, init, now, timeout, f, k);
      VisitedRuns(s, init, now, timeout, f, last);
      assert order == init + [last] && last !in init;
    }
  }

  predicate HitOf(s: State, k: nat, aid: Id, now: int, timeout: int, f: Filter) {
    Hit(s, k, now, timeout, f) && s.runs[k].attempt == aid
  }

  predicate HitFor(s: State, order: seq<nat>, aid: Id, now: int, timeout: int, f: Filter) {
    exists k | k in order :: HitOf(s, k, aid, now, timeout, f)
  }

  lemma HitForMore(s: State, order: seq<nat>, aid: Id, now: int, timeout: int, f: Filter)
    requires order != []
    ensures HitFor(s, order, aid, now, timeout, f) <==>
              || HitFor(s, order[..|order| - 1], aid, now, timeout, f)
              || HitOf(s, order[|order| - 1], aid, now, timeout, f)
  {
    assert order == order[..|order| - 1] + [order[|order| - 1]];
  }

  lemma {:induction false} VisitedAttempts(s: State, order: seq<nat>, aid: Id, now: int, timeout: int, f: Filter)
    requires Distinct(order) && (forall i | 0 <= i < |order| :: order[i] < |s.runs|) && aid in s.attempts
    ensures VisitAll(s, order, now, timeout, f).attempts[aid] ==
            if s.attempts[aid].status in RECOVERABLE && HitFor(s, order, aid, now, timeout, f)
            then Attempt(WorkerFailed, Some(now)) else s.attempts[aid]
  {
    if order != [] {
      var init, last := order[..|order| - 1], order[|order| - 1];
      VisitedAttempts(s, init, aid, now, timeout, f);
      VisitedRuns(s, init, now, timeout, f, last);
      HitForMore(s, order, aid, now, timeout, f);
      assert order == init + [last];
    }
  }

  /** Distinct places, as many as there are, are all of them. */
  lemma VisitsEvery(order: seq<nat>, n: nat, k: nat)
    requires VisitsAll(order, n) && k < n
    ensures k in order
  {
    VisitedSize(order, |order|);
    assert order[..|order|] == order && Visited(order) <= Places(n);
    if k !in Visited(order) {
      Sets.SubsetSize(Visited(order), Places(n) - {k});
    }
  }

  function Places(n: nat): (places: set<nat>)
    ensures forall i: nat :: i in places <==> i < n
    ensures |places| == n
  {
    if n == 0 then {} else Places(n - 1) + {n - 1}
  }

  function Visited(order: seq<nat>): set<nat> {
    set i | 0 <= i < |order| :: order[i]
  }

  lemma {:induction false} VisitedSize(order: seq<nat>, n: nat)
    requires Distinct(order) && n <= |order|
    ensures |Visited(order[..n])| == n
  {
    if n > 0 {
      VisitedSize(order, n - 1);
      assert Visited(order[..n]) == Visited(order[..n - 1]) + {order[n - 1]};
      assert order[n - 1] !in Visited(order[..n - 1]);
    }
  }

  /** Whatever the order of the visit, the loop recovers exactly what is stale. */
  lemma VisitAllRecovers(s: State, order: seq<nat>, now: int, timeout: int, f: Filter)
    requires VisitsAll(order, |s.runs|)
    ensures VisitAll(s, order, now, timeout, f) == Recovered(s, now, timeout, f)
  {
    var visited, recovered := VisitAll(s, order, now, timeout, f), Recovered(s, now, timeout, f);
    forall k: nat | k < |s.runs| ensures visited.runs[k] == recovered.runs[k] {
      VisitedRuns(s, order, now, timeout, f, k);
      VisitsEvery(order, |s.runs|, k);
    }
    forall aid | aid in s.attempts ensures visited.attempts[aid] == recovered.attempts[aid] {
      VisitedAttempts(s, order, aid, now, timeout, f);
      EveryHitVisited(s, order, aid, now, timeout, f);
    }
    assert visited.runs == recovered.runs && visited.attempts == recovered.attempts;
  }

  lemma EveryHitVisited(s: State, order: seq<nat>, aid: Id, now: int, timeout: int, f: Filter)
    requires VisitsAll(order, |s.runs|)
    ensures HitFor(s, order, aid, now, timeout, f) <==>
            exists i | 0 <= i < |s.runs| :: Hit(s, i, now, timeout, f) && s.runs[i].attempt == aid
  {
    if k :| 0 <= k < |s.runs| && Hit(s, k, now, timeout, f) && s.runs[k].attempt == aid {
      VisitsEvery(order, |s.runs|, k);
      assert HitOf(s, k, aid, now, timeout, f);
    }
  }

  lemma OneMoreVisit(s: State, order: seq<nat>, i: nat, now: int, timeout: int, f: Filter)
    requires VisitsAll(order, |s.runs|) && i < |order|
    ensures var before := VisitAll(s, order[..i], now, timeout, f);
            && VisitAll(s, order[..i + 1], now, timeout, f) == VisitOne(before, order[i], now, timeout, f)
            && (Hit(before, order[i], now, timeout, f) <==> Hit(s, order[i], now, timeout, f))
    ensures HitsAlong(s, order[..i + 1], now, timeout, f) ==
            HitsAlong(s, order[..i], now, timeout, f) + if Hit(s, order[i], now, timeout, f) then [order[i]] else []
  {
    assert order[..i + 1][..i] == order[..i];
    VisitedRuns(s, order[..i], now, timeout, f, order[i]);
  }

  // -------------------------------------------------------------------- the count

  function HitSet(s: State, places: set<nat>, now: int, timeout: int, f: Filter): set<nat> {
    set k | k in places && Hit(s, k, now, timeout, f)
  }

  lemma HitSetGrows(s: State, places: set<nat>, k: nat, now: int, timeout: int, f: Filter)
    requires k !in places
    ensures |HitSet(s, places + {k}, now, timeout, f)| ==
            |HitSet(s, places, now, timeout, f)| + if Hit(s, k, now, timeout, f) then 1 else 0
  {
    var hits := HitSet(s, places, now, timeout, f);
    if Hit(s, k, now, timeout, f) {
      assert HitSet(s, places + {k}, now, timeout, f) == hits + {k};
    } else {
      assert HitSet(s, places + {k}, now, timeout, f) == hits;
    }
  }

  lemma {:induction false} CountAlong(s: State, order: seq<nat>, now: int, timeout: int, f: Filter)
    requires Distinct(order)
    ensures |HitsAlong(s, order, now, timeout, f)| == |HitSet(s, Visited(order), now, timeout, f)|
  {
    if order != [] {
      var init, last := order[..|order| - 1], order[|order| - 1];
      CountAlong(s, init, now, timeout, f);
      assert Visited(order) == Visited(init) + {last} && last !in Visited(init);
      HitSetGrows(s, Visited(init), last, now, timeout, f);
    }
  }

  lemma {:induction false} CountBefore(s: State, n: nat, now: int, timeout: int, f: Filter)
    requires n <= |s.runs|
    ensures |HitsBefore(s, n, now, timeout, f)| == |HitSet(s, Places(n), now, timeout, f)|
  {
    if n > 0 {
      CountBefore(s, n - 1, now, timeout, f);
      HitSetGrows(s, Places(n - 1), n - 1, now, timeout, f);
    }
  }

  /** The number of recovered runs does not depend on the order either. */
  lemma SameCount(s: State, order: seq<nat>, now: int, timeout: int, f: Filter)
    requires VisitsAll(order, |s.runs|)
    ensures |HitsAlong(s, order, now, timeout, f)| == |Hits(s, now, timeout, f)|
  {
    CountAlong(s, order, now, timeout, f);
    CountBefore(s, |s.runs|, now, timeout, f);
    forall k: nat ensures k in Visited(order) <==> k < |s.runs| {
      if k < |s.runs| {
        VisitsEvery(order, |s.runs|, k);
      }
    }
    assert Visited(order) == Places(|s.runs|);
  }

  // --------------------------------------------------------------- the global pass

  /**
   * The global pass fails exactly the running runs that are stale now and leaves
   * every other run alone; it touches only attempts of those runs, and only in
   * recoverable states.
   */
  lemma GlobalPassExact(s: State, now: int, timeout: int)
    ensures var s' := GlobalPass(s, now, timeout);
            && |s'.runs| == |s.runs| && s'.attempts.Keys == s.attempts.Keys
            && (forall i | 0 <= i < |s.runs| ::
                  s'.runs[i] == if Stale(s.runs[i], now, timeout)
                                then s.runs[i].(status := RunFailed, failedAt := Some(now)) else s.runs[i])
            && (forall aid :: aid in s.attempts ==>
                  (s'.attempts[aid] != s.attempts[aid] ==>
                     && s.attempts[aid].status in RECOVERABLE && s'.attempts[aid].status == WorkerFailed
                     && exists i :: 0 <= i < |s.runs| && Stale(s.runs[i], now, timeout) && s.runs[i].attempt == aid))
            && (forall i | 0 <= i < |s.runs| && Stale(s.runs[i], now, timeout) && s.runs[i].attempt in s.attempts ::
                  s'.attempts[s.runs[i].attempt].status !in RECOVERABLE)
  {
    var f := ForUsers(RunningUsers(s));
    var s' := GlobalPass(s, now, timeout);
    forall i | 0 <= i < |s.runs| && s.runs[i].status == RunRunning ensures Selected(s.runs[i], f) {
    }
    forall i | 0 <= i < |s.runs| && Stale(s.runs[i], now, timeout) && s.runs[i].attempt in s.attempts
      ensures s'.attempts[s.runs[i].attempt].status !in RECOVERABLE
    {
      assert Hit(s, i, now, timeout, f);
    }
    forall aid | aid in s.attempts && s'.attempts[aid] != s.attempts[aid]
      ensures exists i :: 0 <= i < |s.runs| && Stale(s.runs[i], now, timeout) && s.runs[i].attempt == aid
    {
      AttemptChange(s, aid, now, timeout, f);
    }
  }

  /** An attempt of a stale run fails with it at that time, unless it is past its execution. */
  lemma StaleAttemptLeft(s: State, now: int, timeout: int, i: nat)
    requires i < |s.runs| && Stale(s.runs[i], now, timeout) && s.runs[i].attempt in s.attempts
    ensures var a, a' := s.attempts[s.runs[i].attempt], GlobalPass(s, now, timeout).attempts[s.runs[i].attempt];
            if a.status in {WorkerFailed, Committed, Reviewing, Accepted, Rejected, MergeReady, Merged,
                            Abandoned, Cancelled, Failed}
            then a' == a else a'.status == WorkerFailed && a'.failedAt == Some(now)
  {
    assert Selected(s.runs[i], ForUsers(RunningUsers(s)));
    assert Hit(s, i, now, timeout, ForUsers(RunningUsers(s)));
  }

  /** A running run without a lease fails exactly when its last sign of life is the timeout old. */
  lemma UnleasedRecovered(s: State, now: int, timeout: int, i: nat)
    requires i < |s.runs| && s.runs[i].status == RunRunning && s.runs[i].leaseEnd.None?
    ensures var r := s.runs[i];
            GlobalPass(s, now, timeout).runs[i].status == RunFailed <==>
              match r.lastHeartbeat
              case Some(beat) => beat + timeout <= now
              case None =>
                match r.updatedAt
                case Some(update) => update + timeout <= now
                case None => (if r.startedAt.Some? then r.startedAt.value else r.createdAt) + timeout <= now
  {
    GlobalPassExact(s, now, timeout);
  }

  /** One with a lease fails exactly when that has ended, whatever its last sign of life. */
  lemma LeasedRecovered(s: State, now: int, timeout: int, i: nat)
    requires i < |s.runs| && s.runs[i].status == RunRunning && s.runs[i].leaseEnd.Some?
    ensures GlobalPass(s, now, timeout).runs[i].status == RunFailed <==> s.runs[i].leaseEnd.value <= now
  {
    GlobalPassExact(s, now, timeout);
  }

  /** Recovering some users and then others is recovering all of them. */
  lemma RecoverInTurn(s: State, now: int, timeout: int, first: set<Id>, second: set<Id>)
    ensures Recovered(Recovered(s, now, timeout, ForUsers(first)), now, timeout, ForUsers(second)) ==
            Recovered(s, now, timeout, ForUsers(first + second))
  {
    var f, g, both := ForUsers(first), ForUsers(second), ForUsers(first + second);
    var mid := Recovered(s, now, timeout, f);
    forall aid | aid in s.attempts
      ensures RecoverAttempt(mid, aid, now, timeout, g) == RecoverAttempt(s, aid, now, timeout, both)
    {
      RecoverAttemptInTurn(s, aid, now, timeout, first, second);
    }
    assert Recovered(mid, now, timeout, g).runs == Recovered(s, now, timeout, both).runs;
  }

  lemma RecoverAttemptInTurn(s: State, aid: Id, now: int, timeout: int, first: set<Id>, second: set<Id>)
    requires aid in s.attempts
    ensures RecoverAttempt(Recovered(s, now, timeout, ForUsers(first)), aid, now, timeout, ForUsers(second)) ==
            RecoverAttempt(s, aid, now, timeout, ForUsers(first + second))
  {
    var f, g, both := ForUsers(first), ForUsers(second), ForUsers(first + second);
    var mid := Recovered(s, now, timeout, f);
    if i :| Hit(s, i, now, timeout, f) && s.runs[i].attempt == aid {
      assert Hit(s, i, now, timeout, both);
      assert mid.attempts[aid].status !in RECOVERABLE;
    } else {
      assert mid.attempts[aid] == s.attempts[aid];
      if i :| Hit(s, i, now, timeout, both) && s.runs[i].attempt == aid {
        assert !Hit(s, i, now, timeout, f) && mid.runs[i] == s.runs[i];
        assert Hit(mid, i, now, timeout, g);
      }
      if i :| Hit(mid, i, now, timeout, g) && mid.runs[i].attempt == aid {
        assert mid.runs[i] == s.runs[i];
        assert Hit(s, i, now, timeout, both);
      }
    }
  }

  /** The count for two disjoint groups of users is the sum of the counts, also one after the other. */
  lemma {:induction false} HitsAddUp(s: State, n: nat, now: int, timeout: int, first: set<Id>, second: set<Id>)
    requires n <= |s.runs| && first !! second
    ensures |HitsBefore(s, n, now, timeout, ForUsers(first + second))| ==
            |HitsBefore(s, n, now, timeout, ForUsers(first))|
            + |HitsBefore(Recovered(s, now, timeout, ForUsers(first)), n, now, timeout, ForUsers(second))|
  {
    if n > 0 {
      HitsAddUp(s, n - 1, now, timeout, first, second);
    }
  }

  /** At the same instant there is nothing left to recover. */
  lemma SecondPassFindsNothing(s: State, now: int, timeout: int)
    ensures var s' := GlobalPass(s, now, timeout);
            GlobalPass(s', now, timeout) == s' && Hits(s', now, timeout, ForUsers(RunningUsers(s'))) == []
  {
    var s' := GlobalPass(s, now, timeout);
    GlobalPassExact(s, now, timeout);
    forall i | 0 <= i < |s'.runs| ensures !Stale(s'.runs[i], now, timeout) {
    }
    NoHitsNoChange(s', now, timeout, ForUsers(RunningUsers(s')));
  }
}
