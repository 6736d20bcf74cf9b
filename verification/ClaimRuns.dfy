/** Leases over whole runs, atomic or interleaved, and the exact conditions of single steps. */
module ClaimRuns {
  import opened Common
  import opened Statuses
  import Induction
  import Runs
  import opened ClaimLeases

  function Next(s: State, e: Event): State {
    Apply(s, e).0
  }

  function After(s: State, es: seq<Event>): State {
    Runs.Fold(Next, s, es)
  }

  function At(s: State, es: seq<Event>, i: nat): State
    requires i <= |es|
  {
    After(s, es[..i])
  }

  lemma NextState(s: State, es: seq<Event>, i: nat)
    requires i < |es|
    ensures At(s, es, i + 1) == Apply(At(s, es, i), es[i]).0
  {
    Runs.FoldNext(Next, s, es, i);
  }

  /** In every reachable state no lease ends more than a term from now. */
  lemma {:induction false} ReachableBounded(s: State, es: seq<Event>)
    requires Initial(s)
    ensures Bounded(After(s, es))
  {
    if es != [] {
      ReachableBounded(s, es[..|es| - 1]);
      StepKeepsBounded(After(s, es[..|es| - 1]), es[|es| - 1]);
    }
  }

  /** When claims are atomic, and the start tool is not used, no worker ever holds two running leases. */
  lemma {:induction false} ReachableSingleLease(s: State, es: seq<Event>)
    requires Initial(s) && forall i | 0 <= i < |es| :: Atomic(es[i]) && !es[i].DoAssign?
    ensures SingleLease(After(s, es))
  {
    if es != [] {
      ReachableSingleLease(s, es[..|es| - 1]);
      StepKeepsSingleLease(After(s, es[..|es| - 1]), es[|es| - 1]);
    }
  }

  lemma {:induction false} WindDownLasts(s: State, es: seq<Event>, i: nat, j: nat, wid: Id, deadline: int)
    requires i <= j <= |es| && WindsDown(At(s, es, i), wid, deadline)
    requires forall m | i <= m < j :: !BringsLease(At(s, es, m), es[m], wid, deadline)
    ensures WindsDown(At(s, es, j), wid, deadline)
    decreases j
  {
    if i < j {
      WindDownLasts(s, es, i, j - 1, wid, deadline);
      NextState(s, es, j - 1);
      StepKeepsWindDown(At(s, es, j - 1), es[j - 1], wid, deadline);
    }
  }

  /**
   * From a revocation on, for good, the worker's leases end within a term of it, as long
   * as the start tool brings it no longer one.
   */
  lemma RevokedLeasesEnd(s: State, es: seq<Event>, i: nat, j: nat, wid: Id, aid: Id)
    requires Initial(s) && i < j <= |es|
    requires es[i] == DoRevoke(wid) && wid in At(s, es, i).workers
    requires forall m | i < m < j :: !BringsLease(At(s, es, m), es[m], wid, At(s, es, i).now + LEASE_TTL)
    ensures var later := At(s, es, j);
            aid in later.attempts && later.attempts[aid].holder == Some(wid) && later.attempts[aid].leaseEnd.Some? ==>
              later.attempts[aid].leaseEnd.value <= At(s, es, i).now + LEASE_TTL
  {
    ReachableBounded(s, es[..i]);
    NextState(s, es, i);
    RevokeWindsDown(At(s, es, i), wid);
    WindDownLasts(s, es, i + 1, j, wid, At(s, es, i).now + LEASE_TTL);
  }

  /**
   * Interleave claims as you like: between a running lease of one worker and a
   * running lease of another on the same attempt, there is a moment without any, or
   * the start tool gave the attempt away.
   */
  lemma {:induction false} HandOverHasGap(s: State, es: seq<Event>, i: nat, j: nat, aid: Id)
    requires Initial(s) && i <= j <= |es|
    requires ActiveHolder(At(s, es, i), aid).Some? && ActiveHolder(At(s, es, j), aid).Some?
    requires ActiveHolder(At(s, es, i), aid) != ActiveHolder(At(s, es, j), aid)
    ensures (exists k: nat :: i < k < j && ActiveHolder(At(s, es, k), aid).None?)
            || (exists k: nat :: i <= k < j && Steals(At(s, es, k), es[k], aid))
    decreases j
  {
    NextState(s, es, j - 1);
    if ActiveHolder(At(s, es, j - 1), aid).Some? && !Steals(At(s, es, j - 1), es[j - 1], aid) {
      ReachableBounded(s, es[..j - 1]);
      NoStealing(At(s, es, j - 1), es[j - 1], aid);
      HandOverHasGap(s, es, i, j - 1, aid);
    }
  }

  /**
   * An attempt the start tool has taken stays out of every claim, failed or not, until its
   * holder releases it: a run in which no release of it succeeds leaves it held.
   */
  lemma {:induction false} ReservedUntilReleased(s: State, es: seq<Event>, i: nat, j: nat, aid: Id)
    requires i <= j <= |es| && Reserved(At(s, es, i), aid)
    requires forall m | i <= m < j :: !Releases(At(s, es, m), es[m], aid)
    ensures Reserved(At(s, es, j), aid) && forall wid :: Claim(At(s, es, j), wid, aid).1 != Done
    decreases j
  {
    if i < j {
      ReservedUntilReleased(s, es, i, j - 1, aid);
      NextState(s, es, j - 1);
      ReservedNotClaimed(At(s, es, j - 1), es[j - 1], aid);
    }
    ReservedNotClaimed(At(s, es, j), Pass(0), aid);
  }

  // ------------------------------------------------------------------ single steps

  /** A heartbeat renews exactly the worker's running leases: an expired one stays expired. */
  lemma HeartbeatExact(s: State, wid: Id, aid: Id)
    requires Bounded(s) && Heartbeat(s, wid).1 == Done && aid in s.attempts
    ensures var a, a' := s.attempts[aid], Heartbeat(s, wid).0.attempts[aid];
            && (ActiveHolder(s, aid) == Some(wid) ==> a' == a.(leaseEnd := Some(s.now + LEASE_TTL)))
            && (ActiveHolder(s, aid) != Some(wid) ==> a' == a)
            && (RunsAt(a', s.now) <==> RunsAt(a, s.now))
  {
    assert Heartbeat(s, wid).0.attempts[aid] == Extended(s, wid, s.attempts[aid]);
  }

  /**
   * When a claim is granted. The status is looked at only when nobody holds the
   * attempt; an attempt whose lease has expired is taken in any status.
   */
  lemma ClaimGrantedExactly(s: State, wid: Id, aid: Id)
    requires wid in s.workers && aid in s.attempts
    ensures var a := s.attempts[aid];
            Claim(s, wid, aid).1 == Done <==>
              && s.workers[wid].revokedAt.None?
              && (if a.holder.None? then a.status in FRESH_CLAIM
                  else a.leaseEnd.Some? && a.leaseEnd.value <= s.now)
              && !BusyElsewhere(s, wid, aid)
    ensures Claim(s, wid, aid).1 == Done ==>
              var a' := Claim(s, wid, aid).0.attempts[aid];
              a'.holder == Some(wid) && a'.leaseEnd == Some(s.now + LEASE_TTL) && a'.status == RunningWorker
    ensures Claim(s, wid, aid).1 != Done ==> Claim(s, wid, aid).0 == s
  {
  }

  /**
   * So a merged attempt does not stay merged by itself: a claim by a free worker
   * turns it back to running exactly when it was left under a lease that has expired.
   */
  lemma MergedAttemptReclaimed(s: State, wid: Id, aid: Id)
    requires wid in s.workers && aid in s.attempts && s.attempts[aid].status == Merged
    requires s.workers[wid].revokedAt.None? && !BusyElsewhere(s, wid, aid)
    ensures Claim(s, wid, aid).0.attempts[aid].status != Merged <==>
              ExpiredHolder(s, s.attempts[aid]).Some?
  {
    ClaimGrantedExactly(s, wid, aid);
  }

  /**
   * A release frees the attempt: after it a worker that is neither revoked nor busy gets it
   * exactly when it was released as new or failed, or kept such a status.
   */
  lemma ReleasedClaimable(s: State, wid: Id, aid: Id, next: Option<AttemptStatus>, other: Id)
    requires Release(s, wid, aid, next).1 == Done && other in s.workers
    requires s.workers[other].revokedAt.None? && !BusyElsewhere(s, other, aid)
    ensures next.Some? ==> next.value in {WorkerFailed, Cancelled, Created, Reviewing}
    ensures var status := if next.Some? then next.value else s.attempts[aid].status;
            && Release(s, wid, aid, next).0.attempts[aid].status == status
            && (Claim(Release(s, wid, aid, next).0, other, aid).1 == Done <==>
                  status in {Created, RetryRequested, WorkerFailed})
  {
    var released := Release(s, wid, aid, next).0;
    assert !BusyElsewhere(released, other, aid);
  }

  // -------------------------------------------------------------- split claims

  /** Two claims of one worker, both checked before either is written. */
  function Doubled(s: State, wid: Id, a: Id, b: Id): seq<Event>
    requires a in s.attempts && b in s.attempts
  {
    [BeginClaim(wid, a), BeginClaim(wid, b), FinishClaim(ClaimAt(s, wid, a)), FinishClaim(ClaimAt(s, wid, b))]
  }

  /** Both claims are checked and pending, and nothing is written yet. */
  lemma BothBegun(s: State, wid: Id, a: Id, b: Id)
    requires CheckClaim(s, wid, a) == Done && CheckClaim(s, wid, b) == Done
    ensures At(s, Doubled(s, wid, a, b), 2)
         == s.(pending := s.pending + {ClaimAt(s, wid, a), ClaimAt(s, wid, b)})
  {
    var es := Doubled(s, wid, a, b);
    NextState(s, es, 0);
    NextState(s, es, 1);
    assert At(s, es, 0) == s;
    assert At(s, es, 1) == s.(pending := s.pending + {ClaimAt(s, wid, a)});
    assert CheckClaim(At(s, es, 1), wid, b) == Done;
  }

  /** Two late updates of one worker, on attempts nobody holds, at the time of the checks. */
  lemma BothWritten(s: State, p: Pending, q: Pending)
    requires p in s.pending && q in s.pending && p.worker == q.worker && p.attempt != q.attempt
    requires p.worker in s.workers && p.attempt in s.attempts && q.attempt in s.attempts
    requires s.attempts[p.attempt].holder.None? && s.attempts[q.attempt].holder.None?
    requires p.at == s.now && q.at == s.now
    ensures !SingleLease(Apply(Apply(s, FinishClaim(p)).0, FinishClaim(q)).0)
  {
    var last := Apply(Apply(s, FinishClaim(p)).0, FinishClaim(q)).0;
    assert RunsAt(last.attempts[p.attempt], last.now) && RunsAt(last.attempts[q.attempt], last.now);
  }

  /**
   * With split claims the single-lease rule fails, in every state in which a worker
   * may claim either of two free attempts.
   */
  lemma SplitClaimsDoubleUp(s: State, wid: Id, a: Id, b: Id)
    requires CheckClaim(s, wid, a) == Done && CheckClaim(s, wid, b) == Done && a != b
    requires s.attempts[a].holder.None? && s.attempts[b].holder.None?
    ensures !SingleLease(After(s, Doubled(s, wid, a, b)))
  {
    var es := Doubled(s, wid, a, b);
    BothBegun(s, wid, a, b);
    NextState(s, es, 2);
    NextState(s, es, 3);
    assert es[..4] == es;
    BothWritten(At(s, es, 2), ClaimAt(s, wid, a), ClaimAt(s, wid, b));
  }

  /**
   * The exact condition: a late update keeps the single-lease rule if and only if
   * it is refused, writes a lease that is already over, or finds its worker free.
   */
  lemma FinishKeepsSingleLease(s: State, p: Pending)
    requires Bounded(s) && SingleLease(s) && p in s.pending && UpdateClaim(s, p).1 != NotFound
    ensures SingleLease(UpdateClaim(s, p).0) <==>
              || !UpdateMatches(s.attempts[p.attempt], p.at)
              || p.at + LEASE_TTL <= s.now
              || !BusyElsewhere(s, p.worker, p.attempt)
  {
    var s' := UpdateClaim(s, p).0;
    if UpdateMatches(s.attempts[p.attempt], p.at) && p.at + LEASE_TTL > s.now && BusyElsewhere(s, p.worker, p.attempt) {
      var b :| b in s.attempts && b != p.attempt && s.attempts[b].holder == Some(p.worker)
               && s.attempts[b].leaseEnd.Some? && s.attempts[b].leaseEnd.value > s.now;
      assert RunsAt(s'.attempts[b], s'.now) && RunsAt(s'.attempts[p.attempt], s'.now);
    }
  }

  // ---------------------------------------------------------- split claims, runs

  /** What has to be true before a late update, or an assignment, for the single-lease rule to survive it. */
  predicate KeepsSingleLease(s: State, e: Event) {
    && (e.FinishClaim? && e.claim in s.pending && UpdateClaim(s, e.claim).1 == Done ==>
          e.claim.at + LEASE_TTL <= s.now || !BusyElsewhere(s, e.claim.worker, e.claim.attempt))
    && (e.DoAssign? && Assign(s, e.wid, e.aid).1 == Done ==>
          !RunsAt(Assign(s, e.wid, e.aid).0.attempts[e.aid], s.now) || !BusyElsewhere(s, e.wid, e.aid))
  }

  lemma BeginKeepsSingleLease(s: State, wid: Id, aid: Id)
    requires SingleLease(s)
    ensures SingleLease(Apply(s, BeginClaim(wid, aid)).0)
  {
  }

  lemma SingleLeaseExact(s: State, e: Event)
    requires Bounded(s) && SingleLease(s)
    ensures SingleLease(Apply(s, e).0) <==> KeepsSingleLease(s, e)
  {
    if e.FinishClaim? {
      if e.claim in s.pending && UpdateClaim(s, e.claim).1 != NotFound {
        FinishKeepsSingleLease(s, e.claim);
      }
    } else if e.BeginClaim? {
      BeginKeepsSingleLease(s, e.wid, e.aid);
    } else if e.DoAssign? {
      if Assign(s, e.wid, e.aid).1 == Done {
        AssignKeepsSingleLease(s, e.wid, e.aid);
      }
    } else {
      StepKeepsSingleLease(s, e);
    }
  }

  predicate Careful(s: State, es: seq<Event>) {
    forall n: nat | n < |es| :: KeepsSingleLease(At(s, es, n), es[n])
  }

  /**
   * Over any run, claims split or not: no worker ever holds two running leases exactly
   * when every late update wrote a lease already over or found its worker free, and every
   * assignment found no running lease on its attempt or its worker free.
   */
  lemma SingleLeaseRuns(s: State, es: seq<Event>)
    requires Initial(s)
    ensures Careful(s, es) <==> forall n: nat | n <= |es| :: SingleLease(At(s, es, n))
  {
    var holds: nat -> bool := (n: nat) => n <= |es| && SingleLease(At(s, es, n));
    var careful: nat -> bool := (n: nat) => n < |es| && KeepsSingleLease(At(s, es, n), es[n]);
    forall n: nat | n < |es| && holds(n) ensures holds(n + 1) <==> careful(n) {
      ReachableBounded(s, es[..n]);
      NextState(s, es, n);
      SingleLeaseExact(At(s, es, n), es[n]);
    }
    assert es[..0] == [];
    Induction.HoldsThroughout(holds, careful, |es|);
    assert forall n: nat | n < |es| :: careful(n) <==> KeepsSingleLease(At(s, es, n), es[n]);
    assert forall n: nat | n <= |es| :: holds(n) <==> SingleLease(At(s, es, n));
  }

  lemma OneWorkerTwoAttempts(s: State, wid: Id, tid: Id, a: Id, b: Id)
    requires Initial(s) && a != b
    ensures var ready := After(s, [Register(wid), AddAttempt(a, tid), AddAttempt(b, tid)]);
            && ready.attempts == map[a := Attempt(tid, Created, None, None), b := Attempt(tid, Created, None, None)]
            && ready.workers == map[wid := Worker(Available, None)]
  {
    Runs.FoldThree(Next, s, [Register(wid), AddAttempt(a, tid), AddAttempt(b, tid)]);
  }

  /** It is reached: one new worker and two new attempts are enough. */
  lemma SplitClaimsDoubleUpReached(s: State, wid: Id, tid: Id, a: Id, b: Id)
    requires Initial(s) && a != b
    ensures exists es: seq<Event> :: !SingleLease(After(s, es))
  {
    var es := [Register(wid), AddAttempt(a, tid), AddAttempt(b, tid)];
    OneWorkerTwoAttempts(s, wid, tid, a, b);
    var ready := After(s, es);
    SplitClaimsDoubleUp(ready, wid, a, b);
    Runs.FoldConcat(Next, s, es, Doubled(ready, wid, a, b));
    assert !SingleLease(After(s, es + Doubled(ready, wid, a, b)));
  }
}
