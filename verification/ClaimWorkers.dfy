/** Workers: who is marked how by a claim, and what a revocation keeps. */
module ClaimWorkers {
  import opened Common
  import opened Statuses
  import opened ClaimLeases
  import opened ClaimRuns

  // ------------------------------------------------------------------- who may do what

  /** A release goes through exactly for the holder, whatever the lease, and to four statuses or none. */
  lemma ReleaseGrantedExactly(s: State, wid: Id, aid: Id, next: Option<AttemptStatus>)
    ensures Release(s, wid, aid, next).1 == Done <==>
              && wid in s.workers && aid in s.attempts && s.attempts[aid].holder == Some(wid)
              && (next == None || next.value in {WorkerFailed, Cancelled, Created, Reviewing})
    ensures Release(s, wid, aid, next).1 == Done ==>
              && Release(s, wid, aid, next).0.attempts[aid].holder == None
              && Release(s, wid, aid, next).0.attempts[aid].leaseEnd == None
              && Release(s, wid, aid, next).0.workers[wid].status == Available
  {
  }

  /** The start tool takes a new or queued attempt from whoever holds it, and leaves its lease. */
  lemma AssignGrantedExactly(s: State, wid: Id, aid: Id)
    ensures Assign(s, wid, aid).1 == Done <==>
              wid in s.workers && aid in s.attempts && s.attempts[aid].status in {Created, QueuedWorker}
    ensures Assign(s, wid, aid).1 == Done ==>
              Assign(s, wid, aid).0.attempts[aid]
              == Attempt(s.attempts[aid].task, QueuedWorker, Some(wid), s.attempts[aid].leaseEnd)
  {
  }

  /** What a granted claim writes: the lease of five minutes, and the task running. */
  lemma ClaimLeaves(s: State, wid: Id, aid: Id)
    requires Claim(s, wid, aid).1 == Done
    ensures aid in s.attempts
    ensures var s', a := Claim(s, wid, aid).0, s.attempts[aid];
            && s'.attempts == s.attempts[aid := Attempt(a.task, RunningWorker, Some(wid), Some(s.now + 300))]
            && s'.tasks == if a.task in s.tasks then s.tasks[a.task := Running] else s.tasks
  {
  }

  // -------------------------------------------------------------------- marks of a claim

  /** The claim finds the lease of this worker over. */
  predicate LostLease(s: State, aid: Id, x: Id) {
    && aid in s.attempts && s.attempts[aid].holder == Some(x)
    && s.attempts[aid].leaseEnd.Some? && s.attempts[aid].leaseEnd.value <= s.now
  }

  /** A claim marks its worker claimed and the one whose lease is over expired, if not revoked; nobody else. */
  lemma ClaimMarks(s: State, wid: Id, aid: Id, x: Id)
    requires Claim(s, wid, aid).1 == Done && x in s.workers
    ensures x in Claim(s, wid, aid).0.workers
    ensures var w, w' := s.workers[x], Claim(s, wid, aid).0.workers[x];
            && w'.revokedAt == w.revokedAt
            && w'.status == if x == wid then Claimed
                            else if LostLease(s, aid, x) && w.status != Revoked then Expired
                            else w.status
  {
  }

  // ------------------------------------------------------------------------ revocation

  predicate IsRevoked(s: State, wid: Id) {
    wid in s.workers && s.workers[wid].revokedAt.Some?
  }

  lemma RevokeMarks(s: State, wid: Id)
    requires wid in s.workers
    ensures Revoke(s, wid).0.workers == s.workers[wid := Worker(Revoked, Some(s.now))]
  {
  }

  lemma StepKeepsRevoked(s: State, e: Event, wid: Id)
    requires IsRevoked(s, wid)
    ensures IsRevoked(Apply(s, e).0, wid)
  {
  }

  /** A revoked worker stays revoked in every run, and no claim or heartbeat of it is ever granted again. */
  lemma {:induction false} RevokedForGood(s: State, es: seq<Event>, i: nat, j: nat, wid: Id, aid: Id)
    requires i <= j <= |es| && IsRevoked(At(s, es, i), wid)
    ensures IsRevoked(At(s, es, j), wid)
    ensures Claim(At(s, es, j), wid, aid).1 != Done && Heartbeat(At(s, es, j), wid).1 != Done
    decreases j
  {
    if i < j {
      RevokedForGood(s, es, i, j - 1, wid, aid);
      NextState(s, es, j - 1);
      StepKeepsRevoked(At(s, es, j - 1), es[j - 1], wid);
    }
  }

  /** Its status is another matter: a release by it, and a late update of a claim checked before, overwrite it. */
  predicate Overwrites(s: State, e: Event, wid: Id) {
    || (e.DoRelease? && e.wid == wid && Apply(s, e).1 == Done)
    || (e.FinishClaim? && e.claim.worker == wid && Apply(s, e).1 == Done)
  }

  lemma RevokedShownExactly(s: State, e: Event, wid: Id)
    requires IsRevoked(s, wid) && s.workers[wid].status == Revoked
    ensures Apply(s, e).0.workers[wid].status == Revoked <==> !Overwrites(s, e, wid)
  {
    StepKeepsRevoked(s, e, wid);
  }

  /** So a revoked worker that releases its attempt is shown as available, and still may claim nothing. */
  lemma RevokedShowsAvailable(s: State, wid: Id, aid: Id, other: Id)
    requires wid in s.workers && aid in s.attempts && s.attempts[aid].holder == Some(wid)
    ensures var released := Release(Revoke(s, wid).0, wid, aid, None).0;
            released.workers[wid].status == Available && Claim(released, wid, other).1 != Done
  {
  }
}
