/** The claim endpoints as they change rows in place. */
module ClaimService {
  import opened Common
  import opened Statuses
  import opened ClaimLeases

  class WorkService {
    var now: int
    var attempts: map<Id, Attempt>
    var workers: map<Id, Worker>
    var tasks: map<Id, TaskStatus>
    ghost var pending: set<Pending>

    ghost function Snapshot(): State
      reads this
    {
      State(now, attempts, workers, tasks, pending)
    }

    constructor (start: int, tasks: map<Id, TaskStatus>)
      ensures Initial(Snapshot()) && now == start && this.tasks == tasks
    {
      now, attempts, workers, this.tasks, pending := start, map[], map[], tasks, {};
    }

    method SetWorkerStatus(wid: Id, status: WorkerStatus)
      requires wid in workers
      modifies this`workers
      ensures workers == old(workers)[wid := old(workers)[wid].(status := status)]
    {
      workers := workers[wid := workers[wid].(status := status)];
    }

    /** The conditional update: the number of rows it changed. */
    method UpdateIfFree(wid: Id, aid: Id, at: int) returns (rows: nat)
      requires aid in attempts
      modifies this`attempts
      ensures rows == if UpdateMatches(old(attempts)[aid], at) then 1 else 0
      ensures attempts == if rows == 0 then old(attempts) else
                old(attempts)[aid := Attempt(old(attempts)[aid].task, RunningWorker, Some(wid), Some(at + LEASE_TTL))]
    {
      var a := attempts[aid];
      if a.holder.Some? && (a.leaseEnd.None? || a.leaseEnd.value > at) { return 0; }
      a := a.(holder := Some(wid), leaseEnd := Some(at + LEASE_TTL), status := RunningWorker);
      attempts := attempts[aid := a];
      return 1;
    }

    method ClaimAttempt(wid: Id, aid: Id) returns (reply: Reply)
      modifies this
      ensures (Snapshot(), reply) == Claim(old(Snapshot()), wid, aid)
    {
      if wid !in workers || aid !in attempts { return NotFound; }
      if workers[wid].revokedAt.Some? { return WorkerRevoked; }
      var a := attempts[aid];
      var expired := a.holder.Some? && a.leaseEnd.Some? && a.leaseEnd.value <= now;
      if a.holder.None? && a.status !in FRESH_CLAIM { return NotClaimable; }
      if exists b :: b in attempts && b != aid && attempts[b].holder == Some(wid)
                     && attempts[b].leaseEnd.Some? && attempts[b].leaseEnd.value > now {
        return WorkerBusy;
      }
      var rows := UpdateIfFree(wid, aid, now);
      if rows != 1 { return LeaseActive; }
      if expired && a.holder.value in workers && workers[a.holder.value].status != Revoked {
        SetWorkerStatus(a.holder.value, Expired);
      }
      SetWorkerStatus(wid, Claimed);
      if a.task in tasks { tasks := tasks[a.task := Running]; }
      return Done;
    }

    method RecordHeartbeat(wid: Id) returns (reply: Reply)
      modifies this
      ensures (Snapshot(), reply) == Heartbeat(old(Snapshot()), wid)
    {
      if wid !in workers { return NotFound; }
      if workers[wid].revokedAt.Some? { return WorkerRevoked; }
      var todo, before := attempts.Keys, attempts;
      while todo != {}
        invariant todo <= before.Keys == attempts.Keys
        invariant forall aid :: aid in before.Keys ==>
                    attempts[aid] == if aid in todo then before[aid] else Extended(old(Snapshot()), wid, before[aid])
        invariant Snapshot() == old(Snapshot()).(attempts := attempts)
        decreases todo
      {
        var aid :| aid in todo;
        todo := todo - {aid};
        var a := attempts[aid];
        if a.holder == Some(wid) && a.leaseEnd.Some? && a.leaseEnd.value > now {
          attempts := attempts[aid := a.(leaseEnd := Some(now + LEASE_TTL))];
        }
      }
      assert attempts == Heartbeat(old(Snapshot()), wid).0.attempts;
      return Done;
    }

    method ReleaseAttempt(wid: Id, aid: Id, next: Option<AttemptStatus>) returns (reply: Reply)
      modifies this
      ensures (Snapshot(), reply) == Release(old(Snapshot()), wid, aid, next)
    {
      if wid !in workers || aid !in attempts { return NotFound; }
      if attempts[aid].holder != Some(wid) { return NotHolder; }
      if next.Some? && next.value !in RELEASE_TO { return BadStatus; }
      var a := attempts[aid].(holder := None, leaseEnd := None);
      if next.Some? { a := a.(status := next.value); }
      attempts := attempts[aid := a];
      SetWorkerStatus(wid, Available);
      return Done;
    }

    /** What the start tool does to the attempt. */
    method AssignWorker(wid: Id, aid: Id) returns (reply: Reply)
      modifies this
      ensures (Snapshot(), reply) == Assign(old(Snapshot()), wid, aid)
    {
      if wid !in workers || aid !in attempts { return NotFound; }
      if attempts[aid].status !in STARTABLE { return NotStartable; }
      attempts := attempts[aid := attempts[aid].(holder := Some(wid))];
      attempts := attempts[aid := attempts[aid].(status := QueuedWorker)];
      assert attempts == old(attempts)[aid := attempts[aid]];
      return Done;
    }

    method RevokeWorker(wid: Id) returns (reply: Reply)
      modifies this
      ensures (Snapshot(), reply) == Revoke(old(Snapshot()), wid)
    {
      if wid !in workers { return NotFound; }
      workers := workers[wid := workers[wid].(revokedAt := Some(now))];
      SetWorkerStatus(wid, Revoked);
      assert workers == old(workers)[wid := workers[wid]];
      return Done;
    }
  }
}
