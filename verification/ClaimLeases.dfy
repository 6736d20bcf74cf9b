/**
 * Claiming an attempt under a lease: claim, heartbeat, release, revoke (`work.py`).
 *
 * Time is an integer clock in seconds that only ticks forward. A claim is given
 * twice: as one atomic step, and split into its checks and its later conditional
 * update, which still uses the clock reading of the checks.
 */
module ClaimLeases {
  import opened Common
  import opened Statuses

  type Id = string

  datatype Attempt = Attempt(task: Id, status: AttemptStatus, holder: Option<Id>, leaseEnd: Option<int>)

  datatype Worker = Worker(status: WorkerStatus, revokedAt: Option<int>)

  /** A claim whose checks passed at time `at`; `previous` is the holder it found expired. */
  datatype Pending = Pending(worker: Id, attempt: Id, at: int, previous: Option<Id>)

  datatype State = State(
    now: int,
    attempts: map<Id, Attempt>,
    workers: map<Id, Worker>,
    tasks: map<Id, TaskStatus>,
    pending: set<Pending>)

  datatype Reply =
    | Done | NotFound | WorkerRevoked | NotClaimable | WorkerBusy | LeaseActive | NotHolder | BadStatus
    | NotStartable

  const FRESH_CLAIM := {Created, RetryRequested, WorkerFailed}
  const RELEASE_TO := {WorkerFailed, Cancelled, Created, Reviewing}
  const STARTABLE := {Created, QueuedWorker}

  /** The lease of the attempt still runs at time `t`. */
  predicate RunsAt(a: Attempt, t: int) {
    a.holder.Some? && a.leaseEnd.Some? && a.leaseEnd.value > t
  }

  /** Who holds the attempt under a running lease. */
  function ActiveHolder(s: State, aid: Id): Option<Id> {
    if aid in s.attempts && RunsAt(s.attempts[aid], s.now) then s.attempts[aid].holder else None
  }

  predicate BusyElsewhere(s: State, wid: Id, aid: Id) {
    exists b :: b in s.attempts && b != aid && s.attempts[b].holder == Some(wid)
                && s.attempts[b].leaseEnd.Some? && s.attempts[b].leaseEnd.value > s.now
  }

  // ----------------------------------------------------------------------- steps

  /** The holder whose lease the claim finds expired. */
  function ExpiredHolder(s: State, a: Attempt): Option<Id> {
    if a.holder.Some? && a.leaseEnd.Some? && a.leaseEnd.value <= s.now then a.holder else None
  }

  /** The checks of `claim`, in order. */
  function CheckClaim(s: State, wid: Id, aid: Id): Reply {
    if wid !in s.workers || aid !in s.attempts then NotFound
    else if s.workers[wid].revokedAt.Some? then WorkerRevoked
    else if s.attempts[aid].holder.None? && s.attempts[aid].status !in FRESH_CLAIM then NotClaimable
    else if BusyElsewhere(s, wid, aid) then WorkerBusy
    else Done
  }

  /** The worker whose lease was found expired, unless revoked, becomes expired. */
  function MarkExpired(workers: map<Id, Worker>, previous: Option<Id>): map<Id, Worker> {
    if previous.Some? && previous.value in workers && workers[previous.value].status != Revoked
    then workers[previous.value := workers[previous.value].(status := Expired)]
    else workers
  }

  /** `UPDATE ... WHERE claimed_by IS NULL OR lease_expires_at <= at`. */
  predicate UpdateMatches(a: Attempt, at: int) {
    a.holder.None? || (a.leaseEnd.Some? && a.leaseEnd.value <= at)
  }

  function UpdateClaim(s: State, p: Pending): (State, Reply) {
    if p.worker !in s.workers || p.attempt !in s.attempts then (s, NotFound)
    else if !UpdateMatches(s.attempts[p.attempt], p.at) then (s, LeaseActive)
    else
      var a := s.attempts[p.attempt];
      var marked := MarkExpired(s.workers, p.previous);
      (s.(
        attempts := s.attempts[p.attempt := Attempt(a.task, RunningWorker, Some(p.worker), Some(p.at + LEASE_TTL))],
        workers := marked[p.worker := marked[p.worker].(status := Claimed)],
        tasks := if a.task in s.tasks then s.tasks[a.task := Running] else s.tasks), Done)
  }

  function ClaimAt(s: State, wid: Id, aid: Id): Pending
    requires aid in s.attempts
  {
    Pending(wid, aid, s.now, ExpiredHolder(s, s.attempts[aid]))
  }

  function Claim(s: State, wid: Id, aid: Id): (State, Reply) {
    var checked := CheckClaim(s, wid, aid);
    if checked != Done then (s, checked) else UpdateClaim(s, ClaimAt(s, wid, aid))
  }

  function Extended(s: State, wid: Id, a: Attempt): Attempt {
    if a.holder == Some(wid) && RunsAt(a, s.now) then a.(leaseEnd := Some(s.now + LEASE_TTL)) else a
  }

  function Heartbeat(s: State, wid: Id): (State, Reply) {
    if wid !in s.workers then (s, NotFound)
    else if s.workers[wid].revokedAt.Some? then (s, WorkerRevoked)
    else (s.(attempts := map aid | aid in s.attempts :: Extended(s, wid, s.attempts[aid])), Done)
  }

  function Release(s: State, wid: Id, aid: Id, next: Option<AttemptStatus>): (State, Reply) {
    if wid !in s.workers || aid !in s.attempts then (s, NotFound)
    else if s.attempts[aid].holder != Some(wid) then (s, NotHolder)
    else if next.Some? && next.value !in RELEASE_TO then (s, BadStatus)
    else
      var a := s.attempts[aid];
      (s.(
        attempts := s.attempts[aid := Attempt(a.task, if next.Some? then next.value else a.status, None, None)],
        workers := s.workers[wid := s.workers[wid].(status := Available)]), Done)
  }

  function Revoke(s: State, wid: Id): (State, Reply) {
    if wid !in s.workers then (s, NotFound)
    else (s.(workers := s.workers[wid := Worker(Revoked, Some(s.now))]), Done)
  }

  /**
   * The owner's start tool makes its worker the holder and leaves the lease alone. It also
   * refuses an attempt with an active worker run, of which nothing is known here.
   */
  function Assign(s: State, wid: Id, aid: Id): (State, Reply) {
    if wid !in s.workers || aid !in s.attempts then (s, NotFound)
    else if s.attempts[aid].status !in STARTABLE then (s, NotStartable)
    else
      (s.(attempts := s.attempts[aid := s.attempts[aid].(holder := Some(wid), status := QueuedWorker)]), Done)
  }

  datatype Event =
    | DoClaim(wid: Id, aid: Id)
    | BeginClaim(wid: Id, aid: Id)
    | FinishClaim(claim: Pending)
    | DoHeartbeat(wid: Id)
    | DoRelease(wid: Id, aid: Id, next: Option<AttemptStatus>)
    | DoRevoke(wid: Id)
    | DoAssign(wid: Id, aid: Id)
    | Pass(seconds: nat)
    | Register(wid: Id)
    | AddAttempt(aid: Id, task: Id)
    | SetStatus(aid: Id, status: AttemptStatus)

  /** A checked claim may run its update at any later time; a finished one may not vanish. */
  function Apply(s: State, e: Event): (State, Reply) {
    match e
    case DoClaim(wid, aid) => Claim(s, wid, aid)
    case BeginClaim(wid, aid) =>
      var checked := CheckClaim(s, wid, aid);
      if checked != Done then (s, checked)
      else (s.(pending := s.pending + {ClaimAt(s, wid, aid)}), Done)
    case FinishClaim(p) => if p in s.pending then UpdateClaim(s, p) else (s, NotFound)
    case DoHeartbeat(wid) => Heartbeat(s, wid)
    case DoRelease(wid, aid, next) => Release(s, wid, aid, next)
    case DoRevoke(wid) => Revoke(s, wid)
    case DoAssign(wid, aid) => Assign(s, wid, aid)
    case Pass(seconds) => (s.(now := s.now + seconds), Done)
    case Register(wid) =>
      if wid in s.workers then (s, NotFound)
      else (s.(workers := s.workers[wid := Worker(Available, None)]), Done)
    case AddAttempt(aid, tid) =>
      if aid in s.attempts then (s, NotFound)
      else (s.(attempts := s.attempts[aid := Attempt(tid, Created, None, None)]), Done)
    case SetStatus(aid, status) =>
      if aid !in s.attempts then (s, NotFound)
      else (s.(attempts := s.attempts[aid := s.attempts[aid].(status := status)]), Done)
  }

  // ------------------------------------------------------------------- invariants

  predicate Initial(s: State) {
    s.attempts == map[] && s.workers == map[] && s.pending == {}
  }

  /** No lease ends later than a full term from now, even one a slow claim is about to write. */
  predicate Bounded(s: State) {
    && (forall aid :: aid in s.attempts && s.attempts[aid].leaseEnd.Some? ==>
          s.attempts[aid].holder.Some? && s.attempts[aid].leaseEnd.value <= s.now + LEASE_TTL)
    && (forall p :: p in s.pending ==> p.at <= s.now)
  }

  /** A revoked worker: every lease it has or may still get ends by `deadline`. */
  predicate WindsDown(s: State, wid: Id, deadline: int) {
    && wid in s.workers && s.workers[wid].revokedAt.Some?
    && (forall aid :: aid in s.attempts && s.attempts[aid].holder == Some(wid) && s.attempts[aid].leaseEnd.Some? ==>
          s.attempts[aid].leaseEnd.value <= deadline)
    && (forall p :: p in s.pending && p.worker == wid ==> p.at + LEASE_TTL <= deadline)
  }

  /** Each worker holds at most one running lease. */
  predicate SingleLease(s: State) {
    forall a, b :: a in s.attempts && b in s.attempts && a != b
                   && RunsAt(s.attempts[a], s.now) && RunsAt(s.attempts[b], s.now) ==>
                   s.attempts[a].holder != s.attempts[b].holder
  }

  lemma StepKeepsBounded(s: State, e: Event)
    requires Bounded(s)
    ensures Bounded(Apply(s, e).0)
  {
  }

  /**
   * Revocation starts the wind-down with a deadline one term away, also for claims
   * of the worker that were checked before it.
   */
  lemma RevokeWindsDown(s: State, wid: Id)
    requires Bounded(s) && wid in s.workers
    ensures WindsDown(Revoke(s, wid).0, wid, s.now + LEASE_TTL)
  {
  }

  /** The start tool makes the revoked worker the holder of a lease past the deadline. */
  predicate BringsLease(s: State, e: Event, wid: Id, deadline: int) {
    && e.DoAssign? && e.wid == wid && Assign(s, wid, e.aid).1 == Done
    && s.attempts[e.aid].leaseEnd.Some? && s.attempts[e.aid].leaseEnd.value > deadline
  }

  lemma StepKeepsWindDown(s: State, e: Event, wid: Id, deadline: int)
    requires WindsDown(s, wid, deadline)
    ensures WindsDown(Apply(s, e).0, wid, deadline) <==> !BringsLease(s, e, wid, deadline)
  {
    if e.DoAssign? {
      AssignKeepsWindDown(s, e, wid, deadline);
    } else {
      OthersKeepWindDown(s, e, wid, deadline);
    }
  }

  lemma AssignKeepsWindDown(s: State, e: Event, wid: Id, deadline: int)
    requires WindsDown(s, wid, deadline) && e.DoAssign?
    ensures WindsDown(Apply(s, e).0, wid, deadline) <==> !BringsLease(s, e, wid, deadline)
  {
    if BringsLease(s, e, wid, deadline) {
      var a := Apply(s, e).0.attempts[e.aid];
      assert a.holder == Some(wid) && a.leaseEnd == s.attempts[e.aid].leaseEnd;
    }
  }

  lemma OthersKeepWindDown(s: State, e: Event, wid: Id, deadline: int)
    requires WindsDown(s, wid, deadline) && !e.DoAssign?
    ensures WindsDown(Apply(s, e).0, wid, deadline)
  {
  }

  predicate Atomic(e: Event) {
    !e.BeginClaim? && !e.FinishClaim?
  }

  lemma StepKeepsSingleLease(s: State, e: Event)
    requires SingleLease(s) && Atomic(e) && !e.DoAssign?
    ensures SingleLease(Apply(s, e).0)
  {
  }

  /** An assignment keeps one running lease a worker exactly when it finds none on the attempt, or its worker free. */
  lemma AssignKeepsSingleLease(s: State, wid: Id, aid: Id)
    requires SingleLease(s) && Assign(s, wid, aid).1 == Done
    ensures SingleLease(Assign(s, wid, aid).0) <==>
              !RunsAt(Assign(s, wid, aid).0.attempts[aid], s.now) || !BusyElsewhere(s, wid, aid)
  {
    var s' := Assign(s, wid, aid).0;
    if RunsAt(s'.attempts[aid], s.now) && BusyElsewhere(s, wid, aid) {
      var b :| b in s.attempts && b != aid && s.attempts[b].holder == Some(wid)
               && s.attempts[b].leaseEnd.Some? && s.attempts[b].leaseEnd.value > s.now;
      assert RunsAt(s'.attempts[b], s'.now) && RunsAt(s'.attempts[aid], s'.now);
    }
  }

  /** The start tool gives the attempt to another worker than the holder. */
  predicate Steals(s: State, e: Event, aid: Id) {
    && e.DoAssign? && e.aid == aid && Assign(s, e.wid, aid).1 == Done
    && s.attempts[aid].holder != Some(e.wid)
  }

  /** No other step of anyone takes an attempt from a worker whose lease still runs. */
  lemma NoStealing(s: State, e: Event, aid: Id)
    requires Bounded(s) && ActiveHolder(s, aid).Some?
    ensures (ActiveHolder(Apply(s, e).0, aid) == ActiveHolder(s, aid) || ActiveHolder(Apply(s, e).0, aid).None?)
              <==> !Steals(s, e, aid)
  {
  }

  // ------------------------------------------------------------- held without a lease

  /** Started by the tool: held, under no lease. */
  predicate Reserved(s: State, aid: Id) {
    aid in s.attempts && s.attempts[aid].holder.Some? && s.attempts[aid].leaseEnd.None?
  }

  predicate Releases(s: State, e: Event, aid: Id) {
    e.DoRelease? && e.aid == aid && Release(s, e.wid, aid, e.next).1 == Done
  }

  /** No claim takes such an attempt, whatever its status, and a step that ends this is a release by its holder. */
  lemma ReservedNotClaimed(s: State, e: Event, aid: Id)
    requires Reserved(s, aid)
    ensures forall wid :: Claim(s, wid, aid).1 != Done
    ensures Reserved(Apply(s, e).0, aid) <==>
              !Releases(s, e, aid)
  {
  }
}
