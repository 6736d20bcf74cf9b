/**
 * Commit, review, approve, squash (`worktrees.py`, `reviews.py`, `approvals.py`).
 *
 * Every endpoint is one step of a state machine over the database rows and the
 * outside repository. Steps of the rest of the program, and of whoever else works
 * in the repository, are steps too. A request that fails before its commit leaves
 * the state as it was.
 */
module MergePipeline {
  import opened Common
  import opened Statuses
  import opened WriteScope
  import Porcelain
  import Transitions

  type Id = string
  type Sha = nat

  datatype Attempt = Attempt(task: Id, repo: Option<Id>, status: AttemptStatus, claimed: bool)

  datatype Task = Task(title: string, writeScope: RawScope, status: TaskStatus)

  /** A worktree row; there is at most one per attempt, so it is stored under the attempt. */
  datatype Worktree = Worktree(
    branch: string, baseBranch: Option<string>, baseSha: Sha, resultSha: Option<Sha>, status: WorktreeStatus)

  datatype Review = Review(status: ReviewStatus, mergeSha: Option<Sha>)

  /** The fields that are hashed; a hash without collisions is the tuple itself. */
  datatype Fingerprint = Fingerprint(
    task: Id, attempt: Id, repo: Option<Id>, baseBranch: Option<string>, baseSha: Sha,
    resultBranch: string, resultSha: Option<Sha>, message: string)

  datatype Request = Request(attempt: Id, fingerprint: Fingerprint, status: ApprovalStatus)

  /** What `inspect_git_repository` can see; an unreadable one shows neither branch nor head. */
  datatype Repo = Repo(readable: bool, branch: Option<string>, head: Option<Sha>, dirty: bool)

  datatype State = State(
    attempts: map<Id, Attempt>,
    tasks: map<Id, Task>,
    worktrees: map<Id, Worktree>,
    reviews: map<Id, Review>,
    requests: seq<Request>,   // in order of creation
    repos: map<Id, Repo>,
    shas: set<Sha>)           // every commit that has been seen so far

  datatype Reply =
    | Success | RecordsIncomplete | NotCommitted | ApprovalRequired | NoValidApproval
    | SourceDirty | BaseStale | MergeFailed | CommitFailed | NotClaimed | NoChanges
    | OutOfScope | GitFailed | AlreadyExists | NotFound | NotAllowed

  // --------------------------------------------------------------------- queries

  /** `bundle`: the attempt with its task, worktree and repository. */
  predicate Bundled(s: State, aid: Id) {
    && aid in s.attempts && s.attempts[aid].task in s.tasks && aid in s.worktrees
    && s.attempts[aid].repo.Some? && s.attempts[aid].repo.value in s.repos
  }

  function TaskOf(s: State, aid: Id): Task
    requires Bundled(s, aid)
  {
    s.tasks[s.attempts[aid].task]
  }

  function RepoOf(s: State, aid: Id): Repo
    requires Bundled(s, aid)
  {
    s.repos[s.attempts[aid].repo.value]
  }

  function Head(r: Repo): Option<Sha> {
    if r.readable then r.head else None
  }

  function Branch(r: Repo): Option<string> {
    if r.readable then r.branch else None
  }

  predicate SourceClean(r: Repo) {
    r.readable && !r.dirty
  }

  predicate BaseMatches(r: Repo, w: Worktree) {
    Head(r) == Some(w.baseSha) && Branch(r) == w.baseBranch
  }

  predicate EnsureCommitted(s: State, aid: Id)
    requires Bundled(s, aid)
  {
    && s.attempts[aid].status == Committed
    && s.worktrees[aid].status == WtCommitted
    && s.worktrees[aid].resultSha.Some?
  }

  function DefaultMessage(t: Task, aid: Id): string {
    t.title + "\n\nSquash merge result from task attempt " + aid + "."
  }

  function FingerprintAt(s: State, aid: Id, base: Sha, message: string): Fingerprint
    requires Bundled(s, aid)
  {
    var a, w := s.attempts[aid], s.worktrees[aid];
    Fingerprint(a.task, aid, a.repo, w.baseBranch, base, w.branch, w.resultSha, message)
  }

  /** The fingerprint an approval is given: the base the worktree was cut from. */
  function ApprovalFingerprint(s: State, aid: Id): Fingerprint
    requires Bundled(s, aid)
  {
    FingerprintAt(s, aid, s.worktrees[aid].baseSha, DefaultMessage(TaskOf(s, aid), aid))
  }

  /** The fingerprint of what is there now: the head of the source repository. */
  function CurrentFingerprint(s: State, aid: Id, message: string): Fingerprint
    requires Bundled(s, aid)
  {
    var head := Head(RepoOf(s, aid));
    FingerprintAt(s, aid, if head.Some? then head.value else s.worktrees[aid].baseSha, message)
  }

  predicate Open(status: ApprovalStatus) {
    status == ApPending || status == ApApproved
  }

  function Latest(rs: seq<Request>, aid: Id): (k: Option<nat>)
    ensures k.Some? ==> k.value < |rs| && rs[k.value].attempt == aid
                        && forall j | k.value < j < |rs| :: rs[j].attempt != aid
    ensures k.None? ==> forall j | 0 <= j < |rs| :: rs[j].attempt != aid
  {
    if rs == [] then None
    else if rs[|rs| - 1].attempt == aid then Some(|rs| - 1)
    else Latest(rs[..|rs| - 1], aid)
  }

  predicate HasApproved(rs: seq<Request>, fp: Fingerprint) {
    exists i | 0 <= i < |rs| :: rs[i].fingerprint == fp && rs[i].status == ApApproved
  }

  // ---------------------------------------------------------- changes to requests

  /** `get_current_approval`: the newest request goes stale when its fingerprint is not `fp`. */
  function StaleLatest(rs: seq<Request>, aid: Id, fp: Fingerprint): seq<Request> {
    var k := Latest(rs, aid);
    if k.Some? && rs[k.value].fingerprint != fp && Open(rs[k.value].status)
    then rs[k.value := rs[k.value].(status := ApStale)]
    else rs
  }

  function StaleOne(r: Request, aid: Id, fp: Fingerprint): Request {
    if r.attempt == aid && Open(r.status) && r.fingerprint != fp then r.(status := ApStale) else r
  }

  /** `mark_stale_if_fingerprint_changed`. */
  function StaleAll(rs: seq<Request>, aid: Id, fp: Fingerprint): seq<Request> {
    seq(|rs|, i requires 0 <= i < |rs| => StaleOne(rs[i], aid, fp))
  }

  function RejectOne(r: Request, aid: Id): Request {
    if r.attempt == aid && Open(r.status) then r.(status := ApRejected) else r
  }

  function RejectAll(rs: seq<Request>, aid: Id): seq<Request> {
    seq(|rs|, i requires 0 <= i < |rs| => RejectOne(rs[i], aid))
  }

  /** The request an approval leaves behind: a pending one is reused, otherwise one is made. */
  function GrantRequest(rs: seq<Request>, aid: Id, fp: Fingerprint): seq<Request> {
    var staled := StaleLatest(rs, aid, fp);
    var k := Latest(staled, aid);
    if k.Some? && staled[k.value].status == ApPending
    then staled[k.value := staled[k.value].(status := ApApproved)]
    else staled + [Request(aid, fp, ApApproved)]
  }

  // ----------------------------------------------------------------------- steps

  /** `detail`: showing a review looks at the repository and stales an outdated request. */
  function Look(s: State, aid: Id): (State, Reply) {
    if !Bundled(s, aid) then (s, RecordsIncomplete)
    else
      var fp := CurrentFingerprint(s, aid, DefaultMessage(TaskOf(s, aid), aid));
      (s.(requests := StaleLatest(s.requests, aid, fp)), Success)
  }

  function ApprovedState(s: State, aid: Id): State
    requires Bundled(s, aid)
  {
    var prior := if aid in s.reviews then s.reviews[aid].mergeSha else None;
    s.(
      reviews := s.reviews[aid := Review(RvApproved, prior)],
      requests := GrantRequest(s.requests, aid, ApprovalFingerprint(s, aid)))
  }

  function Approve(s: State, aid: Id): (State, Reply) {
    if !Bundled(s, aid) then (s, RecordsIncomplete)
    else if !EnsureCommitted(s, aid) then (s, NotCommitted)
    else (Look(ApprovedState(s, aid), aid).0, Success)
  }

  function RejectedState(s: State, aid: Id): State
    requires Bundled(s, aid)
  {
    var tid := s.attempts[aid].task;
    var prior := if aid in s.reviews then s.reviews[aid].mergeSha else None;
    s.(
      reviews := s.reviews[aid := Review(RvRejected, prior)],
      attempts := s.attempts[aid := s.attempts[aid].(status := Rejected)],
      tasks := s.tasks[tid := s.tasks[tid].(status := ChangesRequested)],
      worktrees := s.worktrees[aid := s.worktrees[aid].(status := WtReviewing)],
      requests := RejectAll(s.requests, aid))
  }

  function Reject(s: State, aid: Id): (State, Reply) {
    if !Bundled(s, aid) then (s, RecordsIncomplete)
    else if !EnsureCommitted(s, aid) then (s, NotCommitted)
    else (Look(RejectedState(s, aid), aid).0, Success)
  }

  function Prepare(s: State, aid: Id): (State, Reply) {
    if !Bundled(s, aid) then (s, RecordsIncomplete)
    else if !EnsureCommitted(s, aid) then (s, NotCommitted)
    else
      var seen := Look(s, aid).0;
      if !SourceClean(RepoOf(s, aid)) then (seen, SourceDirty)
      else if !BaseMatches(RepoOf(s, aid), s.worktrees[aid]) then (seen, BaseStale)
      else (seen, Success)
  }

  datatype SquashOutcome = MergeFails | CommitFails | NewCommit(sha: Sha)

  predicate ReviewApproved(s: State, aid: Id) {
    aid in s.reviews && (s.reviews[aid].status == RvApproved || s.reviews[aid].status == RvMergePrepared)
  }

  /** An absent or empty message in the request falls back to the default one. */
  function SquashMessage(s: State, aid: Id, message: Option<string>): string
    requires Bundled(s, aid)
  {
    if message.Some? && message.value != "" then message.value else DefaultMessage(TaskOf(s, aid), aid)
  }

  function MergedState(s: State, aid: Id, sha: Sha): State
    requires Bundled(s, aid)
  {
    var a := s.attempts[aid];
    s.(
      reviews := s.reviews[aid := Review(RvMerged, Some(sha))],
      attempts := s.attempts[aid := a.(status := Merged)],
      tasks := s.tasks[a.task := s.tasks[a.task].(status := Completed)],
      worktrees := s.worktrees[aid := s.worktrees[aid].(status := CleanupPending)],
      repos := s.repos[a.repo.value := s.repos[a.repo.value].(head := Some(sha))],
      shas := s.shas + {sha})
  }

  /** What is left once every check has passed. */
  function PerformSquash(s: State, aid: Id, git: SquashOutcome): (State, Reply)
    requires Bundled(s, aid) && aid in s.reviews
  {
    match git
    case MergeFails => (s.(reviews := s.reviews[aid := s.reviews[aid].(status := RvFailed)]), MergeFailed)
    case CommitFails => (s, CommitFailed)
    case NewCommit(sha) => (Look(MergedState(s, aid, sha), aid).0, Success)
  }

  function Squash(s: State, aid: Id, message: Option<string>, git: SquashOutcome): (State, Reply) {
    if !Bundled(s, aid) then (s, RecordsIncomplete)
    else if !EnsureCommitted(s, aid) then (s, NotCommitted)
    else if !ReviewApproved(s, aid) then (s, ApprovalRequired)
    else
      var fp := CurrentFingerprint(s, aid, SquashMessage(s, aid, message));
      if !HasApproved(s.requests, fp) then
        (s.(requests := StaleAll(s.requests, aid, fp)), NoValidApproval)
      else if !SourceClean(RepoOf(s, aid)) then (s, SourceDirty)
      else if !BaseMatches(RepoOf(s, aid), s.worktrees[aid]) then (s, BaseStale)
      else PerformSquash(s, aid, git)
  }

  /** What git reports about a worktree, and whether its commands succeed. */
  datatype Report = Report(dirty: bool, porcelain: string, commit: Option<Sha>)

  predicate InScope(porcelain: string, scope: RawScope) {
    && Porcelain.ParseSpec(porcelain).Ok?
    && ValidateChangedPaths(Porcelain.ParseSpec(porcelain).value, scope).Ok?
  }

  /** `apply_worktree_result` behind `commit_result`. */
  function CommitResult(s: State, aid: Id, report: Report): (State, Reply) {
    if aid !in s.worktrees then (s, NotFound)
    else if aid !in s.attempts || s.attempts[aid].task !in s.tasks || !s.attempts[aid].claimed then (s, NotClaimed)
    else if !report.dirty then (s, NoChanges)
    else
      var a := s.attempts[aid];
      if !InScope(report.porcelain, s.tasks[a.task].writeScope) then
        (s.(worktrees := s.worktrees[aid := s.worktrees[aid].(status := DirtyResult)],
            attempts := s.attempts[aid := a.(status := WorkerFailed)]), OutOfScope)
      else match report.commit
        case None => (s, GitFailed)
        case Some(sha) =>
          (s.(worktrees := s.worktrees[aid := s.worktrees[aid].(resultSha := Some(sha), status := WtCommitted)],
              attempts := s.attempts[aid := a.(status := Committed)],
              tasks := s.tasks[a.task := s.tasks[a.task].(status := WaitingForReview)],
              shas := s.shas + {sha}), Success)
  }

  /**
   * The creation endpoint: an attempt that has a worktree is told so before anything else
   * is looked at; a failing `git worktree add` leaves a failed row.
   */
  function CreateWorktree(s: State, aid: Id, branch: string, added: bool): (State, Reply) {
    if aid !in s.attempts then (s, NotFound)
    else if aid in s.worktrees then (s, AlreadyExists)
    else if !s.attempts[aid].claimed then (s, NotClaimed)
    else
      var a := s.attempts[aid];
      if a.task !in s.tasks || a.repo.None? || a.repo.value !in s.repos then (s, RecordsIncomplete)
      else
        var r := s.repos[a.repo.value];
        if !r.readable then (s, GitFailed)
        else if r.dirty then (s, SourceDirty)
        else if r.head.None? then (s, BaseStale)
        else
          var w := Worktree(branch, r.branch, r.head.value, None, if added then WtReady else WtFailed);
          if added then
            (s.(worktrees := s.worktrees[aid := w],
                attempts := s.attempts[aid := a.(status := RunningWorker)]), Success)
          else (s.(worktrees := s.worktrees[aid := w]), GitFailed)
  }

  /**
   * A step is one endpoint, or something the rest of the program or of the world
   * does. The last three cover every other writer of a status (claims, releases,
   * worker adapters, cleanup, updates of an attempt): no other code turns an attempt or
   * a worktree committed, or completes a task.
   */
  datatype Event =
    | DoApprove(aid: Id)
    | DoReject(aid: Id)
    | DoPrepare(aid: Id)
    | DoLook(aid: Id)
    | DoSquash(aid: Id, message: Option<string>, git: SquashOutcome)
    | DoCommit(aid: Id, report: Report)
    | DoCreateWorktree(aid: Id, branch: string, added: bool)
    | MoveRepo(rid: Id, repo: Repo)
    | AddTask(tid: Id, title: string, writeScope: RawScope)
    | AddAttempt(aid: Id, task: Id, attemptRepo: Option<Id>)
    | UpdateTask(tid: Id, taskStatus: TaskStatus)
    | SetAttempt(aid: Id, status: AttemptStatus, claimed: bool)
    | SetTask(tid: Id, taskStatus: TaskStatus)
    | SetWorktree(aid: Id, worktreeStatus: WorktreeStatus)

  function Apply(s: State, e: Event): (State, Reply) {
    match e
    case DoApprove(aid) => Approve(s, aid)
    case DoReject(aid) => Reject(s, aid)
    case DoPrepare(aid) => Prepare(s, aid)
    case DoLook(aid) => Look(s, aid)
    case DoSquash(aid, message, git) => Squash(s, aid, message, git)
    case DoCommit(aid, report) => CommitResult(s, aid, report)
    case DoCreateWorktree(aid, branch, added) => CreateWorktree(s, aid, branch, added)
    case MoveRepo(rid, repo) =>
      (s.(repos := s.repos[rid := repo],
          shas := s.shas + if repo.head.Some? then {repo.head.value} else {}), Success)
    case AddTask(tid, title, scope) =>
      if tid in s.tasks then (s, AlreadyExists)
      else (s.(tasks := s.tasks[tid := Task(title, scope, Draft)]), Success)
    case AddAttempt(aid, tid, repo) =>
      if aid in s.attempts then (s, AlreadyExists)
      else (s.(attempts := s.attempts[aid := Attempt(tid, repo, Created, false)]), Success)
    case UpdateTask(tid, status) =>
      if tid !in s.tasks then (s, NotFound)
      else if !Transitions.TaskPubliclyAllowed(s.tasks[tid].status, status) then (s, NotAllowed)
      else (s.(tasks := s.tasks[tid := s.tasks[tid].(status := status)]), Success)
    case SetAttempt(aid, status, claimed) =>
      if aid in s.attempts && (status == Committed ==> s.attempts[aid].status == Committed)
      then (s.(attempts := s.attempts[aid := s.attempts[aid].(status := status, claimed := claimed)]), Success)
      else (s, RecordsIncomplete)
    case SetTask(tid, status) =>
      if tid in s.tasks && status != Completed
      then (s.(tasks := s.tasks[tid := s.tasks[tid].(status := status)]), Success)
      else (s, RecordsIncomplete)
    case SetWorktree(aid, status) =>
      if aid in s.worktrees && status != WtCommitted
      then (s.(worktrees := s.worktrees[aid := s.worktrees[aid].(status := status)]), Success)
      else (s, RecordsIncomplete)
  }
}
