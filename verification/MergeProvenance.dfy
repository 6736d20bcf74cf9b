/** What every run of the pipeline guarantees, wherever the source repository moves. */
module MergeProvenance {
  import opened Common
  import opened Statuses
  import opened WriteScope
  import opened MergePipeline
  import Transitions
  import Runs
  import Porcelain
  import WriteScopeCoverage

  // ------------------------------------------------------------------------ runs

  predicate Initial(s: State) {
    && s.attempts == map[] && s.tasks == map[] && s.worktrees == map[]
    && s.reviews == map[] && s.requests == []
  }

  /** Git never makes the same commit twice. */
  predicate FreshCommit(s: State, e: Event) {
    && (e.DoSquash? && e.git.NewCommit? ==> e.git.sha !in s.shas)
    && (e.DoCommit? && e.report.commit.Some? ==> e.report.commit.value !in s.shas)
  }

  function Next(s: State, e: Event): State {
    Apply(s, e).0
  }

  function After(s: State, es: seq<Event>): State {
    Runs.Fold(Next, s, es)
  }

  /** The state just before event `i`. */
  function At(s: State, es: seq<Event>, i: nat): State
    requires i <= |es|
  {
    After(s, es[..i])
  }

  ghost predicate Run(s: State, es: seq<Event>) {
    Initial(s) && forall i | 0 <= i < |es| :: FreshCommit(At(s, es, i), es[i])
  }

  predicate Succeeds(s: State, e: Event) {
    Apply(s, e).1 == Success
  }

  predicate Commits(s: State, e: Event, aid: Id) {
    e.DoCommit? && e.aid == aid && Succeeds(s, e)
  }

  predicate Approves(s: State, e: Event, aid: Id) {
    e.DoApprove? && e.aid == aid && Succeeds(s, e)
  }

  predicate Squashes(s: State, e: Event, aid: Id) {
    e.DoSquash? && e.aid == aid && Succeeds(s, e)
  }

  lemma Prefixes(s: State, es: seq<Event>, i: nat)
    requires i < |es|
    ensures At(s, es[..|es| - 1], i) == At(s, es, i)
    ensures At(s, es, i + 1) == Apply(At(s, es, i), es[i]).0
  {
    assert es[..|es| - 1][..i] == es[..i];
    Runs.FoldNext(Next, s, es, i);
  }

  lemma RunPrefix(s: State, es: seq<Event>)
    requires Run(s, es) && es != []
    ensures Run(s, es[..|es| - 1])
  {
    var init := es[..|es| - 1];
    forall i | 0 <= i < |init| ensures FreshCommit(At(s, init, i), init[i]) {
      Prefixes(s, es, i);
    }
  }

  // ------------------------------------------------------------ what a step keeps

  /** Same requests, some of the open ones closed. */
  predicate Closing(prior: seq<Request>, later: seq<Request>) {
    && |prior| == |later|
    && forall q | 0 <= q < |prior| ::
         && later[q].attempt == prior[q].attempt
         && later[q].fingerprint == prior[q].fingerprint
         && (later[q].status == prior[q].status || (Open(prior[q].status) && !Open(later[q].status)))
  }

  lemma StaleLatestCloses(rs: seq<Request>, aid: Id, fp: Fingerprint)
    ensures Closing(rs, StaleLatest(rs, aid, fp))
    ensures Latest(StaleLatest(rs, aid, fp), aid) == Latest(rs, aid)
  {
    LatestSame(rs, StaleLatest(rs, aid, fp), aid);
  }

  lemma LatestSame(rs: seq<Request>, later: seq<Request>, aid: Id)
    requires Closing(rs, later)
    ensures Latest(later, aid) == Latest(rs, aid)
  {
    var k, k' := Latest(rs, aid), Latest(later, aid);
    if k.Some? {
      assert later[k.value].attempt == aid;
    }
    if k'.Some? {
      assert rs[k'.value].attempt == aid;
    }
  }

  /** Only closing, except that an approval of `aid` opens the one request that carries `fp`. */
  predicate Granting(prior: seq<Request>, later: seq<Request>, aid: Id, fp: Fingerprint) {
    && |prior| <= |later| <= |prior| + 1
    && (forall q | 0 <= q < |prior| ::
          && later[q].attempt == prior[q].attempt
          && later[q].fingerprint == prior[q].fingerprint
          && (|| later[q].status == prior[q].status
              || (Open(prior[q].status) && !Open(later[q].status))
              || (prior[q].status == ApPending && prior[q].attempt == aid && prior[q].fingerprint == fp)))
    && (|later| > |prior| ==> later[|prior|].attempt == aid && later[|prior|].fingerprint == fp)
  }

  lemma GrantRequestGrants(rs: seq<Request>, aid: Id, fp: Fingerprint)
    ensures Granting(rs, GrantRequest(rs, aid, fp), aid, fp)
  {
    StaleLatestCloses(rs, aid, fp);
  }

  /** Looking changes nothing but the status of requests. */
  lemma LookOnlyCloses(s: State, aid: Id)
    ensures Look(s, aid).0 == s.(requests := Look(s, aid).0.requests)
    ensures Closing(s.requests, Look(s, aid).0.requests)
  {
    if Bundled(s, aid) {
      StaleLatestCloses(s.requests, aid, CurrentFingerprint(s, aid, DefaultMessage(TaskOf(s, aid), aid)));
    }
  }

  lemma StaleAllCloses(rs: seq<Request>, aid: Id, fp: Fingerprint)
    ensures Closing(rs, StaleAll(rs, aid, fp))
  {
  }

  lemma PerformCloses(s: State, aid: Id, git: SquashOutcome)
    requires Bundled(s, aid) && aid in s.reviews
    ensures Closing(s.requests, PerformSquash(s, aid, git).0.requests)
  {
    if git.NewCommit? {
      LookOnlyCloses(MergedState(s, aid, git.sha), aid);
    }
  }

  lemma SquashCloses(s: State, aid: Id, message: Option<string>, git: SquashOutcome)
    ensures Closing(s.requests, Squash(s, aid, message, git).0.requests)
  {
    var (s', reply) := Squash(s, aid, message, git);
    if reply == NoValidApproval {
      StaleAllCloses(s.requests, aid, CurrentFingerprint(s, aid, SquashMessage(s, aid, message)));
    } else if Bundled(s, aid) && aid in s.reviews && (s', reply) == PerformSquash(s, aid, git) {
      PerformCloses(s, aid, git);
    } else {
      assert s'.requests == s.requests;
    }
  }

  lemma RejectCloses(s: State, aid: Id)
    requires Reject(s, aid).1 == Success
    ensures Closing(s.requests, Reject(s, aid).0.requests)
    ensures forall q | 0 <= q < |s.requests| && s.requests[q].attempt == aid ::
              !Open(Reject(s, aid).0.requests[q].status)
  {
    LookOnlyCloses(RejectedState(s, aid), aid);
  }

  lemma GrantThenClose(prior: seq<Request>, granted: seq<Request>, later: seq<Request>, aid: Id, fp: Fingerprint)
    requires Granting(prior, granted, aid, fp) && Closing(granted, later)
    ensures Granting(prior, later, aid, fp)
  {
  }

  lemma ApproveGrants(s: State, aid: Id)
    requires Approve(s, aid).1 == Success
    ensures Granting(s.requests, Approve(s, aid).0.requests, aid, ApprovalFingerprint(s, aid))
    ensures Approve(s, aid).0 == s.(reviews := Approve(s, aid).0.reviews, requests := Approve(s, aid).0.requests)
  {
    var fp, approved := ApprovalFingerprint(s, aid), ApprovedState(s, aid);
    GrantRequestGrants(s.requests, aid, fp);
    LookOnlyCloses(approved, aid);
    GrantThenClose(s.requests, approved.requests, Look(approved, aid).0.requests, aid, fp);
  }

  /** The one request a step may approve: its attempt and its fingerprint. */
  function Granted(s: State, e: Event): set<(Id, Fingerprint)> {
    if e.DoApprove? && Approve(s, e.aid).1 == Success then {(e.aid, ApprovalFingerprint(s, e.aid))} else {}
  }

  /**
   * Requests keep their attempt and fingerprint, a closed one its status; what is new
   * or newly approved is in `granted`.
   */
  predicate RequestsKept(prior: seq<Request>, later: seq<Request>, granted: set<(Id, Fingerprint)>) {
    && |prior| <= |later|
    && (forall q | 0 <= q < |prior| ::
          && later[q].attempt == prior[q].attempt && later[q].fingerprint == prior[q].fingerprint
          && (!Open(prior[q].status) ==> later[q].status == prior[q].status)
          && (prior[q].status == ApPending && later[q].status == ApApproved ==>
                (later[q].attempt, later[q].fingerprint) in granted))
    && forall q | |prior| <= q < |later| :: (later[q].attempt, later[q].fingerprint) in granted
  }

  lemma ClosingKept(prior: seq<Request>, later: seq<Request>, granted: set<(Id, Fingerprint)>)
    requires Closing(prior, later)
    ensures RequestsKept(prior, later, granted)
  {
  }

  lemma GrantingKept(prior: seq<Request>, later: seq<Request>, aid: Id, fp: Fingerprint)
    requires Granting(prior, later, aid, fp)
    ensures RequestsKept(prior, later, {(aid, fp)})
  {
  }

  predicate ReviewEvent(e: Event) {
    e.DoApprove? || e.DoReject? || e.DoPrepare? || e.DoLook? || e.DoSquash?
  }

  lemma OthersKeepRequests(s: State, e: Event)
    requires !ReviewEvent(e)
    ensures Apply(s, e).0.requests == s.requests
  {
  }

  lemma ReviewsCloseRequests(s: State, e: Event)
    requires ReviewEvent(e) && Granted(s, e) == {}
    ensures Closing(s.requests, Apply(s, e).0.requests)
  {
    match e
    case DoReject(aid) => if Reject(s, aid).1 == Success { RejectCloses(s, aid); }
    case DoSquash(aid, message, git) => SquashCloses(s, aid, message, git);
    case DoLook(aid) => LookOnlyCloses(s, aid);
    case DoPrepare(aid) => LookOnlyCloses(s, aid);
    case _ =>
  }

  lemma StepKeepsRequests(s: State, e: Event)
    ensures RequestsKept(s.requests, Apply(s, e).0.requests, Granted(s, e))
  {
    if e.DoApprove? && Approve(s, e.aid).1 == Success {
      ApproveGrants(s, e.aid);
      GrantingKept(s.requests, Approve(s, e.aid).0.requests, e.aid, ApprovalFingerprint(s, e.aid));
    } else {
      if ReviewEvent(e) {
        ReviewsCloseRequests(s, e);
      } else {
        OthersKeepRequests(s, e);
      }
      ClosingKept(s.requests, Apply(s, e).0.requests, Granted(s, e));
    }
  }

  predicate ShasKnown(s: State) {
    forall aid :: aid in s.worktrees && s.worktrees[aid].resultSha.Some? ==> s.worktrees[aid].resultSha.value in s.shas
  }

  /** Only a commit-result gives a worktree a result or makes an attempt committed. */
  predicate NoNewResult(s: State, s': State, aid: Id) {
    && (aid in s'.worktrees && s'.worktrees[aid].resultSha.Some? ==>
          aid in s.worktrees && s.worktrees[aid].resultSha == s'.worktrees[aid].resultSha)
    && (aid in s'.attempts && s'.attempts[aid].status == Committed ==>
          aid in s.attempts && s.attempts[aid].status == Committed)
  }

  lemma SquashKeepsResult(s: State, a: Id, message: Option<string>, git: SquashOutcome, aid: Id)
    ensures NoNewResult(s, Squash(s, a, message, git).0, aid)
  {
    if git.NewCommit? && Bundled(s, a) {
      LookOnlyCloses(MergedState(s, a, git.sha), a);
    }
  }

  lemma RejectKeepsResult(s: State, a: Id, aid: Id)
    ensures NoNewResult(s, Reject(s, a).0, aid)
  {
  }

  lemma CommitKeepsResult(s: State, a: Id, report: Report, aid: Id)
    requires aid != a || CommitResult(s, a, report).1 != Success
    ensures NoNewResult(s, CommitResult(s, a, report).0, aid)
  {
  }

  lemma ApproveKeepsResult(s: State, a: Id, aid: Id)
    ensures NoNewResult(s, Approve(s, a).0, aid)
  {
    if Approve(s, a).1 == Success {
      ApproveGrants(s, a);
    }
  }

  lemma OthersKeepResult(s: State, e: Event, aid: Id)
    requires !ReviewEvent(e) && !e.DoCommit?
    ensures NoNewResult(s, Apply(s, e).0, aid)
  {
  }

  lemma StepKeepsResult(s: State, e: Event, aid: Id)
    requires !Commits(s, e, aid)
    ensures NoNewResult(s, Apply(s, e).0, aid)
  {
    match e
    case DoApprove(a) => ApproveKeepsResult(s, a, aid);
    case DoSquash(a, message, git) => SquashKeepsResult(s, a, message, git, aid);
    case DoReject(a) => RejectKeepsResult(s, a, aid);
    case DoCommit(a, report) => CommitKeepsResult(s, a, report, aid);
    case DoLook(a) => LookOnlyCloses(s, a);
    case DoPrepare(a) => LookOnlyCloses(s, a);
    case _ => OthersKeepResult(s, e, aid);
  }

  lemma ShasMonotone(s: State, e: Event)
    ensures s.shas <= Apply(s, e).0.shas
  {
  }

  lemma CommitShaKnown(s: State, e: Event, aid: Id)
    requires Commits(s, e, aid)
    ensures aid in Apply(s, e).0.worktrees && Apply(s, e).0.worktrees[aid].resultSha == e.report.commit
    ensures e.report.commit.Some? && e.report.commit.value in Apply(s, e).0.shas
  {
  }

  lemma StepKeepsShas(s: State, e: Event)
    requires ShasKnown(s)
    ensures ShasKnown(Apply(s, e).0) && s.shas <= Apply(s, e).0.shas
  {
    var s' := Apply(s, e).0;
    ShasMonotone(s, e);
    forall aid | aid in s'.worktrees && s'.worktrees[aid].resultSha.Some?
      ensures s'.worktrees[aid].resultSha.value in s'.shas
    {
      if Commits(s, e, aid) {
        CommitShaKnown(s, e, aid);
      } else {
        StepKeepsResult(s, e, aid);
      }
    }
  }

  // ------------------------------------------------------------------- whole runs

  /** The last commit-result of `aid` among `es`. */
  function LastCommit(s: State, es: seq<Event>, aid: Id): (j: Option<nat>)
    ensures j.Some? ==> j.value < |es| && es[j.value].DoCommit?
  {
    if es == [] then None
    else if Commits(After(s, es[..|es| - 1]), es[|es| - 1], aid) then Some(|es| - 1)
    else LastCommit(s, es[..|es| - 1], aid)
  }

  /** It is a commit-result, and no later event is one. */
  lemma {:induction false} LastCommitIsLast(s: State, es: seq<Event>, aid: Id, c: nat)
    requires c < |es| && Commits(At(s, es, c), es[c], aid)
    ensures LastCommit(s, es, aid).Some? && c <= LastCommit(s, es, aid).value
  {
    if c < |es| - 1 {
      Prefixes(s, es, c);
      LastCommitIsLast(s, es[..|es| - 1], aid, c);
    }
  }

  lemma {:induction false} LastCommitCommits(s: State, es: seq<Event>, aid: Id)
    requires LastCommit(s, es, aid).Some?
    ensures var j := LastCommit(s, es, aid).value;
            Commits(At(s, es, j), es[j], aid)
  {
    if LastCommit(s, es, aid).value < |es| - 1 {
      LastCommitCommits(s, es[..|es| - 1], aid);
      Prefixes(s, es, LastCommit(s, es, aid).value);
    }
  }

  /** A result sha in the database is the one of the last commit-result. */
  lemma {:induction false} ResultFromCommit(s: State, es: seq<Event>, aid: Id)
    requires Run(s, es)
    requires aid in After(s, es).worktrees && After(s, es).worktrees[aid].resultSha.Some?
    ensures var j := LastCommit(s, es, aid);
            j.Some? && es[j.value].report.commit == After(s, es).worktrees[aid].resultSha
  {
    if es != [] {
      var init, e := es[..|es| - 1], es[|es| - 1];
      if Commits(After(s, init), e, aid) {
        CommitShaKnown(After(s, init), e, aid);
      } else {
        StepKeepsResult(After(s, init), e, aid);
        RunPrefix(s, es);
        ResultFromCommit(s, init, aid);
      }
    }
  }

  /** Event `k` approves `aid` and computes the fingerprint `fp`. */
  ghost predicate ApprovedAs(s: State, es: seq<Event>, k: nat, aid: Id, fp: Fingerprint) {
    && k < |es| && Approves(At(s, es, k), es[k], aid)
    && ApprovalFingerprint(At(s, es, k), aid) == fp
  }

  /** A request after a step is one from before, or the step is the approval it stands for. */
  lemma RequestOfStep(s: State, e: Event, q: nat)
    requires q < |Apply(s, e).0.requests|
    ensures var r := Apply(s, e).0.requests[q];
            if q < |s.requests|
            then r.attempt == s.requests[q].attempt && r.fingerprint == s.requests[q].fingerprint
            else Approves(s, e, r.attempt) && ApprovalFingerprint(s, r.attempt) == r.fingerprint
  {
    StepKeepsRequests(s, e);
  }

  lemma ApprovedEarlier(s: State, es: seq<Event>, k: nat, aid: Id, fp: Fingerprint)
    requires es != [] && ApprovedAs(s, es[..|es| - 1], k, aid, fp)
    ensures ApprovedAs(s, es, k, aid, fp)
  {
    Prefixes(s, es, k);
  }

  /** Every request stands for an approval that saw the worktree its fingerprint describes. */
  lemma {:induction false} RequestFromApproval(s: State, es: seq<Event>, q: nat)
    requires Run(s, es) && q < |After(s, es).requests|
    ensures var r := After(s, es).requests[q];
            exists k: nat :: ApprovedAs(s, es, k, r.attempt, r.fingerprint)
  {
    if es != [] {
      var init := es[..|es| - 1];
      var r := After(s, es).requests[q];
      RequestOfStep(After(s, init), es[|es| - 1], q);
      if q < |After(s, init).requests| {
        RunPrefix(s, es);
        RequestFromApproval(s, init, q);
        var k: nat :| ApprovedAs(s, init, k, r.attempt, r.fingerprint);
        ApprovedEarlier(s, es, k, r.attempt, r.fingerprint);
      } else {
        assert ApprovedAs(s, es, |es| - 1, r.attempt, r.fingerprint);
      }
    }
  }

  lemma {:induction false} ShasGrow(s: State, es: seq<Event>, i: nat, j: nat)
    requires Run(s, es) && i <= j <= |es|
    ensures ShasKnown(At(s, es, i)) && At(s, es, i).shas <= At(s, es, j).shas
    decreases j
  {
    if j == 0 {
      assert es[..0] == [];
    } else if i < j {
      ShasGrow(s, es, i, j - 1);
      ShasGrow(s, es, j - 1, j - 1);
      Prefixes(s, es, j - 1);
      StepKeepsShas(At(s, es, j - 1), es[j - 1]);
    } else {
      ShasGrow(s, es, i - 1, j - 1);
      Prefixes(s, es, j - 1);
      StepKeepsShas(At(s, es, j - 1), es[j - 1]);
    }
  }

  lemma RunTake(s: State, es: seq<Event>, i: nat)
    requires Run(s, es) && i <= |es|
    ensures Run(s, es[..i])
    ensures forall m | 0 <= m <= i :: At(s, es[..i], m) == At(s, es, m)
  {
    assert forall m | 0 <= m <= i :: es[..i][..m] == es[..m];
  }

  /** The commit took in nothing outside the write scope of the attempt's task. */
  predicate CommitsInScope(s: State, e: Event, aid: Id) {
    && Commits(s, e, aid)
    && aid in s.attempts && s.attempts[aid].task in s.tasks
    && InScope(e.report.porcelain, s.tasks[s.attempts[aid].task].writeScope)
  }

  /** The repository can be read, has no local changes, and stands where the worktree was cut from it. */
  predicate CleanOnBase(r: Repo, w: Worktree) {
    r.readable && !r.dirty && r.head == Some(w.baseSha) && r.branch == w.baseBranch
  }

  /** What is squashed `now` is what was `approved`: same base, result and message, clean source. */
  predicate AsApproved(now: State, e: Event, approved: State, aid: Id) {
    && e.DoSquash? && Bundled(now, aid) && Bundled(approved, aid)
    && approved.worktrees[aid].resultSha == now.worktrees[aid].resultSha
    && CleanOnBase(RepoOf(now, aid), approved.worktrees[aid])
    && (if e.message.Some? && e.message.value != "" then e.message.value
        else DefaultMessage(TaskOf(now, aid), aid)) == DefaultMessage(TaskOf(approved, aid), aid)
  }

  /**
   * Where a squash at `i` comes from: commit-result `j`, its last, whose report lay
   * inside the task's write scope; then approval `k` of exactly this result on this
   * base with the default message; and a clean source repository on that base.
   */
  ghost predicate Provenance(s: State, es: seq<Event>, i: nat, aid: Id, j: nat, k: nat) {
    && j < k < i < |es|
    && LastCommit(s, es[..i], aid) == Some(j)
    && CommitsInScope(At(s, es, j), es[j], aid)
    && aid in At(s, es, i).worktrees && es[j].report.commit == At(s, es, i).worktrees[aid].resultSha
    && Approves(At(s, es, k), es[k], aid)
    && AsApproved(At(s, es, i), es[i], At(s, es, k), aid)
  }

  lemma FingerprintBinds(now: State, e: Event, approved: State, aid: Id)
    requires Squashes(now, e, aid) && Bundled(now, aid) && Bundled(approved, aid)
    requires CurrentFingerprint(now, aid, SquashMessage(now, aid, e.message)) == ApprovalFingerprint(approved, aid)
    ensures AsApproved(now, e, approved, aid)
  {
    SquashChecks(now, e, aid);
  }

  lemma SquashChecks(s: State, e: Event, aid: Id)
    requires Squashes(s, e, aid)
    ensures Bundled(s, aid) && EnsureCommitted(s, aid)
    ensures CleanOnBase(RepoOf(s, aid), s.worktrees[aid])
    ensures HasApproved(s.requests, CurrentFingerprint(s, aid, SquashMessage(s, aid, e.message)))
    ensures e.git.NewCommit?
  {
  }

  /** The request a squash finds was approved for its attempt, with the fingerprint it has. */
  lemma FoundApproval(s: State, es: seq<Event>, aid: Id, fp: Fingerprint) returns (k: nat)
    requires Run(s, es) && HasApproved(After(s, es).requests, fp) && fp.attempt == aid
    ensures ApprovedAs(s, es, k, aid, fp)
  {
    var rs := After(s, es).requests;
    var q :| 0 <= q < |rs| && rs[q].fingerprint == fp && rs[q].status == ApApproved;
    RequestFromApproval(s, es, q);
    k :| ApprovedAs(s, es, k, rs[q].attempt, fp);
  }

  /** The approval a squash relies on. */
  lemma SquashApproval(s: State, es: seq<Event>, i: nat, aid: Id) returns (k: nat)
    requires Run(s, es) && i < |es| && Squashes(At(s, es, i), es[i], aid)
    ensures k < i && Approves(At(s, es, k), es[k], aid) && AsApproved(At(s, es, i), es[i], At(s, es, k), aid)
  {
    var now := At(s, es, i);
    SquashChecks(now, es[i], aid);
    RunTake(s, es, i);
    k := FoundApproval(s, es[..i], aid, CurrentFingerprint(now, aid, SquashMessage(now, aid, es[i].message)));
    assert At(s, es[..i], k) == At(s, es, k) && es[..i][k] == es[k];
    FingerprintBinds(now, es[i], At(s, es, k), aid);
  }

  /** The approval saw the result of commit `j`, which nobody had seen before event `j`. */
  lemma ApprovalAfterCommit(s: State, es: seq<Event>, j: nat, k: nat, aid: Id)
    requires Run(s, es) && j < |es| && k < |es| && Commits(At(s, es, j), es[j], aid)
    requires aid in At(s, es, k).worktrees && At(s, es, k).worktrees[aid].resultSha == es[j].report.commit
    ensures j < k
  {
    if k <= j {
      ShasGrow(s, es, k, j);
    }
  }

  /** The commit-result whose sha a squash merges. */
  lemma SquashCommit(s: State, es: seq<Event>, i: nat, aid: Id) returns (j: nat)
    requires Run(s, es) && i < |es| && Squashes(At(s, es, i), es[i], aid)
    ensures j < i && LastCommit(s, es[..i], aid) == Some(j) && CommitsInScope(At(s, es, j), es[j], aid)
    ensures aid in At(s, es, i).worktrees && es[j].report.commit == At(s, es, i).worktrees[aid].resultSha
  {
    var past := es[..i];
    SquashChecks(At(s, es, i), es[i], aid);
    RunTake(s, es, i);
    ResultFromCommit(s, past, aid);
    j := LastCommit(s, past, aid).value;
    LastCommitCommits(s, past, aid);
    assert At(s, past, j) == At(s, es, j) && past[j] == es[j];
    CommitInScope(At(s, es, j), es[j], aid);
  }

  lemma CommitInScope(s: State, e: Event, aid: Id)
    requires Commits(s, e, aid)
    ensures CommitsInScope(s, e, aid)
  {
  }

  /** In terms of files: every path the commit took lies under a scope entry and respects both flags. */
  lemma CommittedPathsAcceptable(s: State, e: Event, aid: Id)
    requires CommitsInScope(s, e, aid)
    ensures var scope := NormalizeScope(s.tasks[s.attempts[aid].task].writeScope);
            && scope.Ok?
            && forall c :: c in Porcelain.ParseSpec(e.report.porcelain).value ==>
                 WriteScopeCoverage.Acceptable(c, scope.value)
  {
    WriteScopeCoverage.ValidationExact(
      Porcelain.ParseSpec(e.report.porcelain).value, s.tasks[s.attempts[aid].task].writeScope);
  }

  /** Every successful squash, in every run, has its provenance. */
  lemma SquashProvenance(s: State, es: seq<Event>, i: nat, aid: Id)
    requires Run(s, es) && i < |es| && Squashes(At(s, es, i), es[i], aid)
    ensures exists j: nat, k: nat :: Provenance(s, es, i, aid, j, k)
  {
    var j := SquashCommit(s, es, i, aid);
    var k := SquashApproval(s, es, i, aid);
    ApprovalAfterCommit(s, es, j, k, aid);
    assert Provenance(s, es, i, aid, j, k);
  }

  predicate AttemptCommitted(s: State, aid: Id) {
    aid in s.attempts && s.attempts[aid].status == Committed
  }

  lemma OnlyCommitCommits(s: State, es: seq<Event>, i: nat, aid: Id)
    requires i < |es| && AttemptCommitted(At(s, es, i + 1), aid)
    ensures AttemptCommitted(At(s, es, i), aid) || Commits(At(s, es, i), es[i], aid)
  {
    Prefixes(s, es, i);
    if !Commits(At(s, es, i), es[i], aid) {
      StepKeepsResult(At(s, es, i), es[i], aid);
    }
  }

  /** Whenever an attempt is not committed, a later squash of it needs a commit-result in between. */
  lemma {:induction false} RecommitNeeded(s: State, es: seq<Event>, m: nat, i: nat, aid: Id)
    requires m <= i <= |es|
    requires !AttemptCommitted(At(s, es, m), aid) && AttemptCommitted(At(s, es, i), aid)
    ensures exists j: nat :: m <= j < i && Commits(At(s, es, j), es[j], aid)
    decreases i
  {
    OnlyCommitCommits(s, es, i - 1, aid);
    if AttemptCommitted(At(s, es, i - 1), aid) {
      RecommitNeeded(s, es, m, i - 1, aid);
    }
  }

  /** A squash that succeeds is the merge, with a look at the result. */
  lemma SquashIsMerge(s: State, aid: Id, message: Option<string>, git: SquashOutcome)
    requires Squash(s, aid, message, git).1 == Success
    ensures Bundled(s, aid) && git.NewCommit?
    ensures Squash(s, aid, message, git).0 == Look(MergedState(s, aid, git.sha), aid).0
  {
  }

  /** What a squash leaves, and that it touches nobody else's rows. */
  lemma SquashLeaves(s: State, e: Event, aid: Id)
    requires Squashes(s, e, aid)
    ensures var s', a := Apply(s, e).0, s.attempts[aid];
            && s'.attempts == s.attempts[aid := a.(status := Merged)]
            && s'.tasks == s.tasks[a.task := s.tasks[a.task].(status := Completed)]
            && s'.worktrees == s.worktrees[aid := s.worktrees[aid].(status := CleanupPending)]
            && s'.reviews == s.reviews[aid := Review(RvMerged, Some(e.git.sha))]
            && s'.repos == s.repos[a.repo.value := s.repos[a.repo.value].(head := Some(e.git.sha))]
  {
    SquashIsMerge(s, aid, e.message, e.git);
    LookOnlyCloses(MergedState(s, aid, e.git.sha), aid);
  }

  /** Two squashes of one attempt have a commit-result between them. */
  lemma TwoSquashes(s: State, es: seq<Event>, first: nat, second: nat, aid: Id)
    requires Run(s, es) && first < second < |es|
    requires Squashes(At(s, es, first), es[first], aid) && Squashes(At(s, es, second), es[second], aid)
    ensures exists j: nat :: first < j < second && Commits(At(s, es, j), es[j], aid)
  {
    SquashLeaves(At(s, es, first), es[first], aid);
    SquashChecks(At(s, es, second), es[second], aid);
    Prefixes(s, es, first);
    RecommitNeeded(s, es, first + 1, second, aid);
  }

  lemma CommitInPast(s: State, es: seq<Event>, c: nat, i: nat, aid: Id)
    requires c < i <= |es| && Commits(At(s, es, c), es[c], aid)
    ensures LastCommit(s, es[..i], aid).Some? && c <= LastCommit(s, es[..i], aid).value
  {
    assert es[..i][c] == es[c] && es[..i][..c] == es[..c];
    LastCommitIsLast(s, es[..i], aid, c);
  }

  lemma CommitAfterSquash(s: State, es: seq<Event>, first: nat, second: nat, aid: Id)
    requires Run(s, es) && first < second < |es|
    requires Squashes(At(s, es, first), es[first], aid) && Squashes(At(s, es, second), es[second], aid)
    ensures LastCommit(s, es[..second], aid).Some? && first < LastCommit(s, es[..second], aid).value
  {
    TwoSquashes(s, es, first, second, aid);
    var c: nat :| first < c < second && Commits(At(s, es, c), es[c], aid);
    CommitInPast(s, es, c, second, aid);
  }

  /**
   * And they rest on two different commits and approvals: whatever the provenance of
   * each, that of the second lies after the first squash.
   */
  lemma SquashesRestApart(
      s: State, es: seq<Event>, first: nat, second: nat, aid: Id, j: nat, k: nat, j': nat, k': nat)
    requires Run(s, es) && first < second < |es|
    requires Squashes(At(s, es, first), es[first], aid) && Squashes(At(s, es, second), es[second], aid)
    requires Provenance(s, es, first, aid, j, k) && Provenance(s, es, second, aid, j', k')
    ensures j < k < first < j' < k' < second
  {
    CommitAfterSquash(s, es, first, second, aid);
  }

  lemma CommitAfterReject(s: State, es: seq<Event>, rejected: nat, i: nat, aid: Id)
    requires rejected < i < |es| && Squashes(At(s, es, i), es[i], aid)
    requires es[rejected].DoReject? && es[rejected].aid == aid && Succeeds(At(s, es, rejected), es[rejected])
    ensures LastCommit(s, es[..i], aid).Some? && rejected < LastCommit(s, es[..i], aid).value
  {
    RejectedThen(s, es, rejected, aid);
    SquashChecks(At(s, es, i), es[i], aid);
    RecommitNeeded(s, es, rejected + 1, i, aid);
    var c: nat :| rejected + 1 <= c < i && Commits(At(s, es, c), es[c], aid);
    CommitInPast(s, es, c, i, aid);
  }

  lemma RejectedThen(s: State, es: seq<Event>, m: nat, aid: Id)
    requires m < |es| && es[m].DoReject? && es[m].aid == aid && Succeeds(At(s, es, m), es[m])
    ensures !AttemptCommitted(At(s, es, m + 1), aid)
  {
    Prefixes(s, es, m);
    RejectedStatus(At(s, es, m), aid);
  }

  /** After a rejection the same holds: the work and its approval are both new. */
  lemma SquashAfterReject(s: State, es: seq<Event>, rejected: nat, i: nat, aid: Id)
    requires Run(s, es) && rejected < i < |es| && Squashes(At(s, es, i), es[i], aid)
    requires es[rejected].DoReject? && es[rejected].aid == aid && Succeeds(At(s, es, rejected), es[rejected])
    ensures exists j: nat, k: nat :: rejected < j && Provenance(s, es, i, aid, j, k)
  {
    SquashProvenance(s, es, i, aid);
    CommitAfterReject(s, es, rejected, i, aid);
  }

  lemma RejectedStatus(s: State, aid: Id)
    requires Reject(s, aid).1 == Success
    ensures aid in Reject(s, aid).0.attempts && Reject(s, aid).0.attempts[aid].status == Rejected
  {
  }

  predicate TaskCompleted(s: State, tid: Id) {
    tid in s.tasks && s.tasks[tid].status == Completed
  }

  lemma OthersCompleteNothing(s: State, e: Event, tid: Id)
    requires !ReviewEvent(e) && !e.UpdateTask? && !TaskCompleted(s, tid)
    ensures !TaskCompleted(Apply(s, e).0, tid)
  {
  }

  /** Nor does the status endpoint: its table has the completion taken out. */
  lemma UpdateCompletesNothing(s: State, id: Id, target: TaskStatus, tid: Id)
    requires !TaskCompleted(s, tid)
    ensures !TaskCompleted(Apply(s, UpdateTask(id, target)).0, tid)
  {
    if id in s.tasks {
      var current := s.tasks[id].status;
      if Transitions.TaskPubliclyAllowed(current, target) && current != target {
        Transitions.PublicTaskUpdates(current, target);
      }
    }
  }

  lemma LooksKeepTasks(s: State, e: Event)
    requires e.DoApprove? || e.DoLook? || e.DoPrepare?
    ensures Apply(s, e).0.tasks == s.tasks
  {
    LookOnlyCloses(s, e.aid);
    if e.DoApprove? && Approve(s, e.aid).1 == Success {
      ApproveGrants(s, e.aid);
    }
  }

  lemma RejectCompletesNothing(s: State, aid: Id, tid: Id)
    requires !TaskCompleted(s, tid)
    ensures !TaskCompleted(Reject(s, aid).0, tid)
  {
  }

  lemma SquashCompletes(s: State, aid: Id, message: Option<string>, git: SquashOutcome, tid: Id)
    requires !TaskCompleted(s, tid) && TaskCompleted(Squash(s, aid, message, git).0, tid)
    ensures Squash(s, aid, message, git).1 == Success && s.attempts[aid].task == tid
  {
    if git.NewCommit? && Bundled(s, aid) {
      LookOnlyCloses(MergedState(s, aid, git.sha), aid);
    }
  }

  /** A task becomes completed only by a successful squash of one of its attempts. */
  lemma CompletedOnlyBySquash(s: State, e: Event, tid: Id)
    requires !TaskCompleted(s, tid) && TaskCompleted(Apply(s, e).0, tid)
    ensures e.DoSquash? && Squashes(s, e, e.aid) && s.attempts[e.aid].task == tid
  {
    if e.DoSquash? {
      SquashCompletes(s, e.aid, e.message, e.git, tid);
    } else if ReviewEvent(e) {
      if e.DoReject? { RejectCompletesNothing(s, e.aid, tid); } else { LooksKeepTasks(s, e); }
    } else if e.UpdateTask? {
      UpdateCompletesNothing(s, e.tid, e.taskStatus, tid);
    } else {
      OthersCompleteNothing(s, e, tid);
    }
  }

  // -------------------------------------------------------- approval requests

  /** Request `q` is `r`, and closed. */
  predicate ClosedAs(s: State, q: nat, r: Request) {
    q < |s.requests| && s.requests[q] == r && !Open(r.status)
  }

  lemma ClosedStep(s: State, es: seq<Event>, j: nat, q: nat, r: Request)
    requires j < |es| && ClosedAs(At(s, es, j), q, r)
    ensures ClosedAs(At(s, es, j + 1), q, r)
  {
    Prefixes(s, es, j);
    StepKeepsRequests(At(s, es, j), es[j]);
  }

  lemma {:induction false} StaysClosedAs(s: State, es: seq<Event>, i: nat, j: nat, q: nat, r: Request)
    requires i <= j <= |es| && ClosedAs(At(s, es, i), q, r)
    ensures ClosedAs(At(s, es, j), q, r)
    decreases j
  {
    if i < j {
      StaysClosedAs(s, es, i, j - 1, q, r);
      ClosedStep(s, es, j - 1, q, r);
    }
  }

  /** Over any stretch of a run a closed request keeps its status for good. */
  lemma ClosedStaysClosed(s: State, es: seq<Event>, i: nat, j: nat, q: nat)
    requires i <= j <= |es| && q < |At(s, es, i).requests| && !Open(At(s, es, i).requests[q].status)
    ensures q < |At(s, es, j).requests| && At(s, es, j).requests[q] == At(s, es, i).requests[q]
  {
    StaysClosedAs(s, es, i, j, q, At(s, es, i).requests[q]);
  }

  /** A squash refused for want of a valid approval leaves the attempt without any. */
  lemma RefusedSquashClears(s: State, aid: Id, message: Option<string>, git: SquashOutcome)
    requires Squash(s, aid, message, git).1 == NoValidApproval
    ensures var rs := Squash(s, aid, message, git).0.requests;
            forall q | 0 <= q < |rs| && rs[q].attempt == aid :: rs[q].status != ApApproved
  {
    var fp := CurrentFingerprint(s, aid, SquashMessage(s, aid, message));
    var rs := Squash(s, aid, message, git).0.requests;
    forall q | 0 <= q < |rs| && rs[q].attempt == aid ensures rs[q].status != ApApproved {
      assert rs[q] == StaleOne(s.requests[q], aid, fp);
    }
  }

  lemma GrantedIsApproved(rs: seq<Request>, aid: Id, fp: Fingerprint)
    ensures var granted := GrantRequest(rs, aid, fp);
            HasApproved(granted, fp) && StaleLatest(granted, aid, fp) == granted
  {
    var staled, granted := StaleLatest(rs, aid, fp), GrantRequest(rs, aid, fp);
    var k := Latest(staled, aid);
    StaleLatestCloses(rs, aid, fp);
    if k.Some? && staled[k.value].status == ApPending {
      assert granted[k.value].fingerprint == fp && granted[k.value].status == ApApproved;
    } else {
      assert granted[|granted| - 1] == Request(aid, fp, ApApproved);
    }
  }

  lemma ApproveAtBase(s: State, aid: Id)
    requires Approve(s, aid).1 == Success && CleanOnBase(RepoOf(s, aid), s.worktrees[aid])
    ensures Approve(s, aid).0.requests == GrantRequest(s.requests, aid, ApprovalFingerprint(s, aid))
    ensures ReviewApproved(Approve(s, aid).0, aid)
  {
    var fp := ApprovalFingerprint(s, aid);
    assert fp == CurrentFingerprint(s, aid, DefaultMessage(TaskOf(s, aid), aid));
    GrantedIsApproved(s.requests, aid, fp);
  }

  /** A squash passes its checks. */
  lemma SquashGoesThrough(s: State, aid: Id, sha: Sha)
    requires Bundled(s, aid) && EnsureCommitted(s, aid) && ReviewApproved(s, aid)
    requires HasApproved(s.requests, CurrentFingerprint(s, aid, DefaultMessage(TaskOf(s, aid), aid)))
    requires CleanOnBase(RepoOf(s, aid), s.worktrees[aid])
    ensures Squash(s, aid, None, NewCommit(sha)).1 == Success
  {
  }

  /** The first squash at an approved commit succeeds unless the repository moved or git fails. */
  lemma ApproveThenSquash(s: State, aid: Id, sha: Sha)
    requires Approve(s, aid).1 == Success
    ensures var approved := Approve(s, aid).0;
            Squash(approved, aid, None, NewCommit(sha)).1 == Success <==>
              CleanOnBase(RepoOf(s, aid), s.worktrees[aid])
  {
    var approved := Approve(s, aid).0;
    ApproveGrants(s, aid);
    if CleanOnBase(RepoOf(s, aid), s.worktrees[aid]) {
      ApproveAtBase(s, aid);
      GrantedIsApproved(s.requests, aid, ApprovalFingerprint(s, aid));
      SquashGoesThrough(approved, aid, sha);
    } else if Squash(approved, aid, None, NewCommit(sha)).1 == Success {
      SquashChecks(approved, DoSquash(aid, None, NewCommit(sha)), aid);
    }
  }

  /** The whole path: work just committed can be approved, and then squashed under the same condition. */
  lemma CommittedWorkCanBeMerged(s: State, aid: Id, report: Report, sha: Sha)
    requires Bundled(s, aid) && CommitResult(s, aid, report).1 == Success
    ensures var committed := CommitResult(s, aid, report).0;
            && Approve(committed, aid).1 == Success
            && (Squash(Approve(committed, aid).0, aid, None, NewCommit(sha)).1 == Success <==>
                  CleanOnBase(RepoOf(s, aid), s.worktrees[aid]))
  {
    var committed := CommitResult(s, aid, report).0;
    CommitLeaves(s, aid, report);
    ApproveThenSquash(committed, aid, sha);
  }

  lemma CommitLeaves(s: State, aid: Id, report: Report)
    requires Bundled(s, aid) && CommitResult(s, aid, report).1 == Success
    ensures var c := CommitResult(s, aid, report).0;
            && Bundled(c, aid) && EnsureCommitted(c, aid) && RepoOf(c, aid) == RepoOf(s, aid)
            && c.worktrees[aid].baseSha == s.worktrees[aid].baseSha
            && c.worktrees[aid].baseBranch == s.worktrees[aid].baseBranch
            && TaskOf(c, aid).status == WaitingForReview
  {
  }
}
