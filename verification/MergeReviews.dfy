/** What reviews and approval requests decide, and for how long. */
module MergeReviews {
  import opened Common
  import opened Statuses
  import opened MergePipeline
  import opened MergeProvenance
  import MergeRepository
  import Transitions

  // --------------------------------------------------------------- the message

  /** The message a squash would use when none is given. */
  function OwnMessage(s: State, aid: Id): string
    requires Bundled(s, aid)
  {
    DefaultMessage(s.tasks[s.attempts[aid].task], aid)
  }

  lemma SameMessage(s: State, es: seq<Event>, k: nat, i: nat, aid: Id)
    requires k <= i <= |es| && Bundled(At(s, es, k), aid) && Bundled(At(s, es, i), aid)
    ensures OwnMessage(At(s, es, k), aid) == OwnMessage(At(s, es, i), aid)
  {
    MergeRepository.RowsLast(s, es, k, i, aid, At(s, es, k).attempts[aid].task);
  }

  /** In every run, what is squashed carries the default message, asked for or not. */
  lemma OnlyDefaultMessage(s: State, es: seq<Event>, i: nat, aid: Id)
    requires Run(s, es) && i < |es| && Squashes(At(s, es, i), es[i], aid)
    ensures Bundled(At(s, es, i), aid)
    ensures var message := es[i].message;
            message.None? || message.value == "" || message.value == OwnMessage(At(s, es, i), aid)
  {
    var k := SquashApproval(s, es, i, aid);
    SameMessage(s, es, k, i, aid);
  }

  lemma RunApproved(s: State, es: seq<Event>, aid: Id)
    requires Run(s, es)
    ensures Run(s, es + [DoApprove(aid)])
    ensures After(s, es + [DoApprove(aid)]) == Approve(After(s, es), aid).0
  {
    var more := es + [DoApprove(aid)];
    assert forall i | 0 <= i <= |es| :: more[..i] == es[..i];
    assert es[..|es|] == es && more[..|es| + 1] == more;
    Prefixes(s, more, |es|);
    forall i | 0 <= i < |more| ensures FreshCommit(At(s, more, i), more[i]) {
      if i < |es| {
        assert FreshCommit(At(s, es, i), es[i]);
      }
    }
  }

  lemma NoForeignApproval(s: State, es: seq<Event>, aid: Id, message: string)
    requires Run(s, es) && Bundled(After(s, es), aid) && message != OwnMessage(After(s, es), aid)
    ensures !HasApproved(After(s, es).requests, CurrentFingerprint(After(s, es), aid, message))
  {
    var fp := CurrentFingerprint(After(s, es), aid, message);
    if HasApproved(After(s, es).requests, fp) {
      var k := FoundApproval(s, es, aid, fp);
      assert es[..|es|] == es;
      SameMessage(s, es, k, |es|, aid);
    }
  }

  /** Right after an approval, a squash with a message of its own is refused for want of a valid approval. */
  lemma ForeignMessageRefused(s: State, es: seq<Event>, aid: Id, message: string, git: SquashOutcome)
    requires Run(s, es) && Approve(After(s, es), aid).1 == Success
    requires message != "" && message != OwnMessage(After(s, es), aid)
    ensures Squash(Approve(After(s, es), aid).0, aid, Some(message), git).1 == NoValidApproval
  {
    var now := After(s, es);
    RunApproved(s, es, aid);
    ApproveGrants(now, aid);
    NoForeignApproval(s, es + [DoApprove(aid)], aid, message);
    ApprovedReview(now, aid);
  }

  lemma ApprovedReview(s: State, aid: Id)
    requires Approve(s, aid).1 == Success
    ensures aid in Approve(s, aid).0.reviews && Approve(s, aid).0.reviews[aid].status == RvApproved
  {
  }

  // --------------------------------------------------------------- preparation

  /** What prepare answers for committed work, in terms of the repository. */
  lemma PrepareExact(s: State, aid: Id)
    requires Bundled(s, aid) && EnsureCommitted(s, aid)
    ensures Prepare(s, aid).1 == Success <==> CleanOnBase(RepoOf(s, aid), s.worktrees[aid])
    ensures Prepare(s, aid).1 == SourceDirty <==> !RepoOf(s, aid).readable || RepoOf(s, aid).dirty
    ensures Prepare(s, aid).1 in {Success, SourceDirty, BaseStale}
  {
  }

  /** On approved work prepare forecasts the squash, before which it may be called as often as one likes. */
  lemma PrepareForecasts(s: State, aid: Id, sha: Sha)
    requires Approve(s, aid).1 == Success
    ensures var approved := Approve(s, aid).0;
            && (Prepare(approved, aid).1 == Success <==> Squash(approved, aid, None, NewCommit(sha)).1 == Success)
            && (Prepare(approved, aid).1 == Success ==> Prepare(approved, aid).0 == approved)
  {
    var approved := Approve(s, aid).0;
    ApproveGrants(s, aid);
    ApproveThenSquash(s, aid, sha);
    PrepareExact(approved, aid);
    if CleanOnBase(RepoOf(s, aid), s.worktrees[aid]) {
      ApproveAtBase(s, aid);
      GrantedIsApproved(s.requests, aid, ApprovalFingerprint(s, aid));
    }
  }

  // ------------------------------------------------------------ without a review

  /** There is no review of the attempt that lets a squash through. */
  predicate Unreviewed(s: State, aid: Id) {
    aid in s.reviews ==> s.reviews[aid].status != RvApproved && s.reviews[aid].status != RvMergePrepared
  }

  lemma MergeKeepsUnreviewed(s: State, a: Id, git: SquashOutcome, aid: Id)
    requires Unreviewed(s, aid) && Bundled(s, a) && a in s.reviews
    ensures Unreviewed(PerformSquash(s, a, git).0, aid)
  {
    if git.NewCommit? {
      LookOnlyCloses(MergedState(s, a, git.sha), a);
    }
  }

  lemma SquashKeepsUnreviewed(s: State, a: Id, message: Option<string>, git: SquashOutcome, aid: Id)
    requires Unreviewed(s, aid)
    ensures Unreviewed(Squash(s, a, message, git).0, aid)
  {
    if Bundled(s, a) && a in s.reviews {
      MergeKeepsUnreviewed(s, a, git, aid);
    }
  }

  lemma RejectKeepsUnreviewed(s: State, a: Id, aid: Id)
    requires Unreviewed(s, aid)
    ensures Unreviewed(Reject(s, a).0, aid)
  {
  }

  lemma OthersKeepReviews(s: State, e: Event)
    requires !ReviewEvent(e)
    ensures Apply(s, e).0.reviews == s.reviews
  {
  }

  lemma StepKeepsUnreviewed(s: State, e: Event, aid: Id)
    requires Unreviewed(s, aid) && !Approves(s, e, aid)
    ensures Unreviewed(Apply(s, e).0, aid)
  {
    match e
    case DoSquash(a, message, git) => SquashKeepsUnreviewed(s, a, message, git, aid);
    case DoLook(a) => LookOnlyCloses(s, a);
    case DoPrepare(a) => LookOnlyCloses(s, a);
    case DoApprove(a) => if Approve(s, a).1 == Success { OtherReviewsStay(s, a, aid); }
    case DoReject(a) => RejectKeepsUnreviewed(s, a, aid);
    case _ => OthersKeepReviews(s, e);
  }

  lemma UnreviewedRefused(s: State, aid: Id, message: Option<string>, git: SquashOutcome)
    requires Unreviewed(s, aid)
    ensures Squash(s, aid, message, git).1 in {RecordsIncomplete, NotCommitted, ApprovalRequired}
  {
  }

  lemma OtherReviewsStay(s: State, a: Id, aid: Id)
    requires a != aid
    ensures aid in Approve(s, a).0.reviews <==> aid in s.reviews
    ensures aid in s.reviews ==> Approve(s, a).0.reviews[aid] == s.reviews[aid]
  {
  }

  /** A rejection, a merge that git could not do, and a merge done. */
  predicate EndsReview(s: State, e: Event, aid: Id) {
    || (e.DoReject? && e.aid == aid && Succeeds(s, e))
    || (e.DoSquash? && e.aid == aid && (Succeeds(s, e) || Apply(s, e).1 == MergeFailed))
  }

  lemma EndedUnreviewed(s: State, e: Event, aid: Id)
    requires EndsReview(s, e, aid)
    ensures Unreviewed(Apply(s, e).0, aid)
  {
    if Squashes(s, e, aid) {
      SquashLeaves(s, e, aid);
    }
  }

  predicate ApprovedAt(s: State, es: seq<Event>, m: nat, aid: Id) {
    m < |es| && Approves(At(s, es, m), es[m], aid)
  }

  lemma EndedAt(s: State, es: seq<Event>, m: nat, aid: Id)
    requires m < |es| && EndsReview(At(s, es, m), es[m], aid)
    ensures Unreviewed(At(s, es, m + 1), aid)
  {
    Prefixes(s, es, m);
    EndedUnreviewed(At(s, es, m), es[m], aid);
  }

  lemma UnreviewedNext(s: State, es: seq<Event>, m: nat, aid: Id)
    requires m < |es| && Unreviewed(At(s, es, m), aid) && !ApprovedAt(s, es, m, aid)
    ensures Unreviewed(At(s, es, m + 1), aid)
  {
    Prefixes(s, es, m);
    StepKeepsUnreviewed(At(s, es, m), es[m], aid);
  }

  lemma {:induction false} UnreviewedLasts(s: State, es: seq<Event>, i: nat, j: nat, aid: Id)
    requires i <= j <= |es| && Unreviewed(At(s, es, i), aid)
    requires forall m: nat | i <= m < j :: !ApprovedAt(s, es, m, aid)
    ensures Unreviewed(At(s, es, j), aid)
    decreases j
  {
    if i < j {
      UnreviewedLasts(s, es, i, j - 1, aid);
      UnreviewedNext(s, es, j - 1, aid);
    }
  }

  /** From such an end on, no squash gets past the review until the next approval. */
  lemma NoSquashWithoutReview(
      s: State, es: seq<Event>, i: nat, j: nat, aid: Id, message: Option<string>, git: SquashOutcome)
    requires i < j <= |es| && EndsReview(At(s, es, i), es[i], aid)
    requires forall m: nat | i < m < j :: !ApprovedAt(s, es, m, aid)
    ensures Squash(At(s, es, j), aid, message, git).1 in {RecordsIncomplete, NotCommitted, ApprovalRequired}
  {
    EndedAt(s, es, i, aid);
    UnreviewedLasts(s, es, i + 1, j, aid);
    UnreviewedRefused(At(s, es, j), aid, message, git);
  }

  // --------------------------------------------------------------- what a look leaves

  /** The fingerprint describes the attempt, its worktree and the repository as they are. */
  predicate Describes(fp: Fingerprint, s: State, aid: Id)
    requires Bundled(s, aid)
  {
    var a, w, r := s.attempts[aid], s.worktrees[aid], s.repos[s.attempts[aid].repo.value];
    && fp.attempt == aid && fp.task == a.task && fp.repo == a.repo
    && fp.baseBranch == w.baseBranch && fp.resultBranch == w.branch && fp.resultSha == w.resultSha
    && fp.baseSha == (if r.readable && r.head.Some? then r.head.value else w.baseSha)
    && fp.message == OwnMessage(s, aid)
  }

  /** After a look the newest request is open only if it describes what is there now. */
  lemma LookLeavesNothingOutdated(s: State, aid: Id)
    requires Bundled(s, aid)
    ensures var rs := Look(s, aid).0.requests;
            Latest(rs, aid).Some? && Open(rs[Latest(rs, aid).value].status) ==>
              Describes(rs[Latest(rs, aid).value].fingerprint, s, aid)
  {
    StaleLatestCloses(s.requests, aid, CurrentFingerprint(s, aid, OwnMessage(s, aid)));
  }

  /** And it stays as it was if it does: nothing else goes stale. */
  lemma LookSparesCurrent(s: State, aid: Id, q: nat)
    requires Bundled(s, aid) && q < |s.requests|
    requires Describes(s.requests[q].fingerprint, s, aid) || Latest(s.requests, aid) != Some(q)
    ensures Look(s, aid).0.requests[q] == s.requests[q]
  {
  }

  // ----------------------------------------------------------------- other attempts

  /** A step touches the requests of the attempt it is about, and of no other. */
  lemma OtherRequestsStay(s: State, e: Event, q: nat)
    requires q < |s.requests| && (ReviewEvent(e) ==> e.aid != s.requests[q].attempt)
    ensures q < |Apply(s, e).0.requests| && Apply(s, e).0.requests[q] == s.requests[q]
  {
    StepKeepsRequests(s, e);
    if ReviewEvent(e) {
      ReviewSparesRequest(s, e, q);
    } else {
      OthersKeepRequests(s, e);
    }
  }

  lemma ReviewSparesRequest(s: State, e: Event, q: nat)
    requires ReviewEvent(e) && q < |s.requests| && e.aid != s.requests[q].attempt
    ensures q < |Apply(s, e).0.requests| && Apply(s, e).0.requests[q] == s.requests[q]
  {
    match e
    case DoSquash(aid, message, git) => SquashSparesRequest(s, aid, message, git, q);
    case DoApprove(aid) => ApproveSparesRequest(s, aid, q);
    case DoReject(aid) => RejectSparesRequest(s, aid, q);
    case DoLook(aid) => LookSparesRequest(s, aid, q);
    case DoPrepare(aid) => LookSparesRequest(s, aid, q);
  }

  lemma LookSparesRequest(s: State, aid: Id, q: nat)
    requires q < |s.requests| && aid != s.requests[q].attempt
    ensures q < |Look(s, aid).0.requests| && Look(s, aid).0.requests[q] == s.requests[q]
  {
  }

  lemma ApproveSparesRequest(s: State, aid: Id, q: nat)
    requires q < |s.requests| && aid != s.requests[q].attempt
    ensures q < |Approve(s, aid).0.requests| && Approve(s, aid).0.requests[q] == s.requests[q]
  {
    if Approve(s, aid).1 == Success {
      LookSparesRequest(ApprovedState(s, aid), aid, q);
    }
  }

  lemma RejectSparesRequest(s: State, aid: Id, q: nat)
    requires q < |s.requests| && aid != s.requests[q].attempt
    ensures q < |Reject(s, aid).0.requests| && Reject(s, aid).0.requests[q] == s.requests[q]
  {
    if Reject(s, aid).1 == Success {
      LookSparesRequest(RejectedState(s, aid), aid, q);
    }
  }

  lemma SquashSparesRequest(s: State, aid: Id, message: Option<string>, git: SquashOutcome, q: nat)
    requires q < |s.requests| && aid != s.requests[q].attempt
    ensures q < |Squash(s, aid, message, git).0.requests|
    ensures Squash(s, aid, message, git).0.requests[q] == s.requests[q]
  {
    if Bundled(s, aid) && aid in s.reviews && git.NewCommit? {
      LookSparesRequest(MergedState(s, aid, git.sha), aid, q);
    }
  }

  /** What a rejection leaves: the task waits for changes and can be queued again. */
  lemma RejectLeaves(s: State, aid: Id)
    requires Reject(s, aid).1 == Success
    ensures var s', a := Reject(s, aid).0, s.attempts[aid];
            && s'.attempts == s.attempts[aid := a.(status := Rejected)]
            && s'.tasks == s.tasks[a.task := s.tasks[a.task].(status := ChangesRequested)]
            && s'.worktrees == s.worktrees[aid := s.worktrees[aid].(status := WtReviewing)]
            && s'.repos == s.repos
            && Apply(s', UpdateTask(a.task, Queued)).1 == Success
  {
    LookOnlyCloses(RejectedState(s, aid), aid);
    assert Transitions.TaskPubliclyAllowed(ChangesRequested, Queued);
  }
}
