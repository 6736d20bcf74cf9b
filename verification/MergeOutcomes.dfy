/** When each request of the pipeline goes through, and what it leaves when it does not. */
module MergeOutcomes {
  import opened Common
  import opened Statuses
  import opened MergePipeline
  import opened MergeProvenance
  import opened MergeRepository
  import opened MergeReviews

  // ------------------------------------------------------------------- commit-result

  /** The attempt is claimed and has its task and a worktree. */
  predicate Workable(s: State, aid: Id) {
    && aid in s.attempts && s.attempts[aid].claimed
    && s.attempts[aid].task in s.tasks && aid in s.worktrees
  }

  /** A commit-result goes through for a claimed attempt with changes inside its scope that git commits. */
  lemma CommitGrantedExactly(s: State, aid: Id, report: Report)
    ensures CommitResult(s, aid, report).1 == Success <==>
              && Workable(s, aid) && report.dirty && report.commit.Some?
              && InScope(report.porcelain, s.tasks[s.attempts[aid].task].writeScope)
  {
  }

  /** Out of scope, the attempt has failed and the worktree is marked; any other refusal changes nothing. */
  lemma RefusedCommitLeaves(s: State, aid: Id, report: Report)
    requires CommitResult(s, aid, report).1 != Success
    ensures var s' := CommitResult(s, aid, report).0;
            if Workable(s, aid) && report.dirty && !InScope(report.porcelain, s.tasks[s.attempts[aid].task].writeScope)
            then s' == s.(attempts := s.attempts[aid := s.attempts[aid].(status := WorkerFailed)],
                          worktrees := s.worktrees[aid := s.worktrees[aid].(status := DirtyResult)])
            else s' == s
  {
  }

  /** So an attempt that broke its scope can be approved only after another commit-result. */
  lemma OutOfScopeNotApproved(s: State, aid: Id, report: Report)
    requires CommitResult(s, aid, report).1 == OutOfScope
    ensures Approve(CommitResult(s, aid, report).0, aid).1 in {RecordsIncomplete, NotCommitted}
  {
  }

  // ------------------------------------------------------------------------ creation

  /** A worktree is created for a claimed attempt without one, from a clean repository with a commit. */
  lemma CreationGrantedExactly(s: State, aid: Id, branch: string, added: bool)
    ensures CreateWorktree(s, aid, branch, added).1 == Success <==>
              && aid in s.attempts && aid !in s.worktrees && s.attempts[aid].claimed
              && s.attempts[aid].task in s.tasks
              && s.attempts[aid].repo.Some? && s.attempts[aid].repo.value in s.repos
              && var r := s.repos[s.attempts[aid].repo.value];
                 r.readable && !r.dirty && r.head.Some? && added
    ensures CreateWorktree(s, aid, branch, added).1 == Success ==>
              CreateWorktree(s, aid, branch, added).0.attempts[aid].status == RunningWorker
              && CreateWorktree(s, aid, branch, added).0.worktrees[aid].status == WtReady
  {
  }

  /** A creation that git refuses leaves a failed row behind, or nothing at all when it did not get to git. */
  lemma RefusedCreationLeaves(s: State, aid: Id, branch: string)
    ensures var s' := CreateWorktree(s, aid, branch, false).0;
            if CreateWorktree(s, aid, branch, true).1 == Success
            then s'.attempts == s.attempts && s'.worktrees.Keys == s.worktrees.Keys + {aid}
                 && s'.worktrees[aid].status == WtFailed && s' == s.(worktrees := s'.worktrees)
            else s' == s
  {
  }

  /** So the endpoint never creates one for this attempt again. */
  lemma FailedCreationIsFinal(
      s: State, es: seq<Event>, i: nat, j: nat, aid: Id, branch: string, again: string, added: bool)
    requires i < j <= |es| && es[i] == DoCreateWorktree(aid, branch, false)
    requires CreateWorktree(At(s, es, i), aid, branch, true).1 == Success
    ensures CreateWorktree(At(s, es, j), aid, again, added).1 == AlreadyExists
  {
    Prefixes(s, es, i);
    RefusedCreationLeaves(At(s, es, i), aid, branch);
    CreationGrantedExactly(At(s, es, i), aid, branch, true);
    RowsLast(s, es, i + 1, j, aid, "");
  }

  // ------------------------------------------------------------------------ decisions

  /** Committed work with its result in place, which alone can be approved or rejected. */
  predicate Decidable(s: State, aid: Id) {
    && Bundled(s, aid) && s.attempts[aid].status == Committed
    && s.worktrees[aid].status == WtCommitted && s.worktrees[aid].resultSha != None
  }

  lemma DecidedExactly(s: State, aid: Id)
    ensures Approve(s, aid).1 == Success <==> Decidable(s, aid)
    ensures Reject(s, aid).1 == Success <==> Decidable(s, aid)
    ensures !Decidable(s, aid) ==> Approve(s, aid).0 == s && Reject(s, aid).0 == s && Prepare(s, aid).0 == s
  {
  }

  /** An empty message in the request is none, and the default one given is no different. */
  lemma MessagesAlike(s: State, aid: Id, git: SquashOutcome)
    ensures Squash(s, aid, Some(""), git) == Squash(s, aid, None, git)
    ensures Bundled(s, aid) ==> Squash(s, aid, Some(OwnMessage(s, aid)), git) == Squash(s, aid, None, git)
  {
  }

  /** A squash is refused for its review exactly when none of the attempt's has been approved or prepared. */
  lemma ReviewNeededExactly(s: State, aid: Id, message: Option<string>, git: SquashOutcome)
    ensures Squash(s, aid, message, git).1 == ApprovalRequired <==>
              Decidable(s, aid) && (aid in s.reviews ==> s.reviews[aid].status !in {RvApproved, RvMergePrepared})
  {
  }

  /** A merge that fails ends the review; a commit that fails leaves everything to be tried again. */
  lemma GitFailureLeaves(s: State, aid: Id, message: Option<string>, git: SquashOutcome)
    ensures Squash(s, aid, message, git).1 == MergeFailed ==>
              aid in s.reviews
              && Squash(s, aid, message, git).0
                 == s.(reviews := s.reviews[aid := Review(RvFailed, s.reviews[aid].mergeSha)])
    ensures Squash(s, aid, message, git).1 == CommitFailed ==> Squash(s, aid, message, git).0 == s
    ensures Squash(s, aid, message, git).1 == MergeFailed ==> git == MergeFails
    ensures Squash(s, aid, message, git).1 == CommitFailed ==> git == CommitFails
  {
  }

  /** A rejection ends the review, which keeps the commit of an earlier merge. */
  lemma RejectedReview(s: State, aid: Id)
    requires Reject(s, aid).1 == Success
    ensures Reject(s, aid).0.reviews ==
            s.reviews[aid := Review(RvRejected, if aid in s.reviews then s.reviews[aid].mergeSha else None)]
  {
    LookOnlyCloses(RejectedState(s, aid), aid);
  }

  lemma ApprovedReviewLeft(s: State, aid: Id)
    requires Approve(s, aid).1 == Success
    ensures Approve(s, aid).0.reviews ==
            s.reviews[aid := Review(RvApproved, if aid in s.reviews then s.reviews[aid].mergeSha else None)]
  {
    LookOnlyCloses(ApprovedState(s, aid), aid);
  }

  // ------------------------------------------------------------------------- requests

  /** The repository shows another head than the one the worktree was cut from. */
  predicate HeadElsewhere(s: State, aid: Id)
    requires Bundled(s, aid)
  {
    RepoOf(s, aid).readable && RepoOf(s, aid).head.Some? && RepoOf(s, aid).head.value != s.worktrees[aid].baseSha
  }

  /** The newest request of the attempt has this status. */
  predicate NewestIs(s: State, aid: Id, status: ApprovalStatus) {
    Latest(s.requests, aid).Some? && s.requests[Latest(s.requests, aid).value].status == status
  }

  lemma GrantedIsNewest(rs: seq<Request>, aid: Id, fp: Fingerprint)
    ensures var granted := GrantRequest(rs, aid, fp);
            var k := Latest(granted, aid);
            k.Some? && granted[k.value].status == ApApproved && granted[k.value].fingerprint == fp
  {
    var staled, granted := StaleLatest(rs, aid, fp), GrantRequest(rs, aid, fp);
    var k := Latest(staled, aid);
    StaleLatestCloses(rs, aid, fp);
    if k.Some? && staled[k.value].status == ApPending {
      var k' := Latest(granted, aid);
      assert granted[k.value].attempt == aid;
      assert forall j | k.value < j < |granted| :: granted[j].attempt != aid;
    } else {
      assert granted[|granted| - 1] == Request(aid, fp, ApApproved);
    }
  }

  /** The request of an approval is approved, unless the head is elsewhere: then it is stale at once. */
  lemma ApprovalSurvivesExactly(s: State, aid: Id)
    requires Approve(s, aid).1 == Success
    ensures NewestIs(Approve(s, aid).0, aid, if HeadElsewhere(s, aid) then ApStale else ApApproved)
  {
    var approved := ApprovedState(s, aid);
    GrantedIsNewest(s.requests, aid, ApprovalFingerprint(s, aid));
    StaleLatestCloses(approved.requests, aid, CurrentFingerprint(approved, aid, OwnMessage(approved, aid)));
  }

  /** Preparing shows the review as it is: the newest request is open only if it describes what is there. */
  lemma PrepareLeavesNothingOutdated(s: State, aid: Id)
    requires Decidable(s, aid)
    ensures var rs := Prepare(s, aid).0.requests;
            Latest(rs, aid).Some? && Open(rs[Latest(rs, aid).value].status) ==>
              Describes(rs[Latest(rs, aid).value].fingerprint, s, aid)
  {
    LookLeavesNothingOutdated(s, aid);
  }

  /** No request of the attempt was made for this base. */
  predicate NewBase(s: State, aid: Id, sha: Sha) {
    forall q | 0 <= q < |s.requests| && s.requests[q].attempt == aid :: s.requests[q].fingerprint.baseSha != sha
  }

  lemma MergeSpendsApproval(s: State, aid: Id, sha: Sha)
    requires Bundled(s, aid) && RepoOf(s, aid).readable && NewBase(s, aid, sha)
    ensures var rs := Look(MergedState(s, aid, sha), aid).0.requests;
            Latest(rs, aid).Some? ==> !Open(rs[Latest(rs, aid).value].status)
  {
    var merged := MergedState(s, aid, sha);
    LookLeavesNothingOutdated(merged, aid);
    StaleLatestCloses(s.requests, aid, CurrentFingerprint(merged, aid, OwnMessage(merged, aid)));
  }

  /** A merge uses its approval up: with the new head the newest request is open no more. */
  lemma SquashSpendsApproval(s: State, aid: Id, message: Option<string>, sha: Sha)
    requires Squash(s, aid, message, NewCommit(sha)).1 == Success && NewBase(s, aid, sha)
    ensures var rs := Squash(s, aid, message, NewCommit(sha)).0.requests;
            Latest(rs, aid).Some? ==> !Open(rs[Latest(rs, aid).value].status)
  {
    SquashIsMerge(s, aid, message, NewCommit(sha));
    SquashChecks(s, DoSquash(aid, message, NewCommit(sha)), aid);
    MergeSpendsApproval(s, aid, sha);
  }

  /** After a refusal for want of an approval, an open request is pending and describes this squash. */
  lemma RefusedSquashStales(s: State, aid: Id, message: Option<string>, git: SquashOutcome, q: nat)
    requires Squash(s, aid, message, git).1 == NoValidApproval
    requires q < |s.requests| && s.requests[q].attempt == aid
    ensures var after := Squash(s, aid, message, git).0.requests[q];
            && after.fingerprint == s.requests[q].fingerprint
            && (Open(after.status) <==>
                  s.requests[q].status == ApPending
                  && s.requests[q].fingerprint == CurrentFingerprint(s, aid, SquashMessage(s, aid, message)))
  {
    var fp := CurrentFingerprint(s, aid, SquashMessage(s, aid, message));
    assert Squash(s, aid, message, git).0.requests[q] == StaleOne(s.requests[q], aid, fp);
    assert !HasApproved(s.requests, fp);
  }

  predicate ClosedHow(prior: seq<Request>, later: seq<Request>, how: ApprovalStatus) {
    && |prior| <= |later|
    && forall q | 0 <= q < |prior| && Open(prior[q].status) && !Open(later[q].status) :: later[q].status == how
  }

  lemma LookClosesHow(s: State, aid: Id)
    ensures ClosedHow(s.requests, Look(s, aid).0.requests, ApStale)
  {
  }

  lemma ApproveClosesHow(s: State, aid: Id)
    ensures ClosedHow(s.requests, Approve(s, aid).0.requests, ApStale)
  {
    if Approve(s, aid).1 == Success {
      GrantStales(s.requests, aid, ApprovalFingerprint(s, aid));
      LookClosesHow(ApprovedState(s, aid), aid);
    }
  }

  lemma GrantStales(rs: seq<Request>, aid: Id, fp: Fingerprint)
    ensures ClosedHow(rs, GrantRequest(rs, aid, fp), ApStale)
    ensures forall q | 0 <= q < |rs| && !Open(rs[q].status) :: !Open(GrantRequest(rs, aid, fp)[q].status)
  {
  }

  lemma MergeClosesHow(s: State, aid: Id, git: SquashOutcome)
    requires Bundled(s, aid) && aid in s.reviews
    ensures ClosedHow(s.requests, PerformSquash(s, aid, git).0.requests, ApStale)
  {
    if git.NewCommit? {
      LookClosesHow(MergedState(s, aid, git.sha), aid);
    }
  }

  lemma StaleAllClosesHow(rs: seq<Request>, aid: Id, fp: Fingerprint)
    ensures ClosedHow(rs, StaleAll(rs, aid, fp), ApStale)
  {
  }

  lemma SquashClosesHow(s: State, aid: Id, message: Option<string>, git: SquashOutcome)
    ensures ClosedHow(s.requests, Squash(s, aid, message, git).0.requests, ApStale)
  {
    var (s', reply) := Squash(s, aid, message, git);
    if reply == NoValidApproval {
      StaleAllClosesHow(s.requests, aid, CurrentFingerprint(s, aid, SquashMessage(s, aid, message)));
    } else if Bundled(s, aid) && aid in s.reviews && (s', reply) == PerformSquash(s, aid, git) {
      MergeClosesHow(s, aid, git);
    } else {
      assert s'.requests == s.requests;
    }
  }

  lemma RejectAllClosesHow(rs: seq<Request>, aid: Id)
    ensures ClosedHow(rs, RejectAll(rs, aid), ApRejected)
  {
  }

  /** Once its requests are rejected, a look at the attempt finds none of them open. */
  lemma RejectedLook(s: State, aid: Id)
    requires Bundled(s, aid)
    ensures Look(RejectedState(s, aid), aid).0.requests == RejectAll(s.requests, aid)
  {
    var rs := RejectAll(s.requests, aid);
    var k := Latest(rs, aid);
    assert k.Some? ==> !Open(rs[k.value].status);
  }

  lemma RejectClosesHow(s: State, aid: Id)
    ensures ClosedHow(s.requests, Reject(s, aid).0.requests, ApRejected)
  {
    if Reject(s, aid).1 == Success {
      RejectedLook(s, aid);
      RejectAllClosesHow(s.requests, aid);
    }
  }

  lemma ReviewClosesHow(s: State, e: Event)
    requires ReviewEvent(e) && !e.DoReject?
    ensures ClosedHow(s.requests, Apply(s, e).0.requests, ApStale)
  {
    match e
    case DoApprove(aid) => ApproveClosesHow(s, aid);
    case DoLook(aid) => LookClosesHow(s, aid);
    case DoPrepare(aid) => LookClosesHow(s, aid);
    case DoSquash(aid, message, git) => SquashClosesHow(s, aid, message, git);
  }

  /** A request is closed as rejected by a rejection, and as stale by every other step. */
  lemma StepClosesHow(s: State, e: Event)
    ensures ClosedHow(s.requests, Apply(s, e).0.requests, if e.DoReject? then ApRejected else ApStale)
  {
    if e.DoReject? {
      RejectClosesHow(s, e.aid);
    } else if ReviewEvent(e) {
      ReviewClosesHow(s, e);
    } else {
      OthersKeepRequests(s, e);
    }
  }
}
