/**
 * The endpoints as they are written: rows changed in place, one field after the
 * other, and loops over the open requests. Each is proved to take exactly the step
 * of `MergePipeline`.
 */
module MergeService {
  import opened Common
  import opened Statuses
  import opened WriteScope
  import opened MergePipeline
  import Transitions
  import Porcelain
  import BranchNames

  class ReviewService {
    var attempts: map<Id, Attempt>
    var tasks: map<Id, Task>
    var worktrees: map<Id, Worktree>
    var reviews: map<Id, Review>
    var requests: seq<Request>
    var repos: map<Id, Repo>
    ghost var shas: set<Sha>

    ghost function Snapshot(): State
      reads this
    {
      State(attempts, tasks, worktrees, reviews, requests, repos, shas)
    }

    constructor (repos: map<Id, Repo>)
      ensures Snapshot() == State(map[], map[], map[], map[], [], repos, {})
    {
      attempts, tasks, worktrees, reviews, requests := map[], map[], map[], map[], [];
      this.repos, shas := repos, {};
    }

    method SetAttemptStatus(aid: Id, status: AttemptStatus)
      requires aid in attempts
      modifies this`attempts
      ensures attempts == old(attempts)[aid := old(attempts)[aid].(status := status)]
    {
      attempts := attempts[aid := attempts[aid].(status := status)];
    }

    method SetTaskStatus(tid: Id, status: TaskStatus)
      requires tid in tasks
      modifies this`tasks
      ensures tasks == old(tasks)[tid := old(tasks)[tid].(status := status)]
    {
      tasks := tasks[tid := tasks[tid].(status := status)];
    }

    /** `update_task`, its status part. */
    method UpdateTaskStatus(tid: Id, status: TaskStatus) returns (reply: Reply)
      modifies this
      ensures (Snapshot(), reply) == Apply(old(Snapshot()), UpdateTask(tid, status))
    {
      if tid !in tasks { return NotFound; }
      if !Transitions.TaskPubliclyAllowed(tasks[tid].status, status) { return NotAllowed; }
      SetTaskStatus(tid, status);
      return Success;
    }

    method SetWorktreeStatus(aid: Id, status: WorktreeStatus)
      requires aid in worktrees
      modifies this`worktrees
      ensures worktrees == old(worktrees)[aid := old(worktrees)[aid].(status := status)]
    {
      worktrees := worktrees[aid := worktrees[aid].(status := status)];
    }

    /** The existing review of the attempt, or a new one, gets the status. */
    method SetReviewStatus(aid: Id, status: ReviewStatus)
      modifies this`reviews
      ensures var prior := if aid in old(reviews) then old(reviews)[aid].mergeSha else None;
              reviews == old(reviews)[aid := Review(status, prior)]
    {
      if aid !in reviews { reviews := reviews[aid := Review(RvCreated, None)]; }
      reviews := reviews[aid := reviews[aid].(status := status)];
    }

    /** The index of the newest request of the attempt, which goes stale if outdated. */
    method GetCurrentApproval(aid: Id, fp: Fingerprint) returns (k: Option<nat>)
      modifies this`requests
      ensures requests == StaleLatest(old(requests), aid, fp)
      ensures k == Latest(requests, aid)
    {
      k := Latest(requests, aid);
      if k.Some? {
        var r := requests[k.value];
        if r.fingerprint != fp && (r.status == ApPending || r.status == ApApproved) {
          requests := requests[k.value := r.(status := ApStale)];
        }
      }
      assert k == Latest(requests, aid) by {
        var k' := Latest(requests, aid);
        if k.Some? {
          assert requests[k.value].attempt == aid;
        }
        if k'.Some? {
          assert old(requests)[k'.value].attempt == aid;
        }
      }
    }

    method MarkStaleIfFingerprintChanged(aid: Id, fp: Fingerprint)
      modifies this`requests
      ensures requests == StaleAll(old(requests), aid, fp)
    {
      for i := 0 to |requests|
        invariant |requests| == |old(requests)|
        invariant forall q | 0 <= q < i :: requests[q] == StaleOne(old(requests)[q], aid, fp)
        invariant forall q | i <= q < |requests| :: requests[q] == old(requests)[q]
      {
        var r := requests[i];
        if r.attempt == aid && (r.status == ApPending || r.status == ApApproved) {
          if r.fingerprint != fp {
            requests := requests[i := r.(status := ApStale)];
          }
        }
      }
    }

    method RejectOpenRequests(aid: Id)
      modifies this`requests
      ensures requests == RejectAll(old(requests), aid)
    {
      for i := 0 to |requests|
        invariant |requests| == |old(requests)|
        invariant forall q | 0 <= q < i :: requests[q] == RejectOne(old(requests)[q], aid)
        invariant forall q | i <= q < |requests| :: requests[q] == old(requests)[q]
      {
        var r := requests[i];
        if r.attempt == aid && (r.status == ApPending || r.status == ApApproved) {
          requests := requests[i := r.(status := ApRejected)];
        }
      }
    }

    method ShowDetail(aid: Id)
      requires Bundled(Snapshot(), aid)
      modifies this`requests
      ensures Snapshot() == Look(old(Snapshot()), aid).0
    {
      var task, w := tasks[attempts[aid].task], worktrees[aid];
      var head := Head(repos[attempts[aid].repo.value]);
      var base := if head.Some? then head.value else w.baseSha;
      var a := attempts[aid];
      var fp := Fingerprint(a.task, aid, a.repo, w.baseBranch, base, w.branch, w.resultSha, DefaultMessage(task, aid));
      var _ := GetCurrentApproval(aid, fp);
    }

    method CheckBundle(aid: Id) returns (ok: bool)
      ensures ok <==> Bundled(Snapshot(), aid)
    {
      ok := aid in attempts && attempts[aid].task in tasks && aid in worktrees
        && attempts[aid].repo.Some? && attempts[aid].repo.value in repos;
    }

    method CheckCommitted(aid: Id) returns (ok: bool)
      requires Bundled(Snapshot(), aid)
      ensures ok <==> EnsureCommitted(Snapshot(), aid)
    {
      ok := attempts[aid].status == Committed && worktrees[aid].status == WtCommitted
        && worktrees[aid].resultSha.Some?;
    }

    /** The request of this approval: the newest if it is pending, or a new one. */
    method ApproveRequest(aid: Id, fp: Fingerprint)
      modifies this`requests
      ensures requests == GrantRequest(old(requests), aid, fp)
    {
      var k := GetCurrentApproval(aid, fp);
      ghost var staled := requests;
      if k.None? || requests[k.value].status != ApPending {
        requests := requests + [Request(aid, fp, ApPending)];
        k := Some(|requests| - 1);
      }
      requests := requests[k.value := requests[k.value].(status := ApApproved)];
      if k.value == |staled| {
        assert requests == staled + [Request(aid, fp, ApApproved)];
      }
    }

    method RecordApproval(aid: Id)
      requires Bundled(Snapshot(), aid)
      modifies this
      ensures Snapshot() == ApprovedState(old(Snapshot()), aid)
    {
      var a, w := attempts[aid], worktrees[aid];
      SetReviewStatus(aid, RvApproved);
      var message := DefaultMessage(tasks[a.task], aid);
      ApproveRequest(aid, Fingerprint(a.task, aid, a.repo, w.baseBranch, w.baseSha, w.branch, w.resultSha, message));
    }

    method ApproveReview(aid: Id) returns (reply: Reply)
      modifies this
      ensures (Snapshot(), reply) == Approve(old(Snapshot()), aid)
    {
      var bundled := CheckBundle(aid);
      if !bundled { return RecordsIncomplete; }
      var committed := CheckCommitted(aid);
      if !committed { return NotCommitted; }
      RecordApproval(aid);
      ShowDetail(aid);
      return Success;
    }

    method RecordRejection(aid: Id)
      requires Bundled(Snapshot(), aid)
      modifies this
      ensures Snapshot() == RejectedState(old(Snapshot()), aid)
    {
      SetReviewStatus(aid, RvRejected);
      SetAttemptStatus(aid, Rejected);
      SetTaskStatus(attempts[aid].task, ChangesRequested);
      SetWorktreeStatus(aid, WtReviewing);
      RejectOpenRequests(aid);
    }

    method RejectReview(aid: Id) returns (reply: Reply)
      modifies this
      ensures (Snapshot(), reply) == Reject(old(Snapshot()), aid)
    {
      var bundled := CheckBundle(aid);
      if !bundled { return RecordsIncomplete; }
      var committed := CheckCommitted(aid);
      if !committed { return NotCommitted; }
      RecordRejection(aid);
      ShowDetail(aid);
      return Success;
    }

    method PrepareMerge(aid: Id) returns (reply: Reply)
      modifies this
      ensures (Snapshot(), reply) == Prepare(old(Snapshot()), aid)
    {
      var bundled := CheckBundle(aid);
      if !bundled { return RecordsIncomplete; }
      var committed := CheckCommitted(aid);
      if !committed { return NotCommitted; }
      var repo, w := repos[attempts[aid].repo.value], worktrees[aid];
      ShowDetail(aid);
      if !SourceClean(repo) { return SourceDirty; }
      if !BaseMatches(repo, w) { return BaseStale; }
      return Success;
    }

    /** `find_valid_approval_for_merge`, newest first. */
    method FindValidApproval(fp: Fingerprint) returns (found: bool)
      ensures found <==> HasApproved(requests, fp)
    {
      var i := |requests|;
      while i > 0
        invariant 0 <= i <= |requests|
        invariant forall q | i <= q < |requests| :: !(requests[q].fingerprint == fp && requests[q].status == ApApproved)
      {
        i := i - 1;
        if requests[i].fingerprint == fp && requests[i].status == ApApproved { return true; }
      }
      return false;
    }

    /** Whether what is there now was approved; without a valid approval the open ones go stale. */
    method CheckApproval(aid: Id, message: Option<string>) returns (valid: bool)
      requires Bundled(Snapshot(), aid)
      modifies this`requests
      ensures var fp := CurrentFingerprint(old(Snapshot()), aid, SquashMessage(old(Snapshot()), aid, message));
              valid == HasApproved(old(requests), fp)
              && requests == if valid then old(requests) else StaleAll(old(requests), aid, fp)
    {
      var a, w, task := attempts[aid], worktrees[aid], tasks[attempts[aid].task];
      var text := if message.Some? && message.value != "" then message.value else DefaultMessage(task, aid);
      var head := Head(repos[a.repo.value]);
      var base := if head.Some? then head.value else w.baseSha;
      var fp := Fingerprint(a.task, aid, a.repo, w.baseBranch, base, w.branch, w.resultSha, text);
      valid := FindValidApproval(fp);
      if !valid {
        MarkStaleIfFingerprintChanged(aid, fp);
      }
    }

    method RecordMerge(aid: Id, sha: Sha)
      requires Bundled(Snapshot(), aid)
      modifies this
      ensures Snapshot() == MergedState(old(Snapshot()), aid, sha)
    {
      var rid := attempts[aid].repo.value;
      repos := repos[rid := repos[rid].(head := Some(sha))];
      shas := shas + {sha};
      SetReviewStatus(aid, RvMerged);
      reviews := reviews[aid := reviews[aid].(mergeSha := Some(sha))];
      assert reviews == old(reviews)[aid := Review(RvMerged, Some(sha))];
      SetAttemptStatus(aid, Merged);
      SetTaskStatus(attempts[aid].task, Completed);
      SetWorktreeStatus(aid, CleanupPending);
    }

    /** `git merge --squash` and `git commit`, and what is recorded after them. */
    method MergeAndCommit(aid: Id, git: SquashOutcome) returns (reply: Reply)
      requires Bundled(Snapshot(), aid) && aid in reviews
      modifies this
      ensures (Snapshot(), reply) == PerformSquash(old(Snapshot()), aid, git)
    {
      match git
      case MergeFails =>
        SetReviewStatus(aid, RvFailed);
        return MergeFailed;
      case CommitFails =>
        return CommitFailed;
      case NewCommit(sha) =>
        RecordMerge(aid, sha);
        ShowDetail(aid);
        return Success;
    }

    method SquashMerge(aid: Id, message: Option<string>, git: SquashOutcome) returns (reply: Reply)
      modifies this
      ensures (Snapshot(), reply) == Squash(old(Snapshot()), aid, message, git)
    {
      var bundled := CheckBundle(aid);
      if !bundled { return RecordsIncomplete; }
      var committed := CheckCommitted(aid);
      if !committed { return NotCommitted; }
      if aid !in reviews || (reviews[aid].status != RvApproved && reviews[aid].status != RvMergePrepared) {
        return ApprovalRequired;
      }
      var repo, w := repos[attempts[aid].repo.value], worktrees[aid];
      var valid := CheckApproval(aid, message);
      if !valid { return NoValidApproval; }
      if !SourceClean(repo) { return SourceDirty; }
      if !BaseMatches(repo, w) { return BaseStale; }
      reply := MergeAndCommit(aid, git);
    }

    method CommitWorktreeResult(aid: Id, report: Report) returns (reply: Reply)
      modifies this
      ensures (Snapshot(), reply) == CommitResult(old(Snapshot()), aid, report)
    {
      if aid !in worktrees { return NotFound; }
      if aid !in attempts || attempts[aid].task !in tasks || !attempts[aid].claimed { return NotClaimed; }
      if !report.dirty { return NoChanges; }
      var a := attempts[aid];
      var parsed := Porcelain.ParsePorcelainV1Z(report.porcelain);
      if parsed.Err? || ValidateChangedPaths(parsed.value, tasks[a.task].writeScope).Err? {
        SetWorktreeStatus(aid, DirtyResult);
        SetAttemptStatus(aid, WorkerFailed);
        return OutOfScope;
      }
      if report.commit.None? { return GitFailed; }
      worktrees := worktrees[aid := worktrees[aid].(resultSha := report.commit)];
      SetWorktreeStatus(aid, WtCommitted);
      assert worktrees == old(worktrees)[aid := worktrees[aid]];
      SetAttemptStatus(aid, Committed);
      SetTaskStatus(a.task, WaitingForReview);
      shas := shas + {report.commit.value};
      return Success;
    }

    /** `create_worktree` and, for an attempt that has none, `ensure_worktree`; the branch is the first free name. */
    method EnsureWorktree(aid: Id, stem: string, heads: set<string>, added: bool)
      returns (reply: Reply, branch: string)
      modifies this
      ensures (Snapshot(), reply) == CreateWorktree(old(Snapshot()), aid, branch, added)
      ensures worktrees != old(worktrees) ==> BranchNames.FirstFree(stem, heads, branch)
    {
      branch := "";
      if aid !in attempts { return NotFound, branch; }
      if aid in worktrees { return AlreadyExists, branch; }
      if !attempts[aid].claimed { return NotClaimed, branch; }
      var a := attempts[aid];
      if a.task !in tasks || a.repo.None? || a.repo.value !in repos { return RecordsIncomplete, branch; }
      var repo := repos[a.repo.value];
      if !repo.readable { return GitFailed, branch; }
      if repo.dirty { return SourceDirty, branch; }
      if repo.head.None? { return BaseStale, branch; }
      branch := BranchNames.FindBranch(stem, heads);
      worktrees := worktrees[aid := Worktree(branch, repo.branch, repo.head.value, None, Creating)];
      SetWorktreeStatus(aid, if added then WtReady else WtFailed);
      assert worktrees == old(worktrees)[aid := worktrees[aid]];
      if !added { return GitFailed, branch; }
      SetAttemptStatus(aid, RunningWorker);
      return Success, branch;
    }
  }
}
