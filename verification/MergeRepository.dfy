/** The source repository behind the pipeline: who moves it, and what it decides. */
module MergeRepository {
  import opened Common
  import opened Statuses
  import opened MergePipeline
  import opened MergeProvenance

  // ----------------------------------------------------------- what never changes

  predicate SameAttempt(s: State, s': State, aid: Id) {
    aid in s.attempts ==>
      && aid in s'.attempts && s'.attempts[aid].task == s.attempts[aid].task
      && s'.attempts[aid].repo == s.attempts[aid].repo
  }

  predicate SameTask(s: State, s': State, tid: Id) {
    tid in s.tasks ==>
      && tid in s'.tasks && s'.tasks[tid].title == s.tasks[tid].title
      && s'.tasks[tid].writeScope == s.tasks[tid].writeScope
  }

  predicate SameWorktree(s: State, s': State, aid: Id) {
    aid in s.worktrees ==>
      && aid in s'.worktrees && s'.worktrees[aid].branch == s.worktrees[aid].branch
      && s'.worktrees[aid].baseBranch == s.worktrees[aid].baseBranch
      && s'.worktrees[aid].baseSha == s.worktrees[aid].baseSha
  }

  /** Rows stay, and so does what attempt and worktree `aid` and task `tid` were made with. */
  predicate SameRows(s: State, s': State, aid: Id, tid: Id) {
    SameAttempt(s, s', aid) && SameTask(s, s', tid) && SameWorktree(s, s', aid)
  }

  /** Attempts, tasks, worktrees and repositories are as they were. */
  predicate RowsUntouched(s: State, s': State) {
    s'.attempts == s.attempts && s'.tasks == s.tasks && s'.worktrees == s.worktrees && s'.repos == s.repos
  }

  /** A squash that does not succeed touches at most review and requests. */
  lemma RefusedSquashTouchesNothing(s: State, aid: Id, message: Option<string>, git: SquashOutcome)
    requires Squash(s, aid, message, git).1 != Success
    ensures RowsUntouched(s, Squash(s, aid, message, git).0)
  {
    var (s', reply) := Squash(s, aid, message, git);
    if Bundled(s, aid) && aid in s.reviews && (s', reply) == PerformSquash(s, aid, git) {
      RefusedMergeTouchesNothing(s, aid, git);
    } else {
      assert s' == s.(requests := s'.requests);
    }
  }

  lemma RefusedMergeTouchesNothing(s: State, aid: Id, git: SquashOutcome)
    requires Bundled(s, aid) && aid in s.reviews
    ensures PerformSquash(s, aid, git).1 == Success || RowsUntouched(s, PerformSquash(s, aid, git).0)
  {
  }

  lemma MergeKeepsRows(s: State, a: Id, message: Option<string>, git: SquashOutcome, aid: Id, tid: Id)
    requires Squash(s, a, message, git).1 == Success
    ensures SameRows(s, Squash(s, a, message, git).0, aid, tid)
  {
    SquashLeaves(s, DoSquash(a, message, git), a);
  }

  lemma SquashKeepsRows(s: State, a: Id, message: Option<string>, git: SquashOutcome, aid: Id, tid: Id)
    ensures SameRows(s, Squash(s, a, message, git).0, aid, tid)
  {
    if Squash(s, a, message, git).1 == Success {
      MergeKeepsRows(s, a, message, git, aid, tid);
    } else {
      RefusedSquashTouchesNothing(s, a, message, git);
    }
  }

  lemma RejectKeepsRows(s: State, a: Id, aid: Id, tid: Id)
    ensures SameRows(s, Reject(s, a).0, aid, tid)
  {
    if Reject(s, a).1 == Success {
      LookOnlyCloses(RejectedState(s, a), a);
    }
  }

  lemma LooksKeepRows(s: State, e: Event, aid: Id, tid: Id)
    requires e.DoApprove? || e.DoLook? || e.DoPrepare?
    ensures SameRows(s, Apply(s, e).0, aid, tid)
  {
    LookOnlyCloses(s, e.aid);
    if e.DoApprove? && Approve(s, e.aid).1 == Success {
      ApproveGrants(s, e.aid);
    }
  }

  lemma OthersKeepAttempt(s: State, e: Event, aid: Id)
    requires !ReviewEvent(e)
    ensures SameAttempt(s, Apply(s, e).0, aid)
  {
  }

  lemma OthersKeepTask(s: State, e: Event, tid: Id)
    requires !ReviewEvent(e)
    ensures SameTask(s, Apply(s, e).0, tid)
  {
  }

  lemma OthersKeepWorktree(s: State, e: Event, aid: Id)
    requires !ReviewEvent(e)
    ensures SameWorktree(s, Apply(s, e).0, aid)
  {
  }

  lemma StepKeepsRows(s: State, e: Event, aid: Id, tid: Id)
    ensures SameRows(s, Apply(s, e).0, aid, tid)
  {
    match e
    case DoSquash(a, message, git) => SquashKeepsRows(s, a, message, git, aid, tid);
    case DoReject(a) => RejectKeepsRows(s, a, aid, tid);
    case DoApprove(_) => LooksKeepRows(s, e, aid, tid);
    case DoLook(_) => LooksKeepRows(s, e, aid, tid);
    case DoPrepare(_) => LooksKeepRows(s, e, aid, tid);
    case _ =>
      OthersKeepAttempt(s, e, aid);
      OthersKeepTask(s, e, tid);
      OthersKeepWorktree(s, e, aid);
  }

  lemma SameRowsFollow(s: State, s': State, s'': State, aid: Id, tid: Id)
    requires SameRows(s, s', aid, tid) && SameRows(s', s'', aid, tid)
    ensures SameRows(s, s'', aid, tid)
  {
  }

  /** Over any stretch of a run. */
  lemma {:induction false} RowsLast(s: State, es: seq<Event>, i: nat, j: nat, aid: Id, tid: Id)
    requires i <= j <= |es|
    ensures SameRows(At(s, es, i), At(s, es, j), aid, tid)
    decreases j
  {
    if i < j {
      RowsLast(s, es, i, j - 1, aid, tid);
      Prefixes(s, es, j - 1);
      StepKeepsRows(At(s, es, j - 1), es[j - 1], aid, tid);
      SameRowsFollow(At(s, es, i), At(s, es, j - 1), At(s, es, j), aid, tid);
    }
  }

  // ------------------------------------------------------------ who moves the head

  /** A squash into repository `rid`. */
  predicate SquashesInto(s: State, e: Event, rid: Id) {
    && e.DoSquash? && Squashes(s, e, e.aid)
    && e.aid in s.attempts && s.attempts[e.aid].repo == Some(rid)
  }

  predicate RepoIs(s: State, rid: Id, r: Repo) {
    rid in s.repos && s.repos[rid] == r
  }

  lemma SquashKeepsRepo(s: State, e: Event, rid: Id, r: Repo)
    requires e.DoSquash? && RepoIs(s, rid, r) && !SquashesInto(s, e, rid)
    ensures RepoIs(Squash(s, e.aid, e.message, e.git).0, rid, r)
  {
    if Squash(s, e.aid, e.message, e.git).1 == Success {
      SquashLeaves(s, e, e.aid);
    }
  }

  lemma ReviewsKeepRepo(s: State, e: Event, rid: Id, r: Repo)
    requires ReviewEvent(e) && !e.DoSquash? && RepoIs(s, rid, r)
    ensures RepoIs(Apply(s, e).0, rid, r)
  {
    match e
    case DoApprove(a) => if Approve(s, a).1 == Success { ApproveGrants(s, a); }
    case DoReject(a) => if Reject(s, a).1 == Success { LookOnlyCloses(RejectedState(s, a), a); }
    case DoLook(a) => LookOnlyCloses(s, a);
    case DoPrepare(a) => LookOnlyCloses(s, a);
    case _ =>
  }

  lemma OthersKeepRepo(s: State, e: Event, rid: Id, r: Repo)
    requires RepoIs(s, rid, r) && !ReviewEvent(e) && !(e.MoveRepo? && e.rid == rid)
    ensures RepoIs(Apply(s, e).0, rid, r)
  {
  }

  /** Only a squash into it and whoever else works in it change a repository. */
  lemma RepoStays(s: State, e: Event, rid: Id, r: Repo)
    requires RepoIs(s, rid, r) && !SquashesInto(s, e, rid) && !(e.MoveRepo? && e.rid == rid)
    ensures RepoIs(Apply(s, e).0, rid, r)
  {
    if e.DoSquash? {
      SquashKeepsRepo(s, e, rid, r);
    } else if ReviewEvent(e) {
      ReviewsKeepRepo(s, e, rid, r);
    } else {
      OthersKeepRepo(s, e, rid, r);
    }
  }

  /** At event `m` someone outside moves the repository. */
  predicate Moved(es: seq<Event>, m: nat, rid: Id)
    requires m < |es|
  {
    es[m].MoveRepo? && es[m].rid == rid
  }

  predicate SquashedInto(s: State, es: seq<Event>, m: nat, rid: Id)
    requires m < |es|
  {
    SquashesInto(At(s, es, m), es[m], rid)
  }

  lemma RepoStaysAt(s: State, es: seq<Event>, m: nat, rid: Id, r: Repo)
    requires m < |es| && RepoIs(At(s, es, m), rid, r) && !SquashedInto(s, es, m, rid) && !Moved(es, m, rid)
    ensures RepoIs(At(s, es, m + 1), rid, r)
  {
    Prefixes(s, es, m);
    RepoStays(At(s, es, m), es[m], rid, r);
  }

  lemma {:induction false} RepoStaysBetween(s: State, es: seq<Event>, i: nat, j: nat, rid: Id, r: Repo)
    requires i <= j <= |es| && RepoIs(At(s, es, i), rid, r)
    requires forall m: nat | i <= m < j :: !SquashedInto(s, es, m, rid) && !Moved(es, m, rid)
    ensures RepoIs(At(s, es, j), rid, r)
    decreases j
  {
    if i < j {
      RepoStaysBetween(s, es, i, j - 1, rid, r);
      RepoStaysAt(s, es, j - 1, rid, r);
    }
  }

  // ------------------------------------------------------------------ two squashes

  predicate HeadAt(s: State, rid: Id, sha: Sha) {
    rid in s.repos && s.repos[rid].head == Some(sha)
  }

  lemma SquashSetsHead(s: State, e: Event, rid: Id)
    requires SquashesInto(s, e, rid)
    ensures HeadAt(Apply(s, e).0, rid, e.git.sha)
  {
    SquashLeaves(s, e, e.aid);
  }

  lemma SquashedOntoHead(s: State, e: Event, rid: Id, sha: Sha)
    requires SquashesInto(s, e, rid) && HeadAt(s, rid, sha)
    ensures CutFrom(s, e.aid, sha)
  {
    SquashChecks(s, e, e.aid);
  }

  lemma SquashedHead(s: State, es: seq<Event>, m: nat, rid: Id, sha: Sha)
    requires m < |es| && SquashedInto(s, es, m, rid) && es[m].DoSquash? && es[m].git == NewCommit(sha)
    ensures HeadAt(At(s, es, m + 1), rid, sha)
  {
    Prefixes(s, es, m);
    SquashSetsHead(At(s, es, m), es[m], rid);
  }

  /** The worktree of attempt `aid` was cut from the commit `sha`. */
  predicate CutFrom(s: State, aid: Id, sha: Sha) {
    aid in s.worktrees && s.worktrees[aid].baseSha == sha
  }

  /**
   * Between two squashes into one repository with no other between them, either someone
   * moved the repository, or the later worktree was cut from the earlier merge commit.
   */
  lemma NextSquashIsOnTop(s: State, es: seq<Event>, first: nat, second: nat, rid: Id, sha: Sha)
    requires first < second < |es| && es[first].DoSquash? && es[second].DoSquash?
    requires SquashedInto(s, es, first, rid) && SquashedInto(s, es, second, rid) && es[first].git == NewCommit(sha)
    requires forall m: nat | first < m < second :: !SquashedInto(s, es, m, rid)
    ensures (exists m: nat :: first < m < second && Moved(es, m, rid))
            || CutFrom(At(s, es, second), es[second].aid, sha)
  {
    SquashedHead(s, es, first, rid, sha);
    if forall m: nat | first < m < second :: !Moved(es, m, rid) {
      RepoStaysBetween(s, es, first + 1, second, rid, At(s, es, first + 1).repos[rid]);
      SquashedOntoHead(At(s, es, second), es[second], rid, sha);
    }
  }

  // ------------------------------------------------------------ a dirty repository

  /** A squash, a preparation or a creation for an attempt of repository `rid`. */
  predicate Uses(s: State, e: Event, rid: Id) {
    && (e.DoSquash? || e.DoPrepare? || e.DoCreateWorktree?)
    && e.aid in s.attempts && s.attempts[e.aid].repo == Some(rid)
  }

  predicate DirtyAt(s: State, rid: Id) {
    rid in s.repos && s.repos[rid].dirty
  }

  lemma DirtySquashRefused(s: State, aid: Id, message: Option<string>, git: SquashOutcome)
    requires Bundled(s, aid) && RepoOf(s, aid).dirty
    ensures Squash(s, aid, message, git).1 != Success && RowsUntouched(s, Squash(s, aid, message, git).0)
  {
  }

  lemma DirtyPrepareRefused(s: State, aid: Id)
    requires Bundled(s, aid) && RepoOf(s, aid).dirty
    ensures Prepare(s, aid).1 != Success && RowsUntouched(s, Prepare(s, aid).0)
  {
    LookOnlyCloses(s, aid);
  }

  lemma DirtyRefuses(s: State, e: Event, rid: Id)
    requires DirtyAt(s, rid) && Uses(s, e, rid)
    ensures !Succeeds(s, e) && RowsUntouched(s, Apply(s, e).0)
  {
    if Bundled(s, e.aid) && e.DoSquash? {
      DirtySquashRefused(s, e.aid, e.message, e.git);
    }
    if Bundled(s, e.aid) && e.DoPrepare? {
      DirtyPrepareRefused(s, e.aid);
    }
  }

  lemma DirtyStep(s: State, es: seq<Event>, m: nat, rid: Id)
    requires m < |es| && DirtyAt(At(s, es, m), rid) && !Moved(es, m, rid)
    ensures DirtyAt(At(s, es, m + 1), rid)
  {
    if SquashedInto(s, es, m, rid) {
      DirtyRefuses(At(s, es, m), es[m], rid);
    }
    RepoStaysAt(s, es, m, rid, At(s, es, m).repos[rid]);
  }

  lemma {:induction false} StaysDirty(s: State, es: seq<Event>, i: nat, j: nat, rid: Id)
    requires i <= j <= |es| && DirtyAt(At(s, es, i), rid) && forall m: nat | i <= m < j :: !Moved(es, m, rid)
    ensures DirtyAt(At(s, es, j), rid)
    decreases j
  {
    if i < j {
      StaysDirty(s, es, i, j - 1, rid);
      DirtyStep(s, es, j - 1, rid);
    }
  }

  /**
   * Once someone leaves a repository dirty, nothing is squashed into it, prepared against
   * it or cut from it until someone moves it again, and no row is touched in the attempt.
   */
  lemma DirtyUntilMoved(s: State, es: seq<Event>, i: nat, j: nat, rid: Id)
    requires i < j < |es| && Moved(es, i, rid) && es[i].repo.dirty
    requires forall m: nat | i < m < j :: !Moved(es, m, rid)
    requires Uses(At(s, es, j), es[j], rid)
    ensures !Succeeds(At(s, es, j), es[j]) && RowsUntouched(At(s, es, j), At(s, es, j + 1))
  {
    Prefixes(s, es, i);
    StaysDirty(s, es, i + 1, j, rid);
    DirtyRefuses(At(s, es, j), es[j], rid);
    Prefixes(s, es, j);
  }

  /** And what a successful squash found: a readable repository without local changes. */
  lemma SquashFoundClean(s: State, es: seq<Event>, i: nat, rid: Id)
    requires i < |es| && SquashedInto(s, es, i, rid)
    ensures rid in At(s, es, i).repos
    ensures At(s, es, i).repos[rid].readable && !At(s, es, i).repos[rid].dirty
  {
    SquashChecks(At(s, es, i), es[i], es[i].aid);
  }

  // --------------------------------------------------------- from creation to merge

  predicate Creates(s: State, e: Event, aid: Id) {
    e.DoCreateWorktree? && e.aid == aid && Succeeds(s, e)
  }

  /** A new worktree is cut from the head of a clean repository and remembers its branch. */
  lemma CreationCutsFromHead(s: State, e: Event, aid: Id)
    requires Creates(s, e, aid)
    ensures aid in s.attempts && s.attempts[aid].repo.Some? && s.attempts[aid].repo.value in s.repos
    ensures var s' := Apply(s, e).0;
            && Bundled(s', aid) && RepoOf(s', aid) == s.repos[s.attempts[aid].repo.value]
            && CleanOnBase(RepoOf(s', aid), s'.worktrees[aid])
            && s'.worktrees[aid].branch == e.branch && s'.worktrees[aid].resultSha.None?
  {
  }

  lemma StillOnBase(s: State, s': State, aid: Id)
    requires Bundled(s, aid) && CleanOnBase(RepoOf(s, aid), s.worktrees[aid])
    requires SameRows(s, s', aid, s.attempts[aid].task)
    requires RepoIs(s', s.attempts[aid].repo.value, RepoOf(s, aid))
    ensures Bundled(s', aid) && CleanOnBase(RepoOf(s', aid), s'.worktrees[aid])
  {
  }

  /**
   * The whole path from the creation on. As long as nobody moves the repository and nothing
   * is squashed into it, work committed in the new worktree can be approved and squashed,
   * whatever else went on in between.
   */
  lemma CreatedWorkCanBeMerged(
      s: State, es: seq<Event>, c: nat, i: nat, aid: Id, rid: Id, report: Report, sha: Sha)
    requires c < i <= |es| && Creates(At(s, es, c), es[c], aid)
    requires aid in At(s, es, c).attempts && At(s, es, c).attempts[aid].repo == Some(rid)
    requires forall m: nat | c < m < i :: !SquashedInto(s, es, m, rid) && !Moved(es, m, rid)
    requires CommitResult(At(s, es, i), aid, report).1 == Success
    ensures var committed := CommitResult(At(s, es, i), aid, report).0;
            && Approve(committed, aid).1 == Success
            && Squash(Approve(committed, aid).0, aid, None, NewCommit(sha)).1 == Success
  {
    var cut := At(s, es, c + 1);
    Prefixes(s, es, c);
    CreationCutsFromHead(At(s, es, c), es[c], aid);
    StepKeepsRows(At(s, es, c), es[c], aid, "");
    RowsLast(s, es, c + 1, i, aid, cut.attempts[aid].task);
    RepoStaysBetween(s, es, c + 1, i, rid, cut.repos[rid]);
    StillOnBase(cut, At(s, es, i), aid);
    CommittedWorkCanBeMerged(At(s, es, i), aid, report, sha);
  }
}
