/** The branch name search of `ensure_worktree`. */
module BranchNames {

  import opened Decimals
  import Sets

  /** The names tried: stem, stem-2, stem-3, ... */
  function Candidate(stem: string, n: nat): string {
    if n <= 1 then stem else stem + "-" + Decimal(n)
  }

  lemma CandidatesDiffer(stem: string, m: nat, n: nat)
    requires 1 <= m < n
    ensures Candidate(stem, m) != Candidate(stem, n)
  {
    ValueOfDecimal(m);
    ValueOfDecimal(n);
    if m > 1 {
      assert Candidate(stem, m)[|stem| + 1..] == Decimal(m);
      assert Candidate(stem, n)[|stem| + 1..] == Decimal(n);
    }
  }

  /** The first `n` names. */
  ghost function FirstNames(stem: string, n: nat): set<string> {
    if n == 0 then {} else FirstNames(stem, n - 1) + {Candidate(stem, n)}
  }

  lemma {:induction false} NameAmongFirst(stem: string, n: nat, x: string)
    ensures x in FirstNames(stem, n) <==> exists i :: 1 <= i <= n && x == Candidate(stem, i)
  {
    if n > 0 {
      NameAmongFirst(stem, n - 1, x);
    }
  }

  lemma NextNameIsNew(stem: string, n: nat)
    requires n > 0
    ensures Candidate(stem, n) !in FirstNames(stem, n - 1)
  {
    NameAmongFirst(stem, n - 1, Candidate(stem, n));
    forall i | 1 <= i <= n - 1 ensures Candidate(stem, i) != Candidate(stem, n) {
      CandidatesDiffer(stem, i, n);
    }
  }

  lemma {:induction false} FirstNamesSize(stem: string, n: nat)
    ensures |FirstNames(stem, n)| == n
  {
    if n > 0 {
      FirstNamesSize(stem, n - 1);
      NextNameIsNew(stem, n);
    }
  }

  /** The pigeonhole: `n` taken names need `n` existing branches. */
  lemma TakenNames(stem: string, heads: set<string>, n: nat)
    requires forall i | 1 <= i <= n :: Candidate(stem, i) in heads
    ensures n <= |heads|
  {
    FirstNamesSize(stem, n);
    forall x | x in FirstNames(stem, n) ensures x in heads {
      NameAmongFirst(stem, n, x);
    }
    Sets.SubsetSize(FirstNames(stem, n), heads);
  }

  /** The first name of stem, stem-2, stem-3, ... that is no branch yet. */
  ghost predicate FirstFree(stem: string, heads: set<string>, branch: string) {
    && branch !in heads
    && exists n :: 1 <= n <= |heads| + 1 && branch == Candidate(stem, n)
                   && forall i | 1 <= i < n :: Candidate(stem, i) in heads
  }

  /**
   * The search ends after at most one try more than there are branches, with the
   * first free name; `heads` are the branches `git show-ref --verify` finds.
   */
  method FindBranch(stem: string, heads: set<string>) returns (branch: string)
    ensures FirstFree(stem, heads, branch)
  {
    branch := stem;
    var suffix := 1;
    while branch in heads
      invariant suffix >= 1 && branch == Candidate(stem, suffix)
      invariant forall i | 1 <= i < suffix :: Candidate(stem, i) in heads
      decreases |heads| - suffix
    {
      TakenNames(stem, heads, suffix);
      suffix := suffix + 1;
      branch := stem + "-" + Decimal(suffix);
    }
    TakenNames(stem, heads, suffix - 1);
  }
}
