/** The follow-up part of the workspace summary, against the policy. */
module RetrySummary {
  import opened Common
  import opened Statuses
  import opened AttemptPolicy
  import opened AttemptRuns

  /** A loaded row with its id. */
  datatype Entry = Entry(id: nat, attempt: Attempt)

  // ------------------------------------------------------------- sorting by number

  predicate Precedes(a: Entry, b: Entry, descending: bool) {
    if descending then a.attempt.number >= b.attempt.number else a.attempt.number <= b.attempt.number
  }

  function Insert(e: Entry, sorted: seq<Entry>, descending: bool): (r: seq<Entry>)
    ensures multiset(r) == multiset(sorted) + multiset{e}
  {
    if sorted == [] then [e]
    else if Precedes(e, sorted[0], descending) then [e] + sorted
    else
      assert sorted == [sorted[0]] + sorted[1..];
      [sorted[0]] + Insert(e, sorted[1..], descending)
  }

  /** `sorted(attempts, key=number, reverse=descending)`: equal numbers stay in order either way. */
  function Sort(list: seq<Entry>, descending: bool): (r: seq<Entry>)
    ensures multiset(r) == multiset(list)
  {
    if list == [] then []
    else
      assert list == [list[0]] + list[1..];
      Insert(list[0], Sort(list[1..], descending), descending)
  }

  predicate Ordered(s: seq<Entry>, descending: bool) {
    forall i, j | 0 <= i < j < |s| :: Precedes(s[i], s[j], descending)
  }

  lemma {:induction false} InsertOrdered(e: Entry, sorted: seq<Entry>, descending: bool)
    requires Ordered(sorted, descending)
    ensures Ordered(Insert(e, sorted, descending), descending)
  {
    if sorted != [] && !Precedes(e, sorted[0], descending) {
      InsertOrdered(e, sorted[1..], descending);
      var rest := Insert(e, sorted[1..], descending);
      forall j | 0 <= j < |rest| ensures Precedes(sorted[0], rest[j], descending) {
        assert rest[j] in multiset(rest);
        assert rest[j] == e || rest[j] in sorted[1..];
      }
    }
  }

  lemma {:induction false} SortOrdered(list: seq<Entry>, descending: bool)
    ensures Ordered(Sort(list, descending), descending)
  {
    if list != [] {
      SortOrdered(list[1..], descending);
      InsertOrdered(list[0], Sort(list[1..], descending), descending);
    }
  }

  /** `next((e for e in list if p(e)), None)`. */
  function FirstWhere(list: seq<Entry>, p: Entry -> bool): (r: Option<Entry>)
    ensures r.None? ==> forall e | e in list :: !p(e)
    ensures r.Some? ==> r.value in list && p(r.value)
  {
    if list == [] then None
    else if p(list[0]) then Some(list[0])
    else FirstWhere(list[1..], p)
  }

  lemma {:induction false} FirstPrecedes(list: seq<Entry>, p: Entry -> bool, descending: bool, e: Entry)
    requires Ordered(list, descending) && e in list && p(e)
    ensures FirstWhere(list, p).Some? && Precedes(FirstWhere(list, p).value, e, descending)
  {
    if !p(list[0]) {
      FirstPrecedes(list[1..], p, descending, e);
    }
  }

  /** Sorting and taking the first match finds a match with the extreme number. */
  lemma FirstSorted(list: seq<Entry>, p: Entry -> bool, descending: bool)
    ensures var r := FirstWhere(Sort(list, descending), p);
            && (r.None? <==> forall e | e in list :: !p(e))
            && (r.Some? ==> r.value in list && p(r.value))
            && (r.Some? ==> forall e | e in list && p(e) :: Precedes(r.value, e, descending))
  {
    var s := Sort(list, descending);
    assert forall e :: e in list <==> e in multiset(s);
    SortOrdered(list, descending);
    forall e | e in list && p(e)
      ensures e in s && FirstWhere(s, p).Some? && Precedes(FirstWhere(s, p).value, e, descending)
    {
      FirstPrecedes(s, p, descending, e);
    }
  }

  // ------------------------------------------------------------------- the summary

  datatype Summary = Summary(source: Option<Entry>, blockedBy: Option<Entry>) {
    predicate FollowUpAvailable() {
      source.Some? && blockedBy.None?
    }
  }

  predicate IsSource(e: Entry) {
    e.attempt.status in FOLLOW_UP_SOURCES
  }

  predicate IsRival(source: Option<Entry>, e: Entry) {
    source.Some? && e.id != source.value.id && e.attempt.status in BLOCKING
  }

  /** `operations_summary_view`, its follow-up fields. */
  function Summarize(attempts: seq<Entry>): Summary {
    var source := FirstWhere(Sort(attempts, true), IsSource);
    Summary(source, FirstWhere(Sort(attempts, false), e => IsRival(source, e)))
  }

  /** The list holds the task's rows, in any order. */
  predicate ListsTask(rows: seq<Attempt>, task: nat, list: seq<Entry>) {
    && (forall e | e in list :: e.id < |rows| && rows[e.id].task == task && e.attempt == rows[e.id])
    && (forall i: nat | i < |rows| && rows[i].task == task :: Entry(i, rows[i]) in list)
  }

  /** The blocking attempt shown is a row that blocks, none with a lesser number does, and none shown means none. */
  lemma ShownIsLeast(rows: seq<Attempt>, task: nat, list: seq<Entry>, i: nat)
    requires ListsTask(rows, task, list) && Summarize(list).source.Some?
    ensures var s := Summarize(list);
            var source := s.source.value.id;
            match s.blockedBy
            case None => !Blocks(rows, task, source, i)
            case Some(b) =>
              && b in list && Blocks(rows, task, source, b.id)
              && (Blocks(rows, task, source, i) ==> rows[b.id].number <= rows[i].number)
  {
    var s := Summarize(list);
    var p := e => IsRival(s.source, e);
    FirstSorted(list, p, false);
    if Blocks(rows, task, s.source.value.id, i) {
      var e := Entry(i, rows[i]);
      assert e in list && p(e);
      assert Precedes(s.blockedBy.value, e, false);
    }
  }

  /** The blocking attempt shown is the one the policy finds for the named source. */
  lemma SameBlockingAttempt(rows: seq<Attempt>, task: nat, list: seq<Entry>)
    requires ListsTask(rows, task, list) && DistinctNumbers(rows, task)
    requires Summarize(list).source.Some?
    ensures var s := Summarize(list);
            var found := FindBlocking(rows, task, s.source.value.id, |rows|);
            if s.blockedBy.None? then found.None? else found == Some(s.blockedBy.value.id) && s.blockedBy.value in list
  {
    var found := FindBlocking(rows, task, Summarize(list).source.value.id, |rows|);
    ShownIsLeast(rows, task, list, if found.Some? then found.value else 0);
  }

  /**
   * The summary agrees with the policy for the source it names: available exactly when
   * the policy lets the follow-up through, and else refused for the attempt it shows.
   * With no source named, no attempt of the task can be a source.
   */
  lemma SummaryAgreesWithPolicy(rows: seq<Attempt>, task: nat, list: seq<Entry>)
    requires ListsTask(rows, task, list) && DistinctNumbers(rows, task)
    ensures var s := Summarize(list);
            && (s.source.Some? ==> s.source.value.id < |rows| && rows[s.source.value.id].task == task)
            && (s.source.Some? ==>
                  var refusal := RetryRefusal(rows, task, s.source.value.id);
                  && (s.FollowUpAvailable() <==> refusal.None?)
                  && (!s.FollowUpAvailable() ==> refusal == Some(ActiveAttemptExists(s.blockedBy.value.id))))
            && (s.source.None? ==> forall i: nat | i < |rows| && rows[i].task == task ::
                  RetryRefusal(rows, task, i) == Some(NotFollowUpSource))
  {
    var s := Summarize(list);
    FirstSorted(list, IsSource, true);
    if s.source.Some? {
      SameBlockingAttempt(rows, task, list);
    } else {
      forall i: nat | i < |rows| && rows[i].task == task
        ensures RetryRefusal(rows, task, i) == Some(NotFollowUpSource)
      {
        assert !IsSource(Entry(i, rows[i]));
      }
    }
  }

  /** In every reachable table the numbers are distinct, so the two always agree. */
  lemma ReachableSummaryAgrees(steps: seq<Step>, task: nat, list: seq<Entry>)
    requires ListsTask(Run([], steps), task, list)
    ensures var s, rows := Summarize(list), Run([], steps);
            && (s.source.Some? ==> s.source.value.id < |rows|)
            && (s.FollowUpAvailable() <==> s.source.Some? && RetryRefusal(rows, task, s.source.value.id).None?)
  {
    NumbersAreOneToN(steps, task, 0);
    SummaryAgreesWithPolicy(Run([], steps), task, list);
  }

  /** The shown blocking attempt is itself open for review and nothing else blocks. */
  predicate OnlyReviewBlocks(rows: seq<Attempt>, task: nat, s: Summary) {
    && s.source.Some? && s.blockedBy.Some? && s.blockedBy.value.attempt.status in REVIEWABLE
    && FindBlocking(rows, task, s.blockedBy.value.id, |rows|).None?
  }

  lemma MissedSource(rows: seq<Attempt>, task: nat, list: seq<Entry>, i: nat)
    requires ListsTask(rows, task, list) && DistinctNumbers(rows, task)
    requires Summarize(list).source.Some? && !Summarize(list).FollowUpAvailable()
    requires i < |rows| && rows[i].task == task && RetryRefusal(rows, task, i).None?
    ensures OnlyReviewBlocks(rows, task, Summarize(list))
  {
    var s := Summarize(list);
    SameBlockingAttempt(rows, task, list);
    var b := s.blockedBy.value;
    assert Blocks(rows, task, s.source.value.id, b.id) && !Blocks(rows, task, i, b.id);
    assert b == Entry(i, rows[i]);
  }

  /**
   * Whether some attempt of the task can be followed up: when the summary says so, or,
   * although it does not, from the attempt it shows as blocking if that one alone blocks
   * and is open for review.
   */
  lemma SummaryMissesExactly(rows: seq<Attempt>, task: nat, list: seq<Entry>)
    requires ListsTask(rows, task, list) && DistinctNumbers(rows, task)
    ensures var s := Summarize(list);
            (exists i: nat :: i < |rows| && rows[i].task == task && RetryRefusal(rows, task, i).None?)
              <==> s.FollowUpAvailable() || OnlyReviewBlocks(rows, task, s)
  {
    var s := Summarize(list);
    SummaryAgreesWithPolicy(rows, task, list);
    if s.FollowUpAvailable() {
      assert RetryRefusal(rows, task, s.source.value.id).None?;
    } else if s.source.Some? {
      if OnlyReviewBlocks(rows, task, s) {
        SameBlockingAttempt(rows, task, list);
        assert RetryRefusal(rows, task, s.blockedBy.value.id).None?;
      }
      if i: nat :| i < |rows| && rows[i].task == task && RetryRefusal(rows, task, i).None? {
        MissedSource(rows, task, list, i);
      }
    }
  }

  /** An attempt open for review and a later failed one that `create_attempt` let in. */
  const MISSED := [Attempt(0, 1, Committed, None, None), Attempt(0, 2, WorkerFailed, None, None)]

  lemma MissedAccepts()
    ensures RetryRefusal(MISSED, 0, 0).None?
  {
    assert !Blocks(MISSED, 0, 0, 0) && !Blocks(MISSED, 0, 0, 1);
    if FindBlocking(MISSED, 0, 0, 2).Some? {
      assert false;
    }
  }

  /** Of the two the summary names the later as the source. */
  lemma MissedNames(list: seq<Entry>)
    requires ListsTask(MISSED, 0, list)
    ensures Summarize(list).source.Some? && Summarize(list).source.value.id == 1
  {
    var second := Entry(1, MISSED[1]);
    FirstSorted(list, IsSource, true);
    assert second in list && IsSource(second);
    assert Precedes(Summarize(list).source.value, second, true);
  }

  /** However its rows are listed, the summary offers no follow-up, and the policy accepts one. */
  lemma SummaryCanMiss(list: seq<Entry>)
    requires ListsTask(MISSED, 0, list)
    ensures !Summarize(list).FollowUpAvailable() && RetryRefusal(MISSED, 0, 0).None?
  {
    MissedNames(list);
    SameBlockingAttempt(MISSED, 0, list);
    assert Blocks(MISSED, 0, 1, 0);
    MissedAccepts();
  }

  const FIRST := Attempt(0, 1, Created, None, None)
  const SECOND := Attempt(0, 2, Created, None, None)

  /** The table above is reached. */
  lemma MissedReachable()
    ensures exists steps: seq<Step> :: Run([], steps) == MISSED
  {
    var last := [DoMove(1, WorkerFailed)];
    var started := [FIRST.(status := RunningWorker)];
    var committed := [FIRST.(status := Committed)];
    assert MaxNumber([], 0) == 0 && MaxNumber(committed, 0) == 1;
    FirstStep(committed + [SECOND], DoMove(1, WorkerFailed), [], MISSED);
    FirstStep(committed, DoCreate(0), last, committed + [SECOND]);
    FirstStep(started, DoMove(0, Committed), [DoCreate(0)] + last, committed);
    FirstStep([FIRST], DoMove(0, RunningWorker), [DoMove(0, Committed)] + ([DoCreate(0)] + last), started);
    FirstStep([], DoCreate(0), [DoMove(0, RunningWorker)] + ([DoMove(0, Committed)] + ([DoCreate(0)] + last)), [FIRST]);
  }
}
