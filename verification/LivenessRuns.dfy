/** Heartbeats against recovery: which running run is recovered, and when. */
module LivenessRuns {
  import opened Common
  import opened Statuses
  import opened Liveness
  import Runs

  /** What happens to the runs, each at its time. */
  datatype Event =
    | BeatAt(worker: Id, at: int)                                // a heartbeat of a worker that is not revoked
    | TickAt(at: int)                                            // a scheduler tick
    | RecoverAt(at: int, limit: int, filter: Filter)             // the owner's tool, with its own filter and timeout
    | Begin(run: nat, at: int)                                   // a run is marked running with a lease
    | End(run: nat, at: int, status: RunStatus)                  // a run ends by itself

  function Apply(s: State, e: Event, timeout: int): State {
    match e
    case BeatAt(w, at) => Beat(s, w, at)
    case TickAt(at) => if timeout > 0 then GlobalPass(s, at, timeout) else s
    case RecoverAt(at, limit, f) => if limit > 0 then Recovered(s, at, limit, f) else s
    case Begin(k, at) => if k < |s.runs| then s.(runs := s.runs[k := MarkRunning(s.runs[k], at, timeout)]) else s
    case End(k, at, status) => if k < |s.runs| then s.(runs := s.runs[k := s.runs[k].(status := status)]) else s
  }

  function Next(timeout: int): (State, Event) -> State {
    (s: State, e: Event) => Apply(s, e, timeout)
  }

  function After(s: State, es: seq<Event>, timeout: int): State {
    Runs.Fold(Next(timeout), s, es)
  }

  predicate Timed(es: seq<Event>) {
    forall i, j | 0 <= i < j < |es| :: es[i].at <= es[j].at
  }

  predicate RunIs(s: State, k: nat, status: RunStatus) {
    k < |s.runs| && s.runs[k].status == status
  }

  predicate IsBeat(e: Event, worker: Id) {
    e.BeatAt? && e.worker == worker
  }

  predicate IsBegin(e: Event, k: nat) {
    e.Begin? && e.run == k
  }

  /** The event is a recovery that looks at the run; one with a timeout that is not positive looks at none. */
  predicate Visits(e: Event, key: Key, timeout: int) {
    match e
    case TickAt(_) => timeout > 0
    case RecoverAt(_, limit, f) => limit > 0 && Covers(f, key)
    case _ => false
  }

  /** Run `k` does not end by itself; it may be marked running again. */
  predicate NoEnd(es: seq<Event>, k: nat) {
    forall i | 0 <= i < |es| :: !(es[i].End? && es[i].run == k)
  }

  /** A heartbeat of its worker, or a marking, renews the lease of a run. */
  predicate Renews(e: Event, worker: Id, k: nat) {
    IsBeat(e, worker) || IsBegin(e, k)
  }

  function RenewedUntil(e: Event, timeout: int): int {
    if e.Begin? then e.at + timeout else e.at + LEASE_TTL
  }

  /** Run `k` of `worker`, leased until `lease` at first, is due at this time after `es`. */
  function Deadline(es: seq<Event>, worker: Id, k: nat, lease: int, timeout: int): int {
    if es == [] then lease
    else if Renews(es[|es| - 1], worker, k) then RenewedUntil(es[|es| - 1], timeout)
    else Deadline(es[..|es| - 1], worker, k, lease, timeout)
  }

  lemma {:induction false} RunsKeepTheirPlace(s: State, es: seq<Event>, timeout: int, k: nat)
    requires k < |s.runs|
    ensures |After(s, es, timeout).runs| == |s.runs| && KeyOf(After(s, es, timeout).runs[k]) == KeyOf(s.runs[k])
  {
    if es != [] {
      RunsKeepTheirPlace(s, es[..|es| - 1], timeout, k);
    }
  }

  predicate BeginFollows(es: seq<Event>, i: int, k: nat)
    requires 0 <= i < |es|
  {
    exists m | i < m < |es| :: IsBegin(es[m], k)
  }

  /** Event `i` is no recovery of the run, or comes before its deadline of then, or before a later marking. */
  predicate KeptAt(es: seq<Event>, i: int, key: Key, k: nat, lease: int, timeout: int)
    requires 0 <= i < |es|
  {
    Visits(es[i], key, timeout) && !BeginFollows(es, i, k) ==>
      es[i].at < Deadline(es[..i], key.worker, k, lease, timeout)
  }

  /** Every recovery of the run after its last marking comes before the deadline that stands by then. */
  predicate Kept(es: seq<Event>, key: Key, k: nat, lease: int, timeout: int) {
    forall i | 0 <= i < |es| :: KeptAt(es, i, key, k, lease, timeout)
  }

  /** What one more event does to `Kept`. */
  lemma KeptSnoc(es: seq<Event>, key: Key, k: nat, lease: int, timeout: int)
    requires es != []
    ensures var init, e := es[..|es| - 1], es[|es| - 1];
            Kept(es, key, k, lease, timeout) <==>
              || IsBegin(e, k)
              || (Kept(init, key, k, lease, timeout)
                  && (Visits(e, key, timeout) ==> e.at < Deadline(init, key.worker, k, lease, timeout)))
  {
    var init, last := es[..|es| - 1], |es| - 1;
    forall i | 0 <= i < last
      ensures KeptAt(es, i, key, k, lease, timeout) <==>
                KeptAt(init, i, key, k, lease, timeout) || IsBegin(es[last], k)
    {
      assert init[..i] == es[..i] && init[i] == es[i];
      if m :| i < m < |es| && IsBegin(es[m], k) {
        assert m < last ==> IsBegin(init[m], k);
      }
      if m :| i < m < |init| && IsBegin(init[m], k) {
        assert IsBegin(es[m], k);
      }
    }
    assert KeptAt(es, last, key, k, lease, timeout) <==>
           (Visits(es[last], key, timeout) ==> es[last].at < Deadline(init, key.worker, k, lease, timeout));
  }

  /** What a recovery does to a leased running run. */
  lemma RecoveryExact(s: State, e: Event, timeout: int, k: nat)
    requires k < |s.runs| && s.runs[k].status == RunRunning && s.runs[k].leaseEnd.Some?
    requires e.TickAt? || e.RecoverAt?
    ensures var r := Apply(s, e, timeout).runs[k];
            if Visits(e, KeyOf(s.runs[k]), timeout) && s.runs[k].leaseEnd.value <= e.at
            then r.status == RunFailed else r == s.runs[k]
  {
    if e.TickAt? {
      GlobalPassExact(s, e.at, timeout);
    }
  }

  /** And to any other: a run that is not running stays as it is. */
  lemma RecoverySpares(s: State, e: Event, timeout: int, k: nat)
    requires k < |s.runs| && s.runs[k].status != RunRunning && (e.TickAt? || e.RecoverAt?)
    ensures Apply(s, e, timeout).runs[k] == s.runs[k]
  {
    if e.TickAt? {
      GlobalPassExact(s, e.at, timeout);
    }
  }

  /**
   * A leased running run is running after `es` exactly when every tick, and every other
   * recovery that looks at it, since it was last marked came before the deadline, and then
   * its lease is that deadline; otherwise it has failed.
   */
  lemma {:induction false} SurvivesExactly(s: State, es: seq<Event>, timeout: int, k: nat)
    requires k < |s.runs| && s.runs[k].status == RunRunning && s.runs[k].leaseEnd.Some? && NoEnd(es, k)
    ensures |After(s, es, timeout).runs| == |s.runs|
    ensures var r, key, lease := After(s, es, timeout).runs[k], KeyOf(s.runs[k]), s.runs[k].leaseEnd.value;
            if Kept(es, key, k, lease, timeout)
            then r.status == RunRunning && r.leaseEnd == Some(Deadline(es, key.worker, k, lease, timeout))
            else r.status == RunFailed
  {
    if es != [] {
      var init, e := es[..|es| - 1], es[|es| - 1];
      var mid := After(s, init, timeout);
      RunsKeepTheirPlace(s, init, timeout, k);
      assert NoEnd(init, k) && !(e.End? && e.run == k);
      SurvivesExactly(s, init, timeout, k);
      KeptSnoc(es, KeyOf(s.runs[k]), k, s.runs[k].leaseEnd.value, timeout);
      if e.TickAt? || e.RecoverAt? {
        if mid.runs[k].status == RunRunning {
          RecoveryExact(mid, e, timeout, k);
        } else {
          RecoverySpares(mid, e, timeout, k);
        }
      }
    }
  }

  // ------------------------------------------------------------------ signs of life

  /** When the run was last renewed among the events, if it was. */
  function LastRenewal(es: seq<Event>, worker: Id, k: nat): Option<int> {
    if es == [] then None
    else if Renews(es[|es| - 1], worker, k) then Some(es[|es| - 1].at)
    else LastRenewal(es[..|es| - 1], worker, k)
  }

  /** While a run survives, its last sign of life is its last renewal: a heartbeat of its worker or a marking. */
  lemma {:induction false} LastSignOfLife(s: State, es: seq<Event>, timeout: int, k: nat)
    requires k < |s.runs| && s.runs[k].status == RunRunning && s.runs[k].leaseEnd.Some? && NoEnd(es, k)
    requires Kept(es, KeyOf(s.runs[k]), k, s.runs[k].leaseEnd.value, timeout)
    ensures k < |After(s, es, timeout).runs|
    ensures After(s, es, timeout).runs[k].lastHeartbeat ==
            match LastRenewal(es, s.runs[k].worker, k)
            case Some(at) => Some(at)
            case None => s.runs[k].lastHeartbeat
  {
    RunsKeepTheirPlace(s, es, timeout, k);
    if es != [] {
      var init, e := es[..|es| - 1], es[|es| - 1];
      var mid := After(s, init, timeout);
      RunsKeepTheirPlace(s, init, timeout, k);
      assert NoEnd(init, k) && !(e.End? && e.run == k);
      KeptSnoc(es, KeyOf(s.runs[k]), k, s.runs[k].leaseEnd.value, timeout);
      SurvivesExactly(s, init, timeout, k);
      if !IsBegin(e, k) {
        LastSignOfLife(s, init, timeout, k);
        if e.TickAt? || e.RecoverAt? {
          RecoveryExact(mid, e, timeout, k);
        }
      }
    }
  }

  /** A run that is not running is touched by its own marking or end only. */
  lemma RestingRunStays(s: State, e: Event, timeout: int, k: nat)
    requires k < |s.runs| && s.runs[k].status != RunRunning && !IsBegin(e, k) && !(e.End? && e.run == k)
    ensures k < |Apply(s, e, timeout).runs| && Apply(s, e, timeout).runs[k] == s.runs[k]
  {
    if e.TickAt? || e.RecoverAt? {
      RecoverySpares(s, e, timeout, k);
    }
  }

  lemma StepKeepsStart(s: State, e: Event, timeout: int, k: nat)
    requires k < |s.runs|
    ensures k < |Apply(s, e, timeout).runs|
    ensures Apply(s, e, timeout).runs[k].startedAt ==
            if s.runs[k].startedAt.None? && IsBegin(e, k) then Some(e.at) else s.runs[k].startedAt
  {
    if e.TickAt? {
      GlobalPassExact(s, e.at, timeout);
    }
  }

  /** A run has started once and for all with its first marking. */
  lemma {:induction false} StartedOnce(s: State, es: seq<Event>, timeout: int, k: nat, b: nat)
    requires k < |s.runs| && s.runs[k].startedAt.None? && b < |es|
    requires IsBegin(es[b], k) && forall i | 0 <= i < b :: !IsBegin(es[i], k)
    ensures k < |After(s, es, timeout).runs| && After(s, es, timeout).runs[k].startedAt == Some(es[b].at)
  {
    var init, e := es[..|es| - 1], es[|es| - 1];
    RunsKeepTheirPlace(s, init, timeout, k);
    if b < |es| - 1 {
      StartedOnce(s, init, timeout, k, b);
    } else {
      NotStarted(s, init, timeout, k);
    }
    StepKeepsStart(After(s, init, timeout), e, timeout, k);
  }

  lemma {:induction false} NotStarted(s: State, es: seq<Event>, timeout: int, k: nat)
    requires k < |s.runs| && s.runs[k].startedAt.None? && forall i | 0 <= i < |es| :: !IsBegin(es[i], k)
    ensures k < |After(s, es, timeout).runs| && After(s, es, timeout).runs[k].startedAt.None?
  {
    if es != [] {
      NotStarted(s, es[..|es| - 1], timeout, k);
      StepKeepsStart(After(s, es[..|es| - 1], timeout), es[|es| - 1], timeout, k);
    }
  }

  // --------------------------------------------------------------- from the start

  function LastBeat(es: seq<Event>, worker: Id): Option<int> {
    if es == [] then None
    else if IsBeat(es[|es| - 1], worker) then Some(es[|es| - 1].at)
    else LastBeat(es[..|es| - 1], worker)
  }

  /** The events leave the fate of run `k` to heartbeats and recoveries. */
  predicate LeftAlone(es: seq<Event>, k: nat) {
    NoEnd(es, k) && forall i | 0 <= i < |es| :: !IsBegin(es[i], k)
  }

  /** When a run marked at `start` is due: one term after the last heartbeat, or at the end of its first lease. */
  function DueTime(es: seq<Event>, worker: Id, start: int, timeout: int): int {
    match LastBeat(es, worker)
    case None => start + timeout
    case Some(beat) => beat + LEASE_TTL
  }

  lemma {:induction false} DeadlineIsDueTime(es: seq<Event>, worker: Id, k: nat, start: int, timeout: int)
    requires LeftAlone(es, k)
    ensures Deadline(es, worker, k, start + timeout, timeout) == DueTime(es, worker, start, timeout)
  {
    if es != [] {
      DeadlineIsDueTime(es[..|es| - 1], worker, k, start, timeout);
    }
  }

  predicate InTime(es: seq<Event>, i: int, key: Key, start: int, timeout: int)
    requires 0 <= i < |es|
  {
    Visits(es[i], key, timeout) ==> es[i].at < DueTime(es[..i], key.worker, start, timeout)
  }

  /** Every recovery that looks at the run comes before it is due. */
  predicate AllInTime(es: seq<Event>, key: Key, start: int, timeout: int) {
    forall i | 0 <= i < |es| :: InTime(es, i, key, start, timeout)
  }

  lemma KeptIsInTime(es: seq<Event>, key: Key, k: nat, start: int, timeout: int)
    requires LeftAlone(es, k)
    ensures NoEnd(es, k)
    ensures Kept(es, key, k, start + timeout, timeout) <==> AllInTime(es, key, start, timeout)
    ensures Deadline(es, key.worker, k, start + timeout, timeout) == DueTime(es, key.worker, start, timeout)
  {
    var lease := start + timeout;
    DeadlineIsDueTime(es, key.worker, k, start, timeout);
    forall i | 0 <= i < |es|
      ensures KeptAt(es, i, key, k, lease, timeout) <==> InTime(es, i, key, start, timeout)
    {
      DeadlineIsDueTime(es[..i], key.worker, k, start, timeout);
      assert !BeginFollows(es, i, k);
    }
    if AllInTime(es, key, start, timeout) {
      forall i | 0 <= i < |es| ensures KeptAt(es, i, key, k, lease, timeout) {
        assert InTime(es, i, key, start, timeout);
      }
    }
  }

  /** Just after its marking the run is running under its first lease. */
  lemma JustMarked(s: State, es: seq<Event>, timeout: int, k: nat, b: nat)
    requires k < |s.runs| && b < |es| && IsBegin(es[b], k)
    ensures var marked := After(s, es[..b + 1], timeout);
            && |marked.runs| == |s.runs| && KeyOf(marked.runs[k]) == KeyOf(s.runs[k])
            && marked.runs[k].status == RunRunning && marked.runs[k].leaseEnd == Some(es[b].at + timeout)
  {
    RunsKeepTheirPlace(s, es[..b], timeout, k);
    assert es[..b + 1][..b] == es[..b];
  }

  lemma SplitAfter(s: State, es: seq<Event>, n: nat, timeout: int)
    requires n <= |es|
    ensures After(s, es, timeout) == After(After(s, es[..n], timeout), es[n..], timeout)
  {
    Runs.FoldConcat(Next(timeout), s, es[..n], es[n..]);
    assert es[..n] + es[n..] == es;
  }

  /** A run just marked, and left to heartbeats and recoveries. */
  lemma MarkedSurvivesExactly(s: State, es: seq<Event>, timeout: int, k: nat, start: int)
    requires k < |s.runs| && s.runs[k].status == RunRunning && s.runs[k].leaseEnd == Some(start + timeout)
    requires LeftAlone(es, k)
    ensures |After(s, es, timeout).runs| == |s.runs|
    ensures var r, key := After(s, es, timeout).runs[k], KeyOf(s.runs[k]);
            if AllInTime(es, key, start, timeout)
            then r.status == RunRunning && r.leaseEnd == Some(DueTime(es, key.worker, start, timeout))
            else r.status == RunFailed
  {
    KeptIsInTime(es, KeyOf(s.runs[k]), k, start, timeout);
    SurvivesExactly(s, es, timeout, k);
  }

  /**
   * Whatever became of a run before: once it is marked running at event `b`, and left to
   * heartbeats and recoveries from then on, it is running exactly as long as every tick,
   * and every other recovery that looks at it, comes before it is due, with a lease up to
   * that time, and has failed otherwise.
   */
  lemma StartedRunSurvivesExactly(s: State, es: seq<Event>, timeout: int, k: nat, b: nat)
    requires k < |s.runs| && b < |es| && IsBegin(es[b], k) && LeftAlone(es[b + 1..], k)
    ensures |After(s, es, timeout).runs| == |s.runs|
    ensures var r, key, since, start := After(s, es, timeout).runs[k], KeyOf(s.runs[k]), es[b + 1..], es[b].at;
            if AllInTime(since, key, start, timeout)
            then r.status == RunRunning && r.leaseEnd == Some(DueTime(since, key.worker, start, timeout))
            else r.status == RunFailed
  {
    JustMarked(s, es, timeout, k, b);
    SplitAfter(s, es, b + 1, timeout);
    MarkedSurvivesExactly(After(s, es[..b + 1], timeout), es[b + 1..], timeout, k, es[b].at);
  }

  // ------------------------------------------------------------- regular heartbeats

  predicate RenewalFollows(es: seq<Event>, j: int, worker: Id, k: nat)
    requires 0 <= j < |es|
  {
    exists m | j < m < |es| :: Renews(es[m], worker, k)
  }

  /** Each renewal comes before the run is due, and so does every recovery of it after the last one. */
  predicate RegularBeats(es: seq<Event>, key: Key, k: nat, lease: int, timeout: int) {
    && (forall j | 0 <= j < |es| && Renews(es[j], key.worker, k) ::
          es[j].at < Deadline(es[..j], key.worker, k, lease, timeout))
    && (forall j | 0 <= j < |es| && Visits(es[j], key, timeout) && !RenewalFollows(es, j, key.worker, k) ::
          es[j].at < Deadline(es[..j], key.worker, k, lease, timeout))
  }

  lemma {:induction false} SameDeadline(
      es: seq<Event>, i: nat, j: nat, worker: Id, k: nat, lease: int, timeout: int)
    requires i <= j <= |es| && forall m | i <= m < j :: !Renews(es[m], worker, k)
    ensures Deadline(es[..j], worker, k, lease, timeout) == Deadline(es[..i], worker, k, lease, timeout)
    decreases j
  {
    if i < j {
      assert es[..j][..j - 1] == es[..j - 1];
      SameDeadline(es, i, j - 1, worker, k, lease, timeout);
    }
  }

  function NextRenewal(es: seq<Event>, i: nat, worker: Id, k: nat): (j: nat)
    requires i < |es| && RenewalFollows(es, i, worker, k)
    ensures i < j < |es| && Renews(es[j], worker, k) && forall m | i < m < j :: !Renews(es[m], worker, k)
    decreases |es| - i
  {
    if Renews(es[i + 1], worker, k) then i + 1 else NextRenewal(es, i + 1, worker, k)
  }

  lemma VisitBeforeDeadline(es: seq<Event>, i: nat, key: Key, k: nat, lease: int, timeout: int)
    requires Timed(es) && RegularBeats(es, key, k, lease, timeout) && i < |es| && Visits(es[i], key, timeout)
    ensures es[i].at < Deadline(es[..i], key.worker, k, lease, timeout)
  {
    if RenewalFollows(es, i, key.worker, k) {
      var j := NextRenewal(es, i, key.worker, k);
      SameDeadline(es, i, j, key.worker, k, lease, timeout);
    }
  }

  /**
   * A run whose worker keeps beating in time (the first beat before its first lease
   * ends, the gaps under a term) is never recovered, however the ticks fall, whenever
   * the owner recovers runs by hand and however often it is marked running again: it is
   * running after every event.
   */
  lemma NeverRecovered(s: State, es: seq<Event>, timeout: int, k: nat, n: nat)
    requires k < |s.runs| && s.runs[k].status == RunRunning && s.runs[k].leaseEnd.Some? && NoEnd(es, k)
    requires Timed(es) && RegularBeats(es, KeyOf(s.runs[k]), k, s.runs[k].leaseEnd.value, timeout)
    requires n <= |es|
    ensures RunIs(After(s, es[..n], timeout), k, RunRunning)
  {
    var key, lease := KeyOf(s.runs[k]), s.runs[k].leaseEnd.value;
    forall i | 0 <= i < n ensures KeptAt(es[..n], i, key, k, lease, timeout) {
      if Visits(es[i], key, timeout) {
        VisitBeforeDeadline(es, i, key, k, lease, timeout);
      }
      assert es[..n][..i] == es[..i];
    }
    SurvivesExactly(s, es[..n], timeout, k);
  }

  /**
   * When the worker stops beating, the first recovery of the run at or after the deadline,
   * a tick or by hand, fails it, and none before does.
   */
  lemma SilentRunFailsAtFirstDueVisit(s: State, es: seq<Event>, timeout: int, k: nat, stop: nat, visit: nat)
    requires k < |s.runs| && s.runs[k].status == RunRunning && s.runs[k].leaseEnd.Some? && NoEnd(es, k)
    requires stop <= visit < |es| && Visits(es[visit], KeyOf(s.runs[k]), timeout)
    requires forall m | stop <= m < |es| :: !Renews(es[m], s.runs[k].worker, k)
    requires Kept(es[..stop], KeyOf(s.runs[k]), k, s.runs[k].leaseEnd.value, timeout)
    requires var key := KeyOf(s.runs[k]);
             var due := Deadline(es[..stop], key.worker, k, s.runs[k].leaseEnd.value, timeout);
             && es[visit].at >= due
             && forall m | stop <= m < visit && Visits(es[m], key, timeout) :: es[m].at < due
    ensures RunIs(After(s, es[..visit], timeout), k, RunRunning)
    ensures RunIs(After(s, es[..visit + 1], timeout), k, RunFailed)
    ensures RunIs(After(s, es, timeout), k, RunFailed)
  {
    var key, lease := KeyOf(s.runs[k]), s.runs[k].leaseEnd.value;
    KeptWhileQuiet(es, stop, visit, key, k, lease, timeout);
    SameDeadline(es, stop, visit, key.worker, k, lease, timeout);
    assert NoEnd(es[..visit], k);
    SurvivesExactly(s, es[..visit], timeout, k);
    FailedFrom(s, es, timeout, k, visit, visit + 1);
    FailedFrom(s, es, timeout, k, visit, |es|);
    assert es[..|es|] == es;
  }

  lemma FailedFrom(s: State, es: seq<Event>, timeout: int, k: nat, visit: nat, n: nat)
    requires k < |s.runs| && s.runs[k].status == RunRunning && s.runs[k].leaseEnd.Some? && NoEnd(es, k)
    requires visit < n <= |es| && Visits(es[visit], KeyOf(s.runs[k]), timeout)
    requires forall m | visit <= m < |es| :: !IsBegin(es[m], k)
    requires es[visit].at >= Deadline(es[..visit], s.runs[k].worker, k, s.runs[k].leaseEnd.value, timeout)
    ensures RunIs(After(s, es[..n], timeout), k, RunFailed)
  {
    NotKeptAfter(es, visit, n, KeyOf(s.runs[k]), k, s.runs[k].leaseEnd.value, timeout);
    assert NoEnd(es[..n], k);
    SurvivesExactly(s, es[..n], timeout, k);
  }

  lemma {:induction false} KeptWhileQuiet(
      es: seq<Event>, stop: nat, n: nat, key: Key, k: nat, lease: int, timeout: int)
    requires stop <= n <= |es| && Kept(es[..stop], key, k, lease, timeout)
    requires forall m | stop <= m < n :: !Renews(es[m], key.worker, k)
    requires forall m | stop <= m < n && Visits(es[m], key, timeout) ::
               es[m].at < Deadline(es[..stop], key.worker, k, lease, timeout)
    ensures Kept(es[..n], key, k, lease, timeout)
    decreases n
  {
    if stop < n {
      KeptWhileQuiet(es, stop, n - 1, key, k, lease, timeout);
      SameDeadline(es, stop, n - 1, key.worker, k, lease, timeout);
      assert es[..n][..n - 1] == es[..n - 1];
      KeptSnoc(es[..n], key, k, lease, timeout);
    }
  }

  lemma NotKeptAfter(es: seq<Event>, visit: nat, n: nat, key: Key, k: nat, lease: int, timeout: int)
    requires visit < n <= |es| && Visits(es[visit], key, timeout)
    requires es[visit].at >= Deadline(es[..visit], key.worker, k, lease, timeout)
    requires forall m | visit <= m < |es| :: !IsBegin(es[m], k)
    ensures !Kept(es[..n], key, k, lease, timeout)
  {
    assert es[..n][..visit] == es[..visit] && es[..n][visit] == es[visit];
    assert !BeginFollows(es[..n], visit, k);
    assert !KeptAt(es[..n], visit, key, k, lease, timeout);
  }
}
