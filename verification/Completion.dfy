/** Every job ends, in a system that is never closed: clients enqueue at any time, executors crash, leases are
    reclaimed. Runs are endless sequences of steps from the empty table. */
module Completion {
  import opened Wrappers
  import opened JobTypes
  import opened JobQueue
  import opened LeaseProtocol
  import opened LeaseExclusion

  ghost predicate Sane(cfg: Config, row: Row) {
    Exclusive(cfg, row) && Accounted(row)
  }

  ghost predicate AllSane(cfg: Config, s: State) {
    forall i | 0 <= i < |s.rows| :: Sane(cfg, s.rows[i])
  }

  /** A RUNNING job whose executor is gone. */
  predicate Stranded(row: Row) {
    row.job.status.Running? && row.job.attempts !in row.live
  }

  /** Work on a row: somebody claims it, or its execution finishes. */
  predicate WorksOn(s: State, a: Action, i: nat) {
    Enabled(s, a) && (a.Claim? || a.Finish?) && a.row == i
  }

  predicate CrashesOn(s: State, a: Action, i: nat) {
    Enabled(s, a) && a.Crash? && a.row == i
  }

  /** Twice the attempts left, plus one while an execution runs, plus two while one is stranded. */
  function Remaining(row: Row): nat {
    var left := if row.job.attempts < Cap(row.job) then Cap(row.job) - row.job.attempts else 0;
    if Terminal(row.job) then 0
    else 2 * left + (if row.job.status.Pending? then 0 else if Stranded(row) then 2 else 1)
  }

  lemma SaneStep(cfg: Config, s: State, a: Action, i: nat)
    requires i < |s.rows| && Sane(cfg, s.rows[i]) && Leased(cfg, s)
    ensures Sane(cfg, Evolved(cfg, s, a, i))
  {
  }

  /** Work brings a job nearer to its end; nothing else but a crash changes how near it is. */
  lemma RemainingStep(cfg: Config, s: State, a: Action, i: nat)
    requires i < |s.rows| && Sane(cfg, s.rows[i]) && Leased(cfg, s) && !CrashesOn(s, a, i)
    ensures var after := Evolved(cfg, s, a, i);
      if WorksOn(s, a, i) then Remaining(after) < Remaining(s.rows[i]) else OnlyLeaseMoved(s.rows[i], after)
  {
  }

  /** Nothing about a job changed but its lease, and not even that unless somebody executes it. */
  predicate OnlyLeaseMoved(was: Row, row: Row) {
    && Remaining(row) == Remaining(was) && row.live.Keys == was.live.Keys
    && row.job == was.job.(leaseExpiresAt := row.job.leaseExpiresAt)
    && (was.live == map[] ==> row.job == was.job && row.live == map[])
  }

  lemma LeaseMovesCompose(a: Row, b: Row, c: Row)
    requires OnlyLeaseMoved(a, b) && OnlyLeaseMoved(b, c)
    ensures OnlyLeaseMoved(a, c)
  {
  }

  lemma EndedStep(cfg: Config, s: State, a: Action, i: nat)
    requires i < |s.rows| && Sane(cfg, s.rows[i]) && Terminal(s.rows[i].job)
    ensures Evolved(cfg, s, a, i).job == s.rows[i].job
  {
  }

  /** Reclaims are paid for by crashes: a job is reclaimed, or waits to be, at most once for each of its crashes. */
  lemma ReclaimStep(cfg: Config, s: State, a: Action, i: nat)
    requires i < |s.rows| && Sane(cfg, s.rows[i]) && Leased(cfg, s)
    ensures var row, after := s.rows[i], Evolved(cfg, s, a, i);
      Reclaimable(after) <= Reclaimable(row) + if CrashesOn(s, a, i) then 1 else 0
  {
  }

  function Reclaimable(row: Row): nat {
    row.reclaims + if Stranded(row) then 1 else 0
  }

  // ---- endless runs ----

  /** Any actions at all, except that executors keep renewing their leases. */
  ghost predicate LeasedRun(cfg: Config, run: nat -> State, act: nat -> Action) {
    && run(0) == EMPTY
    && (forall n: nat :: run(n + 1) == Next(cfg, run(n), act(n)))
    && (forall n: nat :: Leased(cfg, run(n)))
  }

  ghost predicate Passes(run: nat -> State, t: Time) {
    exists n: nat :: run(n).now >= t
  }

  ghost predicate TimePasses(run: nat -> State) {
    forall t: Time :: Passes(run, t)
  }

  ghost predicate NoCrashFrom(run: nat -> State, act: nat -> Action, i: nat, n: nat) {
    forall k: nat | n <= k :: !CrashesOn(run(k), act(k), i)
  }

  /** Row i could be claimed, or is being executed. */
  predicate Ready(s: State, i: nat) {
    i < |s.rows| && (Eligible(s.rows[i].job, s.now) || s.rows[i].live != map[])
  }

  ghost predicate ReadyFrom(run: nat -> State, i: nat, n: nat) {
    forall k: nat | n <= k :: Ready(run(k), i)
  }

  ghost predicate WorkedOnFrom(run: nat -> State, act: nat -> Action, i: nat, n: nat) {
    exists k: nat :: n <= k && WorksOn(run(k), act(k), i)
  }

  /** A job that stays ready for ever is worked on eventually. */
  ghost predicate Attended(run: nat -> State, act: nat -> Action, i: nat) {
    forall n: nat :: ReadyFrom(run, i, n) ==> WorkedOnFrom(run, act, i, n)
  }

  function Crashes(run: nat -> State, act: nat -> Action, i: nat, n: nat): nat {
    if n == 0 then 0 else Crashes(run, act, i, n - 1) + if CrashesOn(run(n - 1), act(n - 1), i) then 1 else 0
  }

  ghost predicate EndedFrom(run: nat -> State, act: nat -> Action, i: nat, m: nat) {
    forall k: nat | m <= k ::
      && i < |run(k).rows| && Terminal(run(k).rows[i].job)
      && run(k).rows[i].claims <= Cap(run(k).rows[i].job) + Crashes(run, act, i, k)
  }

  ghost predicate RowsEvolve(cfg: Config, s: State, a: Action, t: State) {
    && |s.rows| <= |t.rows| && s.now <= t.now
    && (forall i: nat | i < |s.rows| :: t.rows[i] == Evolved(cfg, s, a, i))
    && (forall i: nat | |s.rows| <= i < |t.rows| :: IsFresh(t.rows[i], t.now))
  }

  lemma RunStep(cfg: Config, run: nat -> State, act: nat -> Action, n: nat)
    requires LeasedRun(cfg, run, act)
    ensures Leased(cfg, run(n))
    ensures RowsEvolve(cfg, run(n), act(n), run(n + 1))
  {
    assert run(n + 1) == Next(cfg, run(n), act(n));
    NextShape(cfg, run(n), act(n));
  }

  lemma {:induction false} RunIsSane(cfg: Config, run: nat -> State, act: nat -> Action, n: nat, i: nat)
    requires LeasedRun(cfg, run, act) && i < |run(n).rows|
    ensures Sane(cfg, run(n).rows[i]) && Reclaimable(run(n).rows[i]) <= Crashes(run, act, i, n)
  {
    if n > 0 {
      hide Next, Evolved, Leased, Sane, Reclaimable;
      RunStep(cfg, run, act, n - 1);
      if i < |run(n - 1).rows| {
        RunIsSane(cfg, run, act, n - 1, i);
        SaneStep(cfg, run(n - 1), act(n - 1), i);
        ReclaimStep(cfg, run(n - 1), act(n - 1), i);
      } else {
        FreshIsSane(cfg, run(n).rows[i], run(n).now);
      }
    }
  }

  lemma FreshIsSane(cfg: Config, row: Row, now: Time)
    requires IsFresh(row, now)
    ensures Sane(cfg, row) && Reclaimable(row) == 0
  {
  }

  lemma {:induction false} TimeIsMonotone(cfg: Config, run: nat -> State, act: nat -> Action, n: nat, k: nat)
    requires LeasedRun(cfg, run, act) && n <= k
    ensures run(n).now <= run(k).now && |run(n).rows| <= |run(k).rows|
  {
    if n < k {
      TimeIsMonotone(cfg, run, act, n, k - 1);
      RunStep(cfg, run, act, k - 1);
    }
  }

  lemma UntouchedStep(cfg: Config, run: nat -> State, act: nat -> Action, i: nat, k: nat)
    requires LeasedRun(cfg, run, act) && i < |run(k).rows|
    requires !CrashesOn(run(k), act(k), i) && !WorksOn(run(k), act(k), i)
    ensures i < |run(k + 1).rows| && OnlyLeaseMoved(run(k).rows[i], run(k + 1).rows[i])
  {
    hide Next, Evolved, Leased, Sane, OnlyLeaseMoved, WorksOn, CrashesOn;
    RunIsSane(cfg, run, act, k, i);
    RunStep(cfg, run, act, k);
    RemainingStep(cfg, run(k), act(k), i);
  }

  /** Between work steps, and without crashes, only the lease of a job changes, and only if somebody executes it. */
  lemma {:induction false} Untouched(cfg: Config, run: nat -> State, act: nat -> Action, i: nat, n: nat, k: nat)
    requires LeasedRun(cfg, run, act) && n <= k && i < |run(n).rows| && NoCrashFrom(run, act, i, n)
    requires forall j: nat | n <= j < k :: !WorksOn(run(j), act(j), i)
    ensures i < |run(k).rows| && OnlyLeaseMoved(run(n).rows[i], run(k).rows[i])
  {
    hide LeasedRun, WorksOn, CrashesOn, OnlyLeaseMoved;
    if n < k {
      Untouched(cfg, run, act, i, n, k - 1);
      UntouchedStep(cfg, run, act, i, k - 1);
      LeaseMovesCompose(run(n).rows[i], run(k - 1).rows[i], run(k).rows[i]);
    } else {
      NothingMoved(run(n).rows[i]);
    }
  }

  lemma NothingMoved(row: Row)
    ensures OnlyLeaseMoved(row, row)
  {
  }

  lemma {:induction false} FirstWorkOn(run: nat -> State, act: nat -> Action, i: nat, n: nat, k: nat) returns (f: nat)
    requires n <= k && WorksOn(run(k), act(k), i)
    ensures n <= f <= k && WorksOn(run(f), act(f), i) && forall j: nat | n <= j < f :: !WorksOn(run(j), act(j), i)
    decreases k - n
  {
    if WorksOn(run(n), act(n), i) { f := n; } else { f := FirstWorkOn(run, act, i, n + 1, k); }
  }

  /** When an unfinished job becomes ready, if nobody touches it before. */
  function DueAt(row: Row): Time {
    if row.job.status.Running? && row.job.leaseExpiresAt.Some? then row.job.leaseExpiresAt.value else row.job.availableAt
  }

  lemma DueMeansReady(cfg: Config, s: State, i: nat)
    requires i < |s.rows| && Sane(cfg, s.rows[i]) && !Terminal(s.rows[i].job)
    requires s.now >= DueAt(s.rows[i]) || s.rows[i].live != map[]
    ensures Ready(s, i)
  {
  }

  /** An unfinished job that nobody worked on again would stay ready for ever. */
  lemma SomebodyWorks(cfg: Config, run: nat -> State, act: nat -> Action, i: nat, n: nat) returns (k: nat)
    requires LeasedRun(cfg, run, act) && TimePasses(run) && Attended(run, act, i) && NoCrashFrom(run, act, i, n)
    requires i < |run(n).rows| && !Terminal(run(n).rows[i].job)
    ensures n <= k && WorksOn(run(k), act(k), i)
  {
    if !WorkedOnFrom(run, act, i, n) {
      var row := run(n).rows[i];
      assert Passes(run, DueAt(row));
      var due: nat :| run(due).now >= DueAt(row);
      var m := if due < n then n else due;
      forall k: nat | m <= k ensures Ready(run(k), i) {
        TimeIsMonotone(cfg, run, act, due, k);
        Untouched(cfg, run, act, i, n, k);
        RunIsSane(cfg, run, act, k, i);
        DueMeansReady(cfg, run(k), i);
      }
      assert ReadyFrom(run, i, m);
    }
    assert WorkedOnFrom(run, act, i, n);
    k :| n <= k && WorksOn(run(k), act(k), i);
  }

  lemma {:induction false} ReachesItsEnd(cfg: Config, run: nat -> State, act: nat -> Action, i: nat, n: nat)
    returns (m: nat)
    requires LeasedRun(cfg, run, act) && TimePasses(run) && Attended(run, act, i) && NoCrashFrom(run, act, i, n)
    requires i < |run(n).rows|
    ensures n <= m && i < |run(m).rows| && Terminal(run(m).rows[i].job)
    decreases Remaining(run(n).rows[i])
  {
    if Terminal(run(n).rows[i].job) {
      m := n;
    } else {
      var k := SomebodyWorks(cfg, run, act, i, n);
      var f := FirstWorkOn(run, act, i, n, k);
      Untouched(cfg, run, act, i, n, f);
      RunIsSane(cfg, run, act, f, i);
      RunStep(cfg, run, act, f);
      RemainingStep(cfg, run(f), act(f), i);
      m := ReachesItsEnd(cfg, run, act, i, f + 1);
    }
  }

  lemma {:induction false} StaysEnded(cfg: Config, run: nat -> State, act: nat -> Action, i: nat, m: nat, k: nat)
    requires LeasedRun(cfg, run, act) && m <= k && i < |run(m).rows| && Terminal(run(m).rows[i].job)
    ensures i < |run(k).rows| && run(k).rows[i].job == run(m).rows[i].job
    ensures run(k).rows[i].claims <= Cap(run(k).rows[i].job) + Crashes(run, act, i, k)
  {
    if m < k {
      hide Next, Evolved, Leased, Sane, Reclaimable;
      StaysEnded(cfg, run, act, i, m, k - 1);
      RunIsSane(cfg, run, act, k - 1, i);
      RunStep(cfg, run, act, k - 1);
      EndedStep(cfg, run(k - 1), act(k - 1), i);
    }
    RunIsSane(cfg, run, act, k, i);
    WithinEntitlement(cfg, run(k).rows[i]);
  }

  lemma WithinEntitlement(cfg: Config, row: Row)
    requires Sane(cfg, row)
    ensures row.claims <= Cap(row.job) + Reclaimable(row)
  {
  }

  /** Liveness: in a run whose executors keep their leases, a job that crashes only finitely often and is not
      ignored for ever ends SUCCEEDED or FAILED for good, claimed at most once per crash more often than it is
      entitled to, whatever clients and handlers enqueue meanwhile. */
  lemma EachJobEnds(cfg: Config, run: nat -> State, act: nat -> Action, i: nat, n: nat)
    requires LeasedRun(cfg, run, act) && TimePasses(run) && Attended(run, act, i)
    requires i < |run(n).rows| && NoCrashFrom(run, act, i, n)
    ensures exists m: nat :: n <= m && EndedFrom(run, act, i, m)
  {
    var m := ReachesItsEnd(cfg, run, act, i, n);
    forall k: nat | m <= k
      ensures i < |run(k).rows| && Terminal(run(k).rows[i].job)
              && run(k).rows[i].claims <= Cap(run(k).rows[i].job) + Crashes(run, act, i, k)
    {
      StaysEnded(cfg, run, act, i, m, k);
    }
    assert EndedFrom(run, act, i, m);
  }
}
