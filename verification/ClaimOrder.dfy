/** The ORDER BY of the claim starves nobody: fairness towards one job, which Completion needs, follows from workers
    that keep claiming something and executors that keep finishing. */
module ClaimOrder {
  import opened Wrappers
  import opened JobTypes
  import opened JobQueue
  import opened LeaseProtocol
  import opened LeaseExclusion
  import opened Completion

  predicate Claims(s: State, a: Action) {
    a.Claim? && Enabled(s, a)
  }

  /** The claim reads the present time and takes a least eligible row among those not locked; row i is not. */
  ghost predicate InOrder(s: State, a: Action, i: nat)
    requires a.Claim?
  {
    a.at == s.now && exists locked: set<nat> :: i !in locked && Picks(Jobs(s.rows), locked, s.now, a.row)
  }

  /** A job enqueued or put back is never made available at a time already past. */
  predicate NotBackdated(spec: JobSpec, now: Time) {
    spec.availableAt.Some? ==> spec.availableAt.value >= now
  }

  predicate Forward(cfg: Config, s: State, a: Action) {
    && cfg.baseDelay >= 0.0
    && (a.Enqueue? ==> NotBackdated(a.spec, s.now))
    && (a.Finish? ==> forall k | 0 <= k < |a.spawned| :: NotBackdated(a.spawned[k], s.now))
    && (a.Finish? && a.outcome.Rescheduled? ==> a.outcome.delay >= 0.0)
  }

  /** What a row still has to go through before row i, whose job is j, is first in the order. */
  function Ahead(row: Row, j: Job): nat {
    if NotAfter(row.job, j) then Remaining(row) else 0
  }

  function AllAhead(rows: seq<Row>, j: Job): nat {
    if rows == [] then 0 else AllAhead(rows[..|rows| - 1], j) + Ahead(rows[|rows| - 1], j)
  }

  lemma {:induction false} AheadUpdate(rows: seq<Row>, i: nat, row: Row, j: Job)
    requires i < |rows|
    ensures AllAhead(rows[i := row], j) + Ahead(rows[i], j) == AllAhead(rows, j) + Ahead(row, j)
  {
    hide Ahead;
    var n := |rows| - 1;
    if i == n {
      assert rows[i := row][..n] == rows[..n];
    } else {
      assert rows[i := row][..n] == rows[..n][i := row];
      AheadUpdate(rows[..n], i, row, j);
    }
  }

  lemma AheadAddRow(rows: seq<Row>, spec: JobSpec, now: Time, j: Job)
    requires NotBackdated(spec, now) && now > j.availableAt
    ensures AllAhead(AddRow(rows, spec, now), j) == AllAhead(rows, j)
  {
    assert (rows + [FreshRow(spec, now)])[..|rows|] == rows;
  }

  lemma {:induction false} AheadAddRows(rows: seq<Row>, specs: seq<JobSpec>, now: Time, j: Job)
    requires now > j.availableAt && forall k | 0 <= k < |specs| :: NotBackdated(specs[k], now)
    ensures AllAhead(AddRows(rows, specs, now), j) == AllAhead(rows, j)
  {
    hide AllAhead, AddRow, NotBackdated;
    if specs != [] {
      var n := |specs| - 1;
      AheadAddRows(rows, specs[..n], now, j);
      AheadAddRow(AddRows(rows, specs[..n], now), specs[n], now, j);
    }
  }

  /** Nobody gets in front of a job that is overdue; a claim of a row in front of it brings that row nearer its end,
      and a row put back goes behind. */
  lemma RowAheadStep(cfg: Config, s: State, a: Action, j: Job)
    requires Enabled(s, a) && !a.Crash? && !a.Tick? && !a.Enqueue?
    requires Sane(cfg, s.rows[a.row]) && Leased(cfg, s) && Forward(cfg, s, a) && s.now > j.availableAt
    ensures Ahead(StepRow(cfg, s.now, s.rows[a.row], a), j) <= Ahead(s.rows[a.row], j)
    ensures a.Claim? && NotAfter(s.rows[a.row].job, j) ==>
              Ahead(StepRow(cfg, s.now, s.rows[a.row], a), j) < Ahead(s.rows[a.row], j)
  {
    RemainingStep(cfg, s, a, a.row);
    assert Evolved(cfg, s, a, a.row) == StepRow(cfg, s.now, s.rows[a.row], a);
    if a.Finish? {
      var job := s.rows[a.row].job;
      assert cfg.baseDelay * RetryFactor(job) >= 0.0 by { DelayIsForward(cfg.baseDelay, RetryFactor(job)); }
    }
  }

  lemma DelayIsForward(base: real, factor: real)
    requires base >= 0.0 && factor >= 0.0
    ensures base * factor >= 0.0
  {
  }

  lemma AheadStep(cfg: Config, s: State, a: Action, j: Job)
    requires !(a.Crash? && Enabled(s, a)) && AllSane(cfg, s) && Leased(cfg, s) && Forward(cfg, s, a)
    requires s.now > j.availableAt
    ensures AllAhead(Next(cfg, s, a).rows, j) <= AllAhead(s.rows, j)
    ensures Claims(s, a) && NotAfter(s.rows[a.row].job, j) ==> AllAhead(Next(cfg, s, a).rows, j) < AllAhead(s.rows, j)
  {
    if Enabled(s, a) {
      if a.Enqueue? {
        AheadAddRow(s.rows, a.spec, s.now, j);
      } else if !a.Tick? {
        hide AllAhead, Ahead, Sane, Leased;
        var row := StepRow(cfg, s.now, s.rows[a.row], a);
        RowAheadStep(cfg, s, a, j);
        AheadUpdate(s.rows, a.row, row, j);
        if a.Finish? {
          AheadAddRows(s.rows[a.row := row], a.spawned, s.now, j);
        }
      }
    }
  }

  // ---- endless runs ----

  /** No executor crashes any more, and no job is dated back. */
  ghost predicate Quiet(cfg: Config, run: nat -> State, act: nat -> Action, n: nat) {
    && (forall k: nat | n <= k :: !(act(k).Crash? && Enabled(run(k), act(k))))
    && (forall k: nat | n <= k :: Forward(cfg, run(k), act(k)))
  }

  ghost predicate InOrderFrom(run: nat -> State, act: nat -> Action, i: nat, n: nat) {
    forall k: nat | n <= k && Claims(run(k), act(k)) :: InOrder(run(k), act(k), i)
  }

  ghost predicate ClaimableFrom(run: nat -> State, i: nat, n: nat) {
    forall k: nat | n <= k :: i < |run(k).rows| && Eligible(run(k).rows[i].job, run(k).now)
  }

  ghost predicate ClaimHappensFrom(run: nat -> State, act: nat -> Action, n: nat) {
    exists k: nat :: n <= k && Claims(run(k), act(k))
  }

  /** While there is something to claim, somebody claims something. */
  ghost predicate WorkersClaim(run: nat -> State, act: nat -> Action, i: nat) {
    forall n: nat :: ClaimableFrom(run, i, n) ==> ClaimHappensFrom(run, act, n)
  }

  ghost predicate ExecutedFrom(run: nat -> State, i: nat, n: nat) {
    forall k: nat | n <= k :: i < |run(k).rows| && run(k).rows[i].live != map[]
  }

  /** No execution of the job lasts for ever. */
  ghost predicate ExecutorsFinish(run: nat -> State, act: nat -> Action, i: nat) {
    forall n: nat :: !ExecutedFrom(run, i, n) || WorkedOnFrom(run, act, i, n)
  }

  lemma AllRowsSane(cfg: Config, run: nat -> State, act: nat -> Action, n: nat)
    requires LeasedRun(cfg, run, act)
    ensures AllSane(cfg, run(n))
  {
    forall i | 0 <= i < |run(n).rows| ensures Sane(cfg, run(n).rows[i]) {
      RunIsSane(cfg, run, act, n, i);
    }
  }

  lemma AheadRunStep(cfg: Config, run: nat -> State, act: nat -> Action, j: Job, n: nat, k: nat)
    requires LeasedRun(cfg, run, act) && Quiet(cfg, run, act, n) && n <= k && run(k).now > j.availableAt
    ensures AllAhead(run(k + 1).rows, j) <= AllAhead(run(k).rows, j) && run(k + 1).now > j.availableAt
    ensures Claims(run(k), act(k)) && NotAfter(run(k).rows[act(k).row].job, j) ==>
              AllAhead(run(k + 1).rows, j) < AllAhead(run(k).rows, j)
  {
    hide Next, AllAhead, Forward, Sane, Leased, NotAfter;
    AllRowsSane(cfg, run, act, k);
    RunStep(cfg, run, act, k);
    AheadStep(cfg, run(k), act(k), j);
    assert run(k + 1) == Next(cfg, run(k), act(k));
  }

  lemma {:induction false} AheadNeverGrows(cfg: Config, run: nat -> State, act: nat -> Action, j: Job, n: nat, k: nat)
    requires LeasedRun(cfg, run, act) && Quiet(cfg, run, act, n) && n <= k && run(n).now > j.availableAt
    ensures AllAhead(run(k).rows, j) <= AllAhead(run(n).rows, j) && run(k).now > j.availableAt
  {
    hide LeasedRun, Quiet, AllAhead;
    if n < k {
      AheadNeverGrows(cfg, run, act, j, n, k - 1);
      AheadRunStep(cfg, run, act, j, n, k - 1);
    }
  }

  /** A job claimable for ever and never worked on would see the rows in front of it used up for ever. */
  lemma {:induction false} NotOvertakenForEver(cfg: Config, run: nat -> State, act: nat -> Action, i: nat, n: nat, j: Job)
    requires LeasedRun(cfg, run, act) && Quiet(cfg, run, act, n) && InOrderFrom(run, act, i, n)
    requires WorkersClaim(run, act, i) && ClaimableFrom(run, i, n) && run(n).now > j.availableAt
    requires forall k: nat | n <= k :: i < |run(k).rows| && run(k).rows[i].job == j
    ensures WorkedOnFrom(run, act, i, n)
    decreases AllAhead(run(n).rows, j)
  {
    assert ClaimHappensFrom(run, act, n);
    var k: nat :| n <= k && Claims(run(k), act(k));
    if act(k).row != i {
      AheadNeverGrows(cfg, run, act, j, n, k);
      assert InOrder(run(k), act(k), i);
      AheadRunStep(cfg, run, act, j, n, k);
      NotOvertakenForEver(cfg, run, act, i, k + 1, j);
    }
  }

  /** No starvation: once crashes have ceased, a job that is ready for ever is worked on, because claims in order of
      availability use up whatever stands in front of it and nothing new gets there. */
  lemma OrderedClaimsAttend(cfg: Config, run: nat -> State, act: nat -> Action, i: nat, c: nat)
    requires LeasedRun(cfg, run, act) && TimePasses(run) && Quiet(cfg, run, act, c) && InOrderFrom(run, act, i, c)
    requires WorkersClaim(run, act, i) && ExecutorsFinish(run, act, i)
    ensures Attended(run, act, i)
  {
    forall n: nat | ReadyFrom(run, i, n) ensures WorkedOnFrom(run, act, i, n) {
      var m := if n < c then c else n;
      assert Ready(run(m), i);
      ReadyIsWorkedOn(cfg, run, act, i, m);
    }
  }

  lemma ReadyIsWorkedOn(cfg: Config, run: nat -> State, act: nat -> Action, i: nat, m: nat)
    requires LeasedRun(cfg, run, act) && TimePasses(run) && Quiet(cfg, run, act, m) && InOrderFrom(run, act, i, m)
    requires WorkersClaim(run, act, i) && ExecutorsFinish(run, act, i) && ReadyFrom(run, i, m)
    ensures WorkedOnFrom(run, act, i, m)
  {
    assert Ready(run(m), i);
    if !WorkedOnFrom(run, act, i, m) {
      var row := run(m).rows[i];
      if row.live != map[] {
        StaysExecuted(cfg, run, act, i, m);
      } else {
        assert Passes(run, row.job.availableAt + 1.0);
        var late: nat :| run(late).now >= row.job.availableAt + 1.0;
        var n := if late < m then m else late;
        TimeIsMonotone(cfg, run, act, late, n);
        StaysClaimable(cfg, run, act, i, m);
        NotOvertakenForEver(cfg, run, act, i, n, row.job);
      }
    }
  }

  lemma StaysExecuted(cfg: Config, run: nat -> State, act: nat -> Action, i: nat, m: nat)
    requires LeasedRun(cfg, run, act) && NoCrashFrom(run, act, i, m) && !WorkedOnFrom(run, act, i, m)
    requires i < |run(m).rows| && run(m).rows[i].live != map[]
    ensures ExecutedFrom(run, i, m)
  {
    forall k: nat | m <= k ensures i < |run(k).rows| && run(k).rows[i].live != map[] {
      Untouched(cfg, run, act, i, m, k);
      assert run(k).rows[i].live.Keys == run(m).rows[i].live.Keys;
    }
  }

  lemma StaysClaimable(cfg: Config, run: nat -> State, act: nat -> Action, i: nat, m: nat)
    requires LeasedRun(cfg, run, act) && NoCrashFrom(run, act, i, m) && !WorkedOnFrom(run, act, i, m)
    requires ReadyFrom(run, i, m) && i < |run(m).rows| && run(m).rows[i].live == map[]
    ensures ClaimableFrom(run, i, m)
    ensures forall k: nat | m <= k :: i < |run(k).rows| && run(k).rows[i].job == run(m).rows[i].job
  {
    forall k: nat | m <= k
      ensures i < |run(k).rows| && Eligible(run(k).rows[i].job, run(k).now)
              && run(k).rows[i].job == run(m).rows[i].job
    {
      assert Ready(run(k), i);
      Untouched(cfg, run, act, i, m, k);
    }
  }

  /** The whole queue: with leases kept, crashes finitely many, workers that keep claiming in order and executors
      that finish, every job ever enqueued ends SUCCEEDED or FAILED for good. */
  lemma EveryJobEndsInOrder(cfg: Config, run: nat -> State, act: nat -> Action, i: nat, n: nat, c: nat)
    requires LeasedRun(cfg, run, act) && TimePasses(run) && Quiet(cfg, run, act, c) && InOrderFrom(run, act, i, c)
    requires WorkersClaim(run, act, i) && ExecutorsFinish(run, act, i) && i < |run(n).rows|
    ensures exists m: nat :: n <= m && EndedFrom(run, act, i, m)
  {
    OrderedClaimsAttend(cfg, run, act, i, c);
    var from := if n < c then c else n;
    TimeIsMonotone(cfg, run, act, n, from);
    EachJobEnds(cfg, run, act, i, from);
    var m: nat :| from <= m && EndedFrom(run, act, i, m);
  }
}
