/** Once clients stop enqueueing and executors stop crashing the whole queue drains, jobs that handlers enqueue
    included. The runs here start in any healthy state: the moment clients stop. */
module Termination {
  import opened Wrappers
  import opened JobTypes
  import opened JobQueue
  import opened LeaseProtocol
  import opened LeaseExclusion

  /** The only executor is the latest claim's, a RUNNING job has one, and nothing was ever reclaimed. */
  ghost predicate Healthy(cfg: Config, row: Row) {
    && Exclusive(cfg, row) && Accounted(row) && row.reclaims == 0
    && (row.job.status.Running? ==> row.job.attempts in row.live)
  }

  ghost predicate AllHealthy(cfg: Config, s: State) {
    forall i | 0 <= i < |s.rows| :: Healthy(cfg, s.rows[i])
  }

  /** No crash, nothing enqueued from outside, and a handler enqueues only kinds of smaller rank. */
  predicate Calm(s: State, a: Action) {
    && !a.Crash? && !a.Enqueue?
    && (a.Finish? && Enabled(s, a) ==>
          forall k | 0 <= k < |a.spawned| :: Rank(a.spawned[k].jobType) < Rank(s.rows[a.row].job.jobType))
  }

  /** The steps that move jobs along; the rest are the clock and the heartbeats. */
  predicate Work(s: State, a: Action) {
    Enabled(s, a) && (a.Claim? || a.Finish?)
  }

  /** Twice the attempts left, plus one while an attempt is in progress. */
  function Weight(row: Row): nat {
    if Terminal(row.job) || row.job.attempts > Cap(row.job) then 0
    else 2 * (Cap(row.job) - row.job.attempts) + if row.job.status.Running? then 1 else 0
  }

  function WeightAt(row: Row, rank: nat): nat {
    if Rank(row.job.jobType) == rank then Weight(row) else 0
  }

  function Load(rows: seq<Row>, rank: nat): nat {
    if rows == [] then 0 else Load(rows[..|rows| - 1], rank) + WeightAt(rows[|rows| - 1], rank)
  }

  lemma {:induction false} LoadUpdate(rows: seq<Row>, i: nat, row: Row, rank: nat)
    requires i < |rows|
    ensures Load(rows[i := row], rank) + WeightAt(rows[i], rank) == Load(rows, rank) + WeightAt(row, rank)
  {
    var n := |rows| - 1;
    if i == n {
      assert rows[i := row][..n] == rows[..n];
    } else {
      assert rows[i := row][..n] == rows[..n][i := row];
      LoadUpdate(rows[..n], i, row, rank);
    }
  }

  lemma LoadAddRow(rows: seq<Row>, spec: JobSpec, now: Time, rank: nat)
    requires Rank(spec.jobType) < rank
    ensures Load(AddRow(rows, spec, now), rank) == Load(rows, rank)
  {
    assert (rows + [FreshRow(spec, now)])[..|rows|] == rows;
  }

  lemma {:induction false} LoadAddRows(rows: seq<Row>, specs: seq<JobSpec>, now: Time, rank: nat)
    requires forall k | 0 <= k < |specs| :: Rank(specs[k].jobType) < rank
    ensures Load(AddRows(rows, specs, now), rank) == Load(rows, rank)
  {
    hide Load, AddRow;
    if specs != [] {
      var n := |specs| - 1;
      LoadAddRows(rows, specs[..n], now, rank);
      LoadAddRow(AddRows(rows, specs[..n], now), specs[n], now, rank);
    }
  }

  /** Loads of the two states agree at every rank above r. */
  ghost predicate SameAbove(s: State, t: State, r: int) {
    forall rank: nat | rank > r :: Load(t.rows, rank) == Load(s.rows, rank)
  }

  lemma RowFalls(cfg: Config, s: State, a: Action)
    requires Work(s, a) && Calm(s, a) && Healthy(cfg, s.rows[a.row]) && Leased(cfg, s)
    ensures Weight(StepRow(cfg, s.now, s.rows[a.row], a)) < Weight(s.rows[a.row])
    ensures StepRow(cfg, s.now, s.rows[a.row], a).job.jobType == s.rows[a.row].job.jobType
  {
  }

  /** A step of work lowers the load of its job's rank and leaves every higher rank alone, however many jobs
      of lower rank the handler enqueued. */
  lemma WorkFalls(cfg: Config, s: State, a: Action)
    requires Work(s, a) && Calm(s, a) && AllHealthy(cfg, s) && Leased(cfg, s)
    ensures var r := Rank(s.rows[a.row].job.jobType); var t := Next(cfg, s, a);
      Load(t.rows, r) < Load(s.rows, r) && SameAbove(s, t, r)
  {
    var r := Rank(s.rows[a.row].job.jobType);
    var row := StepRow(cfg, s.now, s.rows[a.row], a);
    RowFalls(cfg, s, a);
    forall rank: nat | rank >= r
      ensures Load(Next(cfg, s, a).rows, rank) + WeightAt(s.rows[a.row], rank)
              == Load(s.rows, rank) + WeightAt(row, rank)
    {
      LoadUpdate(s.rows, a.row, row, rank);
      if a.Finish? {
        LoadAddRows(s.rows[a.row := row], a.spawned, s.now, rank);
      }
    }
  }

  lemma OthersKeepLoad(cfg: Config, s: State, a: Action)
    requires !Work(s, a) && Calm(s, a)
    ensures SameAbove(s, Next(cfg, s, a), -1)
  {
    if Enabled(s, a) && !a.Tick? {
      var row := StepRow(cfg, s.now, s.rows[a.row], a);
      forall rank: nat | true ensures Load(s.rows[a.row := row], rank) == Load(s.rows, rank) {
        LoadUpdate(s.rows, a.row, row, rank);
      }
    }
  }

  lemma StaysHealthy(cfg: Config, s: State, a: Action)
    requires AllHealthy(cfg, s) && Leased(cfg, s) && Calm(s, a)
    ensures AllHealthy(cfg, Next(cfg, s, a))
  {
    NextShape(cfg, s, a);
    var t := Next(cfg, s, a);
    forall i: nat | i < |t.rows| ensures Healthy(cfg, t.rows[i]) {
      if i < |s.rows| && Enabled(s, a) && Addresses(a, i) {
        HealthyStep(cfg, s, a, i);
      }
    }
  }

  lemma HealthyStep(cfg: Config, s: State, a: Action, i: nat)
    requires i < |s.rows| && Enabled(s, a) && Addresses(a, i) && !a.Crash?
    requires Healthy(cfg, s.rows[i]) && Leased(cfg, s)
    ensures Healthy(cfg, StepRow(cfg, s.now, s.rows[i], a))
  {
    var row := s.rows[i];
    if a.Claim? && row.job.status.Running? {
      assert false;
    }
  }

  /** An endless run of a calm system whose executors keep their leases. */
  ghost predicate CalmRun(cfg: Config, run: nat -> State, act: nat -> Action) {
    && AllHealthy(cfg, run(0))
    && (forall n: nat :: run(n + 1) == Next(cfg, run(n), act(n)))
    && (forall n: nat :: Leased(cfg, run(n)) && Calm(run(n), act(n)))
  }

  lemma {:induction false} RunStaysHealthy(cfg: Config, run: nat -> State, act: nat -> Action, n: nat)
    requires CalmRun(cfg, run, act)
    ensures AllHealthy(cfg, run(n))
  {
    if n > 0 {
      RunStaysHealthy(cfg, run, act, n - 1);
      StaysHealthy(cfg, run(n - 1), act(n - 1));
      assert run(n - 1 + 1) == Next(cfg, run(n - 1), act(n - 1));
    }
  }

  lemma {:induction false} LoadsHold(cfg: Config, run: nat -> State, act: nat -> Action, n: nat, k: nat)
    requires CalmRun(cfg, run, act) && n <= k
    requires forall j: nat | n <= j < k :: !Work(run(j), act(j))
    ensures SameAbove(run(n), run(k), -1)
  {
    if n < k {
      LoadsHold(cfg, run, act, n, k - 1);
      OthersKeepLoad(cfg, run(k - 1), act(k - 1));
      assert run(k - 1 + 1) == Next(cfg, run(k - 1), act(k - 1));
    }
  }

  lemma {:induction false} FirstWork(run: nat -> State, act: nat -> Action, n: nat, k: nat) returns (f: nat)
    requires n <= k && Work(run(k), act(k))
    ensures n <= f <= k && Work(run(f), act(f)) && forall j: nat | n <= j < f :: !Work(run(j), act(j))
    decreases k - n
  {
    if Work(run(n), act(n)) { f := n; } else { f := FirstWork(run, act, n + 1, k); }
  }

  /** Work stops: the loads, read from the highest rank down, fall lexicographically. */
  lemma {:induction false} WorkStops(cfg: Config, run: nat -> State, act: nat -> Action, n: nat) returns (m: nat)
    requires CalmRun(cfg, run, act)
    ensures n <= m && IdleFrom(run, act, m)
    decreases Load(run(n).rows, 4), Load(run(n).rows, 3), Load(run(n).rows, 2),
              Load(run(n).rows, 1), Load(run(n).rows, 0)
  {
    if k: nat :| n <= k && Work(run(k), act(k)) {
      var f := FirstWork(run, act, n, k);
      LoadsHold(cfg, run, act, n, f);
      RunStaysHealthy(cfg, run, act, f);
      WorkFalls(cfg, run(f), act(f));
      assert run(f + 1) == Next(cfg, run(f), act(f));
      m := WorkStops(cfg, run, act, f + 1);
    } else {
      m := n;
    }
  }

  /** Some job could be claimed now, or somebody is executing one. */
  ghost predicate WorkPossible(s: State) {
    exists i | 0 <= i < |s.rows| :: Eligible(s.rows[i].job, s.now) || s.rows[i].live != map[]
  }

  ghost predicate WorkPossibleFrom(run: nat -> State, n: nat) {
    forall k: nat | n <= k :: WorkPossible(run(k))
  }

  ghost predicate WorkDoneFrom(run: nat -> State, act: nat -> Action, n: nat) {
    exists k: nat :: n <= k && Work(run(k), act(k))
  }

  ghost predicate IdleFrom(run: nat -> State, act: nat -> Action, m: nat) {
    forall k: nat | m <= k :: !Work(run(k), act(k))
  }

  ghost predicate ClockReaches(run: nat -> State, t: Time) {
    exists n: nat :: run(n).now >= t
  }

  /** If work stays possible for ever, somebody eventually does some; and time passes. */
  ghost predicate FairAndTimed(run: nat -> State, act: nat -> Action) {
    && (forall n: nat :: WorkPossibleFrom(run, n) ==> WorkDoneFrom(run, act, n))
    && (forall t: Time :: ClockReaches(run, t))
  }

  ghost predicate AllEndedFrom(run: nat -> State, m: nat) {
    forall k: nat, i: nat | m <= k && i < |run(k).rows| ::
      Terminal(run(k).rows[i].job) && run(k).rows[i].claims <= Cap(run(k).rows[i].job)
  }

  /** From m on nothing about any job changes but its lease. */
  lemma {:induction false} Frozen(cfg: Config, run: nat -> State, act: nat -> Action, m: nat, k: nat, i: nat)
    requires CalmRun(cfg, run, act) && m <= k && IdleFrom(run, act, m)
    requires i < |run(k).rows| || i < |run(m).rows|
    ensures i < |run(m).rows| && i < |run(k).rows| && run(m).now <= run(k).now
    ensures run(k).rows[i].job == run(m).rows[i].job.(leaseExpiresAt := run(k).rows[i].job.leaseExpiresAt)
  {
    if m < k {
      assert run(k - 1 + 1) == Next(cfg, run(k - 1), act(k - 1));
      NextShape(cfg, run(k - 1), act(k - 1));
      assert !Work(run(k - 1), act(k - 1)) && Calm(run(k - 1), act(k - 1));
      assert |run(k).rows| == |run(k - 1).rows|;
      Frozen(cfg, run, act, m, k - 1, i);
    }
  }

  lemma {:induction false} ClockIsMonotone(cfg: Config, run: nat -> State, act: nat -> Action, n: nat, k: nat)
    requires CalmRun(cfg, run, act) && n <= k
    ensures run(n).now <= run(k).now
  {
    if n < k {
      ClockIsMonotone(cfg, run, act, n, k - 1);
      assert run(k - 1 + 1) == Next(cfg, run(k - 1), act(k - 1));
      NextShape(cfg, run(k - 1), act(k - 1));
    }
  }

  lemma UnfinishedMeansWorkNow(cfg: Config, run: nat -> State, act: nat -> Action, m: nat, k: nat, i: nat)
    requires CalmRun(cfg, run, act) && IdleFrom(run, act, m) && m <= k
    requires i < |run(m).rows| && !Terminal(run(m).rows[i].job) && run(k).now >= run(m).rows[i].job.availableAt
    ensures WorkPossible(run(k))
  {
    Frozen(cfg, run, act, m, k, i);
    RunStaysHealthy(cfg, run, act, k);
    var row := run(k).rows[i];
    assert Healthy(cfg, row);
    if row.job.status.Running? {
      assert row.job.attempts in row.live;
    } else {
      assert Eligible(row.job, run(k).now);
    }
  }

  /** A job unfinished once work has stopped would leave work possible for ever. */
  lemma NothingUnfinished(cfg: Config, run: nat -> State, act: nat -> Action, m: nat, i: nat)
    requires CalmRun(cfg, run, act) && FairAndTimed(run, act) && IdleFrom(run, act, m)
    requires i < |run(m).rows|
    ensures Terminal(run(m).rows[i].job)
  {
    if !Terminal(run(m).rows[i].job) {
      assert ClockReaches(run, run(m).rows[i].job.availableAt);
      var due: nat :| run(due).now >= run(m).rows[i].job.availableAt;
      var n := if due < m then m else due;
      forall k: nat | n <= k ensures WorkPossible(run(k)) {
        ClockIsMonotone(cfg, run, act, due, k);
        UnfinishedMeansWorkNow(cfg, run, act, m, k, i);
      }
      assert WorkPossibleFrom(run, n);
      assert false;
    }
  }

  /** In a fair calm run there is one moment from which all jobs are SUCCEEDED or FAILED, and each was claimed no
      more often than it was entitled to. */
  lemma EveryJobEnds(cfg: Config, run: nat -> State, act: nat -> Action)
    requires CalmRun(cfg, run, act) && FairAndTimed(run, act)
    ensures exists m: nat :: AllEndedFrom(run, m)
  {
    var m := WorkStops(cfg, run, act, 0);
    forall k: nat, i: nat | m <= k && i < |run(k).rows|
      ensures Terminal(run(k).rows[i].job) && run(k).rows[i].claims <= Cap(run(k).rows[i].job)
    {
      RunStaysHealthy(cfg, run, act, k);
      assert Healthy(cfg, run(k).rows[i]);
      Frozen(cfg, run, act, m, k, i);
      NothingUnfinished(cfg, run, act, m, i);
    }
    assert AllEndedFrom(run, m);
  }

  /** A crash is what the hypothesis is for: the job stays RUNNING with nobody to finish it. */
  lemma CrashStrandsJob(cfg: Config, row: Row, now: Time)
    requires Healthy(cfg, row) && row.job.status.Running?
    ensures var left := StepRow(cfg, now, row, Crash(0, row.job.attempts));
      left.job == row.job && left.live == map[] && !Healthy(cfg, left)
  {
    assert (row.live - {row.job.attempts}).Keys == {};
  }
}
