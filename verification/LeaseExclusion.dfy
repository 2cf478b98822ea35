/** Safety of the queue over whole runs: what every step keeps, when at most one executor holds a job, and
    when a finished job stays finished. */
module LeaseExclusion {
  import opened Wrappers
  import opened SetFacts
  import opened JobTypes
  import opened JobQueue
  import opened LeaseProtocol

  /** The number of claims a job is entitled to; even max_attempts <= 0 allows the first one. */
  function Cap(j: Job): nat {
    if j.maxAttempts < 1 then 1 else j.maxAttempts
  }

  /** What holds of every row in every reachable state, stale finishes and crashes included. */
  ghost predicate Accounted(row: Row) {
    && row.job.attempts == row.claims && row.reclaims <= row.claims
    && (row.job.status.Pending? ==> row.job.attempts < Cap(row.job) && row.job.leaseExpiresAt.None?)
    && (row.job.status.Running? ==> 1 <= row.job.attempts && row.job.leaseExpiresAt.Some?)
    && (row.job.status.Failed? ==> row.job.lastError.Some?)
    && row.job.attempts <= Cap(row.job) + row.reclaims
    && (forall e | e in row.live :: 1 <= e <= row.job.attempts)
  }

  lemma StepStaysAccounted(cfg: Config, s: State, a: Action, i: nat)
    requires i < |s.rows| && Accounted(s.rows[i])
    ensures Accounted(Evolved(cfg, s, a, i))
  {
  }

  /** Attempts accounting with no hypothesis about leases at all. */
  lemma {:induction false} AttemptsAccounting(cfg: Config, acts: seq<Action>)
    ensures forall i | 0 <= i < |Reached(cfg, acts).rows| :: Accounted(Reached(cfg, acts).rows[i])
  {
    if acts != [] {
      var k := |acts| - 1;
      var s, t := Reached(cfg, acts[..k]), Reached(cfg, acts);
      AttemptsAccounting(cfg, acts[..k]);
      NextShape(cfg, s, acts[k]);
      hide Evolved, Accounted;
      forall i: nat | i < |t.rows| ensures Accounted(t.rows[i]) {
        if i < |s.rows| {
          StepStaysAccounted(cfg, s, acts[k], i);
        } else {
          FreshIsAccounted(t.rows[i], t.now);
        }
      }
    }
  }

  lemma FreshIsAccounted(row: Row, now: Time)
    requires IsFresh(row, now)
    ensures Accounted(row)
  {
  }

  /** What an action never changes about a job. */
  predicate SameJob(was: Job, job: Job) {
    && job.jobType == was.jobType && job.key == was.key && job.runId == was.runId
    && job.payload == was.payload && job.maxAttempts == was.maxAttempts && job.createdAt == was.createdAt
    && job.attempts >= was.attempts
  }

  lemma StepKeepsJob(cfg: Config, s: State, a: Action, i: nat)
    requires i < |s.rows|
    ensures i < |Next(cfg, s, a).rows| && SameJob(s.rows[i].job, Next(cfg, s, a).rows[i].job)
  {
    NextShape(cfg, s, a);
  }

  /** A row, once enqueued, keeps its place and its identity for ever. */
  lemma {:induction false} RowsPersist(cfg: Config, acts: seq<Action>, m: nat, i: nat)
    requires m <= |acts| && i < |Reached(cfg, acts[..m]).rows|
    ensures i < |Reached(cfg, acts).rows|
    ensures SameJob(Reached(cfg, acts[..m]).rows[i].job, Reached(cfg, acts).rows[i].job)
  {
    hide Next;
    if m < |acts| {
      var k := |acts| - 1;
      assert acts[..k][..m] == acts[..m];
      RowsPersist(cfg, acts[..k], m, i);
      StepKeepsJob(cfg, Reached(cfg, acts[..k]), acts[k], i);
    } else {
      assert acts[..m] == acts;
    }
  }

  /** The only executor a row may have is the one of its latest claim, and that one owns a live lease. */
  ghost predicate Exclusive(cfg: Config, row: Row) {
    && row.live.Keys <= {row.job.attempts}
    && (row.job.attempts in row.live ==>
          var x := row.live[row.job.attempts];
          && row.job.status.Running? && row.job.claimedBy == Some(x.worker)
          && row.job.leaseExpiresAt == Some(x.lastRenewal + cfg.lease))
  }

  /** No claim takes a job somebody is still executing. */
  ghost predicate ClaimsSafe(cfg: Config, acts: seq<Action>) {
    acts == [] ||
    (var k := |acts| - 1;
     var s := Reached(cfg, acts[..k]);
     && ClaimsSafe(cfg, acts[..k])
     && (acts[k].Claim? && Enabled(s, acts[k]) ==> s.rows[acts[k].row].live == map[]))
  }

  /** Every live executor renewed its lease less than one lease ago. */
  ghost predicate Leased(cfg: Config, s: State) {
    forall i, e | 0 <= i < |s.rows| && e in s.rows[i].live :: s.now < s.rows[i].live[e].lastRenewal + cfg.lease
  }

  ghost predicate LeasedAlong(cfg: Config, acts: seq<Action>) {
    Leased(cfg, Reached(cfg, acts)) && (acts == [] || LeasedAlong(cfg, acts[..|acts| - 1]))
  }

  ghost predicate OneExecutor(s: State) {
    forall i | 0 <= i < |s.rows| :: |s.rows[i].live| <= 1
  }

  ghost predicate OneExecutorAlong(cfg: Config, acts: seq<Action>) {
    OneExecutor(Reached(cfg, acts)) && (acts == [] || OneExecutorAlong(cfg, acts[..|acts| - 1]))
  }

  lemma {:induction false} SafeClaimsExclude(cfg: Config, acts: seq<Action>)
    requires ClaimsSafe(cfg, acts)
    ensures forall i | 0 <= i < |Reached(cfg, acts).rows| :: Exclusive(cfg, Reached(cfg, acts).rows[i])
  {
    if acts != [] {
      var k := |acts| - 1;
      SafeClaimsExclude(cfg, acts[..k]);
      AttemptsAccounting(cfg, acts[..k]);
      var s := Reached(cfg, acts[..k]);
      NextShape(cfg, s, acts[k]);
      forall i: nat | i < |Next(cfg, s, acts[k]).rows| ensures Exclusive(cfg, Next(cfg, s, acts[k]).rows[i]) {
        if i < |s.rows| && Enabled(s, acts[k]) && Addresses(acts[k], i) {
          assert Exclusive(cfg, s.rows[i]) && Accounted(s.rows[i]);
          assert Exclusive(cfg, StepRow(cfg, s.now, s.rows[i], acts[k]));
        }
      }
    }
  }

  lemma SmallLive(cfg: Config, row: Row)
    requires Exclusive(cfg, row)
    ensures |row.live| <= 1
  {
    assert |row.live.Keys| <= |{row.job.attempts}| by { SubsetSize(row.live.Keys, {row.job.attempts}); }
  }

  lemma UnsafeClaimDoubles(cfg: Config, s: State, a: Action)
    requires a.Claim? && Enabled(s, a) && Accounted(s.rows[a.row]) && s.rows[a.row].live != map[]
    ensures !OneExecutor(Next(cfg, s, a))
  {
    var row := s.rows[a.row];
    var e :| e in row.live;
    var live := StepRow(cfg, s.now, row, a).live;
    assert {e, row.job.attempts + 1} <= live.Keys;
    SubsetSize({e, row.job.attempts + 1}, live.Keys);
    assert |live.Keys| == |live|;
    assert Next(cfg, s, a).rows[a.row].live == live;
  }

  lemma ExclusiveMeansOne(cfg: Config, s: State)
    requires forall i | 0 <= i < |s.rows| :: Exclusive(cfg, s.rows[i])
    ensures OneExecutor(s)
  {
    forall i | 0 <= i < |s.rows| ensures |s.rows[i].live| <= 1 {
      SmallLive(cfg, s.rows[i]);
    }
  }

  lemma {:induction false} OneExecutorMeansSafe(cfg: Config, acts: seq<Action>)
    ensures OneExecutorAlong(cfg, acts) <==> ClaimsSafe(cfg, acts)
  {
    hide Next, OneExecutor, Exclusive, Accounted;
    if acts != [] {
      var k := |acts| - 1;
      OneExecutorMeansSafe(cfg, acts[..k]);
      if ClaimsSafe(cfg, acts) {
        SafeClaimsExclude(cfg, acts);
        ExclusiveMeansOne(cfg, Reached(cfg, acts));
      } else if ClaimsSafe(cfg, acts[..k]) {
        AttemptsAccounting(cfg, acts[..k]);
        UnsafeClaimDoubles(cfg, Reached(cfg, acts[..k]), acts[k]);
      }
    } else {
      ExclusiveMeansOne(cfg, Reached(cfg, acts));
    }
  }

  /** A claim attempted, on a clock reading that has been reached, at a job whose executor has let a whole lease
      pass since its last renewal. */
  predicate TakesOverExpired(cfg: Config, s: State, a: Action) {
    && a.Claim? && a.row < |s.rows| && a.at <= s.now
    && exists e | e in s.rows[a.row].live :: s.rows[a.row].live[e].lastRenewal + cfg.lease <= a.at
  }

  ghost predicate NoTakeover(cfg: Config, acts: seq<Action>) {
    acts == [] ||
    (var k := |acts| - 1;
     NoTakeover(cfg, acts[..k]) && !TakesOverExpired(cfg, Reached(cfg, acts[..k]), acts[k]))
  }

  lemma {:induction false} NoTakeoverMeansSafe(cfg: Config, acts: seq<Action>)
    ensures NoTakeover(cfg, acts) <==> ClaimsSafe(cfg, acts)
  {
    if acts != [] {
      var k := |acts| - 1;
      NoTakeoverMeansSafe(cfg, acts[..k]);
      if ClaimsSafe(cfg, acts[..k]) && acts[k].Claim? && acts[k].row < |Reached(cfg, acts[..k]).rows| {
        SafeClaimsExclude(cfg, acts[..k]);
        TakeoverExactly(cfg, Reached(cfg, acts[..k]), acts[k]);
      }
    }
  }

  lemma TakeoverExactly(cfg: Config, s: State, a: Action)
    requires a.Claim? && a.row < |s.rows| && Exclusive(cfg, s.rows[a.row])
    ensures TakesOverExpired(cfg, s, a) <==> Enabled(s, a) && s.rows[a.row].live != map[]
  {
    var row := s.rows[a.row];
    if row.live != map[] {
      var e :| e in row.live;
      assert e == row.job.attempts;
    }
  }

  /** Lease exclusion, exactly: no job ever has two executors iff nobody claims a job whose executor has let a
      whole lease pass since its last renewal. */
  lemma ExclusionExactly(cfg: Config, acts: seq<Action>)
    ensures OneExecutorAlong(cfg, acts) <==> NoTakeover(cfg, acts)
  {
    OneExecutorMeansSafe(cfg, acts);
    NoTakeoverMeansSafe(cfg, acts);
  }

  /** Executors that renewed less than a lease ago cannot be taken over. */
  lemma {:induction false} LeasedIsNeverTakenOver(cfg: Config, acts: seq<Action>)
    requires LeasedAlong(cfg, acts)
    ensures NoTakeover(cfg, acts)
  {
    if acts != [] {
      LeasedIsNeverTakenOver(cfg, acts[..|acts| - 1]);
    }
  }

  /** Lease exclusion: at most one executor per job, and it owns a RUNNING row under its own claim, so the
      finish it is about to perform cannot hit anybody else's execution. */
  lemma OneExecutorPerJob(cfg: Config, acts: seq<Action>)
    requires LeasedAlong(cfg, acts)
    ensures OneExecutorAlong(cfg, acts)
    ensures forall i, e | 0 <= i < |Reached(cfg, acts).rows| && e in Reached(cfg, acts).rows[i].live ::
              var row := Reached(cfg, acts).rows[i];
              row.job.status.Running? && row.job.attempts == e && row.job.claimedBy == Some(row.live[e].worker)
  {
    LeasedIsNeverTakenOver(cfg, acts);
    NoTakeoverMeansSafe(cfg, acts);
    ExclusionExactly(cfg, acts);
    SafeClaimsExclude(cfg, acts);
    var s := Reached(cfg, acts);
    forall i, e | 0 <= i < |s.rows| && e in s.rows[i].live
      ensures s.rows[i].job.status.Running? && s.rows[i].job.attempts == e
              && s.rows[i].job.claimedBy == Some(s.rows[i].live[e].worker)
    {
      assert Exclusive(cfg, s.rows[i]);
    }
  }

  /** A finish that does not succeed, on a finished job that still has attempts left. */
  predicate LateRetry(s: State, a: Action, i: nat) {
    && Enabled(s, a) && a.Finish? && a.row == i && Terminal(s.rows[i].job)
    && !a.outcome.Done? && s.rows[i].job.attempts < s.rows[i].job.maxAttempts
  }

  /** A finish on a finished job that ends otherwise than the job did. */
  predicate LateReversal(s: State, a: Action, i: nat) {
    && Enabled(s, a) && a.Finish? && a.row == i && Terminal(s.rows[i].job)
    && if a.outcome.Done? then s.rows[i].job.status.Failed?
       else s.rows[i].job.status.Succeeded? || s.rows[i].job.attempts < s.rows[i].job.maxAttempts
  }

  lemma LeavesTerminalExactly(cfg: Config, s: State, a: Action, i: nat)
    requires i < |s.rows| && Terminal(s.rows[i].job)
    ensures i < |Next(cfg, s, a).rows|
    ensures !Terminal(Next(cfg, s, a).rows[i].job) <==> LateRetry(s, a, i)
    ensures Next(cfg, s, a).rows[i].job.status != s.rows[i].job.status <==> LateReversal(s, a, i)
  {
    NextShape(cfg, s, a);
  }

  /** The state after the first m actions. */
  function At(cfg: Config, acts: seq<Action>, m: nat): State
    requires m <= |acts|
  {
    Reached(cfg, acts[..m])
  }

  ghost predicate NeverReopened(cfg: Config, acts: seq<Action>) {
    forall m: nat, i: nat | m < |acts| && i < |At(cfg, acts, m).rows| && Terminal(At(cfg, acts, m).rows[i].job) ::
      i < |At(cfg, acts, m + 1).rows| && Terminal(At(cfg, acts, m + 1).rows[i].job)
  }

  ghost predicate NeverReversed(cfg: Config, acts: seq<Action>) {
    forall m: nat, i: nat | m < |acts| && i < |At(cfg, acts, m).rows| && Terminal(At(cfg, acts, m).rows[i].job) ::
      i < |At(cfg, acts, m + 1).rows| && At(cfg, acts, m + 1).rows[i].job.status == At(cfg, acts, m).rows[i].job.status
  }

  ghost predicate NoLateRetry(cfg: Config, acts: seq<Action>) {
    forall m: nat, i: nat | m < |acts| && i < |At(cfg, acts, m).rows| :: !LateRetry(At(cfg, acts, m), acts[m], i)
  }

  ghost predicate NoLateReversal(cfg: Config, acts: seq<Action>) {
    forall m: nat, i: nat | m < |acts| && i < |At(cfg, acts, m).rows| :: !LateReversal(At(cfg, acts, m), acts[m], i)
  }

  /** Finality, exactly: over any run, a finished job is reopened iff some finish on it fails while it has attempts
      left, and its status changes iff some finish on it ends otherwise than the job did. */
  lemma FinalityExactly(cfg: Config, acts: seq<Action>)
    ensures NeverReopened(cfg, acts) <==> NoLateRetry(cfg, acts)
    ensures NeverReversed(cfg, acts) <==> NoLateReversal(cfg, acts)
  {
    forall m: nat, i: nat | m < |acts| && i < |At(cfg, acts, m).rows| && Terminal(At(cfg, acts, m).rows[i].job)
      ensures i < |At(cfg, acts, m + 1).rows|
      ensures !Terminal(At(cfg, acts, m + 1).rows[i].job) <==> LateRetry(At(cfg, acts, m), acts[m], i)
      ensures At(cfg, acts, m + 1).rows[i].job.status != At(cfg, acts, m).rows[i].job.status
              <==> LateReversal(At(cfg, acts, m), acts[m], i)
    {
      assert acts[..m + 1][..m] == acts[..m];
      LeavesTerminalExactly(cfg, At(cfg, acts, m), acts[m], i);
    }
  }

  /** Without takeovers there are no late finishes: a finished row is the same in every later state. */
  lemma {:induction false} TerminalIsFinal(cfg: Config, acts: seq<Action>, m: nat, i: nat)
    requires NoTakeover(cfg, acts)
    requires m <= |acts| && i < |At(cfg, acts, m).rows| && Terminal(At(cfg, acts, m).rows[i].job)
    ensures i < |Reached(cfg, acts).rows| && Reached(cfg, acts).rows[i].job == At(cfg, acts, m).rows[i].job
  {
    if m < |acts| {
      var k := |acts| - 1;
      assert acts[..k][..m] == acts[..m];
      TerminalIsFinal(cfg, acts[..k], m, i);
      NoTakeoverMeansSafe(cfg, acts[..k]);
      SafeClaimsExclude(cfg, acts[..k]);
      var s := Reached(cfg, acts[..k]);
      assert Exclusive(cfg, s.rows[i]);
      NextShape(cfg, s, acts[k]);
    } else {
      assert acts[..m] == acts;
    }
  }

  const SLOW_CONFIG := Config(1.0, 5.0)

  /** The first executor outlives its lease and a second one takes the job over. */
  const TAKE_OVER: seq<Action> :=
    [Enqueue(JobSpec(RunExecute, None, None, "", 3, None)), Claim(0, "w", 0.0), Tick(1.0), Claim(0, "w", 1.0)]

  const SECOND_SUCCEEDS := Finish(0, 2, Done, [])
  const FIRST_FAILS_LATE := Finish(0, 1, Raised("late", true), [])

  lemma ReachedSnoc(cfg: Config, acts: seq<Action>, a: Action)
    ensures Reached(cfg, acts + [a]) == Next(cfg, Reached(cfg, acts), a)
  {
    assert (acts + [a])[..|acts|] == acts;
  }

  lemma TakeOverState() returns (job: Job)
    ensures job.status == Running && job.attempts == 2 && job.maxAttempts == 3
    ensures Reached(SLOW_CONFIG, TAKE_OVER) ==
            State(1.0, [Row(job, 2, 1, map[1 := Executor("w", 0.0, 0.0, 0), 2 := Executor("w", 1.0, 1.0, 0)],
                            0.0, 0, 0)], [])
  {
    var c := SLOW_CONFIG;
    var row0 := FreshRow(TAKE_OVER[0].spec, 0.0);
    assert Reached(c, []) == EMPTY;
    ReachedSnoc(c, [], TAKE_OVER[0]);
    assert [] + [TAKE_OVER[0]] == [TAKE_OVER[0]];
    assert Reached(c, [TAKE_OVER[0]]) == State(0.0, [row0], []);
    ReachedSnoc(c, [TAKE_OVER[0]], TAKE_OVER[1]);
    var row1 := StepRow(c, 0.0, row0, TAKE_OVER[1]);
    assert Reached(c, [TAKE_OVER[0]] + [TAKE_OVER[1]]) == State(0.0, [row1], []);
    ReachedSnoc(c, [TAKE_OVER[0]] + [TAKE_OVER[1]], TAKE_OVER[2]);
    ReachedSnoc(c, [TAKE_OVER[0]] + [TAKE_OVER[1]] + [TAKE_OVER[2]], TAKE_OVER[3]);
    var row2 := StepRow(c, 1.0, row1, TAKE_OVER[3]);
    assert TAKE_OVER == [TAKE_OVER[0]] + [TAKE_OVER[1]] + [TAKE_OVER[2]] + [TAKE_OVER[3]];
    assert Reached(c, TAKE_OVER) == State(1.0, [row2], []);
    job := row2.job;
  }

  /** A late retry does happen once a lease has run out: the finishing updates name only the id, so the first
      executor turns a SUCCEEDED job back into a PENDING one. */
  lemma StaleFinishReopens()
    ensures !OneExecutor(Reached(SLOW_CONFIG, TAKE_OVER))
    ensures var s := Reached(SLOW_CONFIG, TAKE_OVER + [SECOND_SUCCEEDS]);
      |s.rows| == 1 && s.rows[0].job.status == Succeeded
    ensures var s := Reached(SLOW_CONFIG, TAKE_OVER + [SECOND_SUCCEEDS] + [FIRST_FAILS_LATE]);
      |s.rows| == 1 && s.rows[0].job.status == Pending
  {
    var job := TakeOverState();
    var s := Reached(SLOW_CONFIG, TAKE_OVER);
    assert s.rows[0].live.Keys == {1, 2} && |s.rows[0].live| == |s.rows[0].live.Keys|;
    ReachedSnoc(SLOW_CONFIG, TAKE_OVER, SECOND_SUCCEEDS);
    ReachedSnoc(SLOW_CONFIG, TAKE_OVER + [SECOND_SUCCEEDS], FIRST_FAILS_LATE);
  }
}
