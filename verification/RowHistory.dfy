/** What a row says about the past: whose silence frees it, and how its last execution ended. No hypothesis about leases
    is made, so takeovers and late finishes are included. */
module RowHistory {
  import opened Wrappers
  import opened JobTypes
  import opened JobQueue
  import opened LeaseProtocol
  import opened LeaseExclusion

  // ---- leases ----

  /** The worker claims row i, or an executor it started on row i renews. */
  predicate Signs(s: State, a: Action, i: nat, worker: WorkerId) {
    && Enabled(s, a) && Addresses(a, i)
    && ((a.Claim? && a.worker == worker) || (a.Beat? && s.rows[i].live[a.epoch].worker == worker))
  }

  /** The last time it did. */
  function LastSign(cfg: Config, acts: seq<Action>, i: nat, worker: WorkerId): Option<Time> {
    if acts == [] then None
    else
      var k := |acts| - 1;
      var s := Reached(cfg, acts[..k]);
      if !Signs(s, acts[k], i, worker) then LastSign(cfg, acts[..k], i, worker)
      else Some(if acts[k].Claim? then acts[k].at else s.now)
  }

  ghost predicate Leasing(cfg: Config, acts: seq<Action>, i: nat, job: Job) {
    if job.status.Running? then
      && job.claimedBy.Some? && LastSign(cfg, acts, i, job.claimedBy.value).Some?
      && job.leaseExpiresAt == Some(LastSign(cfg, acts, i, job.claimedBy.value).value + cfg.lease)
    else job.claimedBy.None? && job.leaseExpiresAt.None?
  }

  lemma LeasingStep(cfg: Config, acts: seq<Action>, a: Action, i: nat)
    requires i < |Reached(cfg, acts).rows| && Leasing(cfg, acts, i, Reached(cfg, acts).rows[i].job)
    ensures Leasing(cfg, acts + [a], i, Evolved(cfg, Reached(cfg, acts), a, i).job)
  {
    hide Reached;
    assert (acts + [a])[..|acts|] == acts;
  }

  /** The lease of a RUNNING row is one lease after the last claim or renewal of the worker named in it, whatever other
      workers' heartbeats do; no other row has a lease or a claimant. */
  lemma {:induction false} LeaseFollowsClaimant(cfg: Config, acts: seq<Action>, i: nat)
    requires i < |Reached(cfg, acts).rows|
    ensures var job := Reached(cfg, acts).rows[i].job;
      if job.status.Running? then
        && job.claimedBy.Some? && LastSign(cfg, acts, i, job.claimedBy.value).Some?
        && job.leaseExpiresAt == Some(LastSign(cfg, acts, i, job.claimedBy.value).value + cfg.lease)
      else job.claimedBy.None? && job.leaseExpiresAt.None?
  {
    var k := |acts| - 1;
    var s := Reached(cfg, acts[..k]);
    NextShape(cfg, s, acts[k]);
    if i < |s.rows| {
      LeaseFollowsClaimant(cfg, acts[..k], i);
      LeasingStep(cfg, acts[..k], acts[k], i);
      assert acts[..k] + [acts[k]] == acts;
    }
  }

  /** A renewal moves the lease of a row that names its worker, and changes nothing about any other: a heartbeat that
      has outlived its claim does not keep the new owner's job from being reclaimed. */
  lemma BeatRenewsOwnRowOnly(cfg: Config, acts: seq<Action>, i: nat, e: nat)
    requires i < |Reached(cfg, acts).rows| && e in Reached(cfg, acts).rows[i].live
    ensures var s := Reached(cfg, acts);
            var t := Next(cfg, s, Beat(i, e));
            var was, job := s.rows[i].job, t.rows[i].job;
      && |t.rows| == |s.rows|
      && (was.claimedBy != Some(s.rows[i].live[e].worker) ==> job == was)
      && (was.claimedBy == Some(s.rows[i].live[e].worker) ==>
            was.status.Running? && job == was.(leaseExpiresAt := Some(s.now + cfg.lease)))
      && forall k: nat | k < |s.rows| && k != i :: t.rows[k] == s.rows[k]
  {
    LeaseFollowsClaimant(cfg, acts, i);
    hide Reached, LastSign;
  }

  lemma {:induction false} SilenceKeepsSign(cfg: Config, acts: seq<Action>, m: nat, i: nat, worker: WorkerId)
    requires m <= |acts|
    requires forall k: nat | m <= k < |acts| :: !Signs(At(cfg, acts, k), acts[k], i, worker)
    ensures LastSign(cfg, acts, i, worker) == LastSign(cfg, acts[..m], i, worker)
  {
    if m < |acts| {
      var n := |acts| - 1;
      assert !Signs(At(cfg, acts, n), acts[n], i, worker);
      forall k: nat | m <= k < n ensures !Signs(At(cfg, acts[..n], k), acts[..n][k], i, worker) {
        assert acts[..n][..k] == acts[..k];
      }
      SilenceKeepsSign(cfg, acts[..n], m, i, worker);
      assert acts[..n][..m] == acts[..m];
    } else {
      assert acts[..m] == acts;
    }
  }

  /** So a job whose worker falls silent can be claimed again one lease later, and not before. */
  lemma SilenceFreesJob(cfg: Config, acts: seq<Action>, m: nat, i: nat, worker: WorkerId)
    requires m <= |acts| && i < |Reached(cfg, acts).rows|
    requires forall k: nat | m <= k < |acts| :: !Signs(At(cfg, acts, k), acts[k], i, worker)
    requires Reached(cfg, acts).rows[i].job.status.Running? && Reached(cfg, acts).rows[i].job.claimedBy == Some(worker)
    ensures LastSign(cfg, acts[..m], i, worker).Some?
    ensures forall t: Time ::
              Eligible(Reached(cfg, acts).rows[i].job, t) <==> LastSign(cfg, acts[..m], i, worker).value + cfg.lease <= t
  {
    SilenceKeepsSign(cfg, acts, m, i, worker);
    LeaseFollowsClaimant(cfg, acts, i);
  }

  // ---- endings ----

  datatype Ending = Ending(at: Time, outcome: Outcome, attempts: nat)

  /** How the last execution of row i that finished ended, when, and with how many attempts on the row. */
  function LastEnding(cfg: Config, acts: seq<Action>, i: nat): Option<Ending> {
    if acts == [] then None
    else
      var k := |acts| - 1;
      var s := Reached(cfg, acts[..k]);
      if Enabled(s, acts[k]) && acts[k].Finish? && acts[k].row == i
      then Some(Ending(s.now, acts[k].outcome, s.rows[i].job.attempts))
      else LastEnding(cfg, acts[..k], i)
  }

  /** The wait an ending calls for: as long as was asked, the base delay, or the base delay for each attempt. */
  function CalledFor(cfg: Config, x: Ending): Time {
    match x.outcome
    case Done => 0.0
    case Rescheduled(_, delay) => delay
    case Unhandled(_) => cfg.baseDelay
    case Raised(_, _) => cfg.baseDelay * x.attempts as real
  }

  function Complaint(outcome: Outcome): Option<string> {
    match outcome
    case Done => None
    case Rescheduled(reason, _) => Some(reason)
    case Unhandled(error) => Some(error)
    case Raised(error, _) => Some(error)
  }

  /** A row that no execution has finished is untouched or RUNNING; any other that is not RUNNING is as its last ending
      left it. */
  ghost predicate Tells(cfg: Config, row: Row, last: Option<Ending>) {
    && (last.None? ==> !Terminal(row.job) && row.job.lastError.None?)
    && (last.None? && row.job.status.Pending? ==> row.job.attempts == 0 && row.job.availableAt == row.firstAvailable)
    && (last.Some? && !row.job.status.Running? ==> LeftBy(cfg, row.job, last.value))
  }

  ghost predicate LeftBy(cfg: Config, job: Job, x: Ending) {
    && job.attempts == x.attempts
    && (job.status.Succeeded? <==> x.outcome.Done?)
    && (job.status.Failed? <==> !x.outcome.Done? && job.attempts >= job.maxAttempts)
    && (job.status.Pending? <==> !x.outcome.Done? && job.attempts < job.maxAttempts)
    && (job.status.Pending? ==> job.availableAt == x.at + CalledFor(cfg, x))
    && (!x.outcome.Done? ==> job.lastError == Complaint(x.outcome))
  }

  lemma StepTells(cfg: Config, acts: seq<Action>, a: Action, i: nat)
    requires i < |Reached(cfg, acts).rows| && Accounted(Reached(cfg, acts).rows[i])
    requires Tells(cfg, Reached(cfg, acts).rows[i], LastEnding(cfg, acts, i))
    ensures Tells(cfg, Evolved(cfg, Reached(cfg, acts), a, i), LastEnding(cfg, acts + [a], i))
  {
    assert (acts + [a])[..|acts|] == acts;
    var s := Reached(cfg, acts);
    var row := s.rows[i];
    if Enabled(s, a) && Addresses(a, i) && a.Finish? {
      FinishTells(cfg, row.job, a.outcome, s.now);
    }
    hide Reached, FinishedJob, LeftBy;
  }

  lemma FinishTells(cfg: Config, j: Job, outcome: Outcome, now: Time)
    requires j.attempts >= 1
    ensures LeftBy(cfg, FinishedJob(cfg, j, outcome, now), Ending(now, outcome, j.attempts))
    ensures FinishedJob(cfg, j, outcome, now).lastError.None? ==> outcome.Done?
    ensures !FinishedJob(cfg, j, outcome, now).status.Running?
  {
  }

  /** Every row tells how its last execution ended: its status, its error, and exactly when a retry becomes available. */
  lemma {:induction false} EndingsTell(cfg: Config, acts: seq<Action>, i: nat)
    requires i < |Reached(cfg, acts).rows|
    ensures Tells(cfg, Reached(cfg, acts).rows[i], LastEnding(cfg, acts, i))
  {
    var k := |acts| - 1;
    var s := Reached(cfg, acts[..k]);
    NextShape(cfg, s, acts[k]);
    assert acts[..k] + [acts[k]] == acts;
    if i < |s.rows| {
      EndingsTell(cfg, acts[..k], i);
      AttemptsAccounting(cfg, acts[..k]);
      StepTells(cfg, acts[..k], acts[k], i);
    } else {
      NothingEnded(cfg, acts[..k], i);
    }
  }

  lemma {:induction false} NothingEnded(cfg: Config, acts: seq<Action>, i: nat)
    requires i >= |Reached(cfg, acts).rows|
    ensures LastEnding(cfg, acts, i) == None
  {
    if acts != [] {
      var k := |acts| - 1;
      NextShape(cfg, Reached(cfg, acts[..k]), acts[k]);
      NothingEnded(cfg, acts[..k], i);
    }
  }

  /** So a job that waits is claimed no earlier than it was first available, or than its last ending called for. */
  lemma ClaimsWait(cfg: Config, acts: seq<Action>, i: nat, worker: WorkerId, at: Time)
    requires Enabled(Reached(cfg, acts), Claim(i, worker, at)) && Reached(cfg, acts).rows[i].job.status.Pending?
    ensures var last := LastEnding(cfg, acts, i);
      at >= if last.Some? then last.value.at + CalledFor(cfg, last.value) else Reached(cfg, acts).rows[i].firstAvailable
  {
    EndingsTell(cfg, acts, i);
  }

  // ---- what was enqueued ----

  lemma {:induction false} FirstAvailablePersists(cfg: Config, acts: seq<Action>, m: nat, i: nat)
    requires m <= |acts| && i < |At(cfg, acts, m).rows|
    ensures i < |Reached(cfg, acts).rows| && Reached(cfg, acts).rows[i].firstAvailable == At(cfg, acts, m).rows[i].firstAvailable
  {
    if m < |acts| {
      var k := |acts| - 1;
      assert acts[..k][..m] == acts[..m];
      FirstAvailablePersists(cfg, acts[..k], m, i);
      NextShape(cfg, Reached(cfg, acts[..k]), acts[k]);
    } else {
      assert acts[..m] == acts;
    }
  }

  /** A job stays what its caller asked for, whatever becomes of it: kind, key, run, payload, attempts and the time
      before which nobody claims it. */
  lemma JobsKeepTheirSpec(cfg: Config, acts: seq<Action>, m: nat, spec: JobSpec)
    requires m < |acts| && acts[m] == Enqueue(spec) && !AlreadyEnqueued(Jobs(At(cfg, acts, m).rows), spec)
    ensures var s, t, i := At(cfg, acts, m), Reached(cfg, acts), |At(cfg, acts, m).rows|;
      && i < |t.rows|
      && t.rows[i].job.jobType == spec.jobType && t.rows[i].job.key == spec.key && t.rows[i].job.runId == spec.runId
      && t.rows[i].job.payload == spec.payload && t.rows[i].job.maxAttempts == spec.maxAttempts
      && t.rows[i].job.createdAt == s.now
      && t.rows[i].firstAvailable == if spec.availableAt.Some? then spec.availableAt.value else s.now
  {
    var i := |At(cfg, acts, m).rows|;
    assert acts[..m + 1][..m] == acts[..m];
    RowsPersist(cfg, acts, m + 1, i);
    FirstAvailablePersists(cfg, acts, m + 1, i);
  }
}
