/** The two-statement claim used off Postgres, compared with the atomic one and with the protocol. */
module PortableClaim {
  import opened Wrappers
  import opened JobTypes
  import opened JobQueue
  import opened LeaseProtocol

  /** What UpdateCandidate leaves, whatever happened to the table since the candidate was selected. */
  function ConditionalClaim(jobs: seq<Job>, candidate: nat, worker: WorkerId, lease: Time, now: Time): seq<Job> {
    if candidate < |jobs| && Eligible(jobs[candidate], now)
    then jobs[candidate := Claimed(jobs[candidate], worker, now, lease)]
    else jobs
  }

  /** Left alone between its two statements, the portable claim has the contract of the atomic one. */
  method ClaimNextPortable(repo: JobRepository, worker: WorkerId, lease: Time, now: Time) returns (r: Option<nat>)
    modifies repo
    ensures r.None? ==> repo.jobs == old(repo.jobs)
                        && forall k: nat | k < |repo.jobs| :: !Eligible(repo.jobs[k], now)
    ensures r.Some? ==> Picks(old(repo.jobs), {}, now, r.value)
                        && repo.jobs == ConditionalClaim(old(repo.jobs), r.value, worker, lease, now)
  {
    r := repo.SelectCandidate(now);
    if r.Some? {
      var won := repo.UpdateCandidate(r.value, worker, lease, now);
      if !won {
        r := None;
      }
    }
  }

  /** However stale the selection, the conditional update is one claim step of the protocol, or no step. */
  lemma ConditionalClaimIsProtocolStep(cfg: Config, s: State, candidate: nat, worker: WorkerId, at: Time)
    requires at <= s.now
    ensures Jobs(Next(cfg, s, Claim(candidate, worker, at)).rows)
            == ConditionalClaim(Jobs(s.rows), candidate, worker, cfg.lease, at)
  {
    var t := Next(cfg, s, Claim(candidate, worker, at));
    var c := ConditionalClaim(Jobs(s.rows), candidate, worker, cfg.lease, at);
    assert |Jobs(t.rows)| == |c| && forall i | 0 <= i < |c| :: Jobs(t.rows)[i] == c[i];
  }

  /** Committed transactions of other workers between two statements. */
  datatype TableOp =
    | Insert(spec: JobSpec, at: Time)
    | TakeRow(row: nat, worker: WorkerId, at: Time)
    | Renew(row: nat, worker: WorkerId, at: Time)
    | Succeed(row: nat)
    | Fail(row: nat, error: string, delay: Time, at: Time)

  function Applied(jobs: seq<Job>, lease: Time, op: TableOp): seq<Job> {
    match op
    case Insert(spec, at) => if AlreadyEnqueued(jobs, spec) then jobs else jobs + [NewJob(spec, at)]
    case TakeRow(i, worker, at) => ConditionalClaim(jobs, i, worker, lease, at)
    case Renew(i, worker, at) => if i < |jobs| then jobs[i := Touched(jobs[i], worker, at, lease)] else jobs
    case Succeed(i) => if i < |jobs| then jobs[i := MarkedSucceeded(jobs[i])] else jobs
    case Fail(i, error, delay, at) => if i < |jobs| then jobs[i := MarkedFailed(jobs[i], error, at, delay)] else jobs
  }

  function AppliedAll(jobs: seq<Job>, lease: Time, ops: seq<TableOp>): seq<Job> {
    if ops == [] then jobs else var k := |ops| - 1; Applied(AppliedAll(jobs, lease, ops[..k]), lease, ops[k])
  }

  predicate Finishes(op: TableOp, i: nat) {
    (op.Succeed? || op.Fail?) && op.row == i
  }

  /** Every clock reading used lies within one lease of every other. */
  ghost predicate ClocksAgree(ops: seq<TableOp>, lo: Time, hi: Time) {
    forall k | 0 <= k < |ops| && !ops[k].Succeed? :: lo <= ops[k].at <= hi
  }

  lemma {:induction false} HeldRowStaysHeld(jobs: seq<Job>, lease: Time, i: nat, ops: seq<TableOp>, lo: Time, hi: Time)
    requires i < |jobs| && jobs[i].status.Running? && jobs[i].leaseExpiresAt.Some?
    requires jobs[i].leaseExpiresAt.value >= lo + lease && hi < lo + lease
    requires ClocksAgree(ops, lo, hi) && forall k | 0 <= k < |ops| :: !Finishes(ops[k], i)
    ensures var t := AppliedAll(jobs, lease, ops);
      i < |t| && t[i].status.Running? && t[i].leaseExpiresAt.Some? && t[i].leaseExpiresAt.value >= lo + lease
      && t[i].attempts == jobs[i].attempts && t[i].claimedBy == jobs[i].claimedBy
  {
    if ops != [] {
      var k := |ops| - 1;
      HeldRowStaysHeld(jobs, lease, i, ops[..k], lo, hi);
      assert !Finishes(ops[k], i);
      assert !ops[k].Succeed? ==> lo <= ops[k].at <= hi;
    }
  }

  /** Two claimers whose clocks are within one lease never both win one execution of a job: until the first
      finishes it, the second's update matches no row, whatever anybody commits in between. */
  lemma NoDoubleWin(jobs: seq<Job>, lease: Time, i: nat, first: WorkerId, nowFirst: Time, ops: seq<TableOp>,
                    second: WorkerId, nowSecond: Time, lo: Time, hi: Time)
    requires i < |jobs| && Eligible(jobs[i], nowFirst)
    requires lo <= nowFirst <= hi && lo <= nowSecond <= hi && hi < lo + lease
    requires ClocksAgree(ops, lo, hi) && forall k | 0 <= k < |ops| :: !Finishes(ops[k], i)
    ensures var won := ConditionalClaim(jobs, i, first, lease, nowFirst);
            var later := AppliedAll(won, lease, ops);
      && i < |later| && later[i].claimedBy == Some(first) && later[i].attempts == jobs[i].attempts + 1
      && ConditionalClaim(later, i, second, lease, nowSecond) == later
  {
    HeldRowStaysHeld(ConditionalClaim(jobs, i, first, lease, nowFirst), lease, i, ops, lo, hi);
  }

  // ---- what interleaving costs: the order ----

  /** The row an operation would leave at a place of its own: a new row, or the changed one. */
  function Written(jobs: seq<Job>, lease: Time, op: TableOp): Option<Job> {
    match op
    case Insert(spec, at) => if AlreadyEnqueued(jobs, spec) then None else Some(NewJob(spec, at))
    case TakeRow(i, worker, at) =>
      if i < |jobs| && Eligible(jobs[i], at) then Some(Claimed(jobs[i], worker, at, lease)) else None
    case Renew(i, worker, at) => if i < |jobs| then Some(Touched(jobs[i], worker, at, lease)) else None
    case Succeed(i) => if i < |jobs| then Some(MarkedSucceeded(jobs[i])) else None
    case Fail(i, error, delay, at) => if i < |jobs| then Some(MarkedFailed(jobs[i], error, at, delay)) else None
  }

  /** The row written is due at `now` and comes before the candidate. */
  predicate Overtakes(jobs: seq<Job>, lease: Time, op: TableOp, candidate: Job, now: Time) {
    var row := Written(jobs, lease, op);
    row.Some? && Eligible(row.value, now) && !NotAfter(candidate, row.value)
  }

  predicate Concerns(op: TableOp, i: nat) {
    !op.Insert? && op.row == i
  }

  /** A selected candidate is still a least eligible row after somebody else's operation iff the row it writes does
      not overtake the candidate. */
  lemma StillLeastExactly(jobs: seq<Job>, lease: Time, now: Time, p: nat, op: TableOp)
    requires Picks(jobs, {}, now, p) && !Concerns(op, p)
    ensures Picks(Applied(jobs, lease, op), {}, now, p) <==> !Overtakes(jobs, lease, op, jobs[p], now)
  {
    var after, row := Applied(jobs, lease, op), Written(jobs, lease, op);
    assert after[p] == jobs[p];
    var place := if op.Insert? then |jobs| else op.row;
    assert forall k: nat | k < |after| && k != place :: k < |jobs| && after[k] == jobs[k];
    if row.Some? {
      assert place < |after| && after[place] == row.value;
    } else {
      assert after == jobs;
    }
  }

  /** An insert overtakes exactly when it is accepted, due, and available or created earlier than the candidate. */
  lemma InsertOvertakesExactly(jobs: seq<Job>, lease: Time, spec: JobSpec, at: Time, candidate: Job, now: Time)
    ensures Overtakes(jobs, lease, Insert(spec, at), candidate, now) <==>
            && !AlreadyEnqueued(jobs, spec)
            && var due := if spec.availableAt.Some? then spec.availableAt.value else at;
               due <= now && (due < candidate.availableAt || (due == candidate.availableAt && at < candidate.createdAt))
  {
  }

  /** Claims, renewals and successes on other rows, with clocks within one lease, never overtake a candidate. */
  lemma OthersNeverOvertake(jobs: seq<Job>, lease: Time, now: Time, p: nat, op: TableOp)
    requires Picks(jobs, {}, now, p) && !Concerns(op, p)
    requires op.Succeed? || ((op.TakeRow? || op.Renew?) && now < op.at + lease)
    ensures Picks(Applied(jobs, lease, op), {}, now, p)
  {
    StillLeastExactly(jobs, lease, now, p, op);
  }

  ghost predicate NoneOvertakes(jobs: seq<Job>, lease: Time, ops: seq<TableOp>, candidate: Job, now: Time) {
    ops == [] ||
    (var k := |ops| - 1;
     && NoneOvertakes(jobs, lease, ops[..k], candidate, now)
     && !Overtakes(AppliedAll(jobs, lease, ops[..k]), lease, ops[k], candidate, now))
  }

  ghost predicate LeastAllAlong(jobs: seq<Job>, lease: Time, ops: seq<TableOp>, p: nat, now: Time) {
    && Picks(AppliedAll(jobs, lease, ops), {}, now, p)
    && (ops == [] || LeastAllAlong(jobs, lease, ops[..|ops| - 1], p, now))
  }

  lemma UnconcernedStays(jobs: seq<Job>, lease: Time, op: TableOp, p: nat)
    requires p < |jobs| && !Concerns(op, p)
    ensures p < |Applied(jobs, lease, op)| && Applied(jobs, lease, op)[p] == jobs[p]
  {
  }

  /** Between selection and update the candidate is least all along iff nothing committed meanwhile overtakes it. */
  lemma {:induction false} LeastAllAlongExactly(jobs: seq<Job>, lease: Time, now: Time, p: nat, ops: seq<TableOp>)
    requires p < |jobs| && Picks(jobs, {}, now, p) && forall k | 0 <= k < |ops| :: !Concerns(ops[k], p)
    ensures p < |AppliedAll(jobs, lease, ops)| && AppliedAll(jobs, lease, ops)[p] == jobs[p]
    ensures LeastAllAlong(jobs, lease, ops, p, now) <==> NoneOvertakes(jobs, lease, ops, jobs[p], now)
  {
    hide Applied, Picks, Overtakes, Concerns;
    if ops != [] {
      var k := |ops| - 1;
      LeastAllAlongExactly(jobs, lease, now, p, ops[..k]);
      assert !Concerns(ops[k], p);
      UnconcernedStays(AppliedAll(jobs, lease, ops[..k]), lease, ops[k], p);
      if LeastAllAlong(jobs, lease, ops[..k], p, now) {
        StillLeastExactly(AppliedAll(jobs, lease, ops[..k]), lease, now, p, ops[k]);
      }
    }
  }

  /** It does happen: a job stamped before the candidate, but committed only after the selection, precedes it. */
  lemma MayMissAnEarlierJob(worker: WorkerId, lease: Time)
    ensures var before := [NewJob(JobSpec(RunExecute, None, None, "", 1, None), 2.0)];
            var after := Applied(before, lease, Insert(JobSpec(RunExecute, None, None, "", 1, None), 1.0));
      Picks(before, {}, 5.0, 0) && !Picks(after, {}, 5.0, 0)
      && ConditionalClaim(after, 0, worker, lease, 5.0)[0].status == Running
  {
    var before := [NewJob(JobSpec(RunExecute, None, None, "", 1, None), 2.0)];
    var after := Applied(before, lease, Insert(JobSpec(RunExecute, None, None, "", 1, None), 1.0));
    assert Eligible(after[1], 5.0) && !NotAfter(after[0], after[1]);
  }
}
