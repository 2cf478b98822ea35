/** The durable jobs table: row transitions as functions, and the repository that performs them in place. */
module JobQueue {
  import opened Wrappers
  import opened JobTypes

  type Time = real
  type WorkerId = string

  datatype Status = Pending | Running | Succeeded | Failed

  datatype Job = Job(
    jobType: JobType,
    key: Option<string>,
    runId: Option<Uuid>,
    payload: string,
    status: Status,
    attempts: nat,
    maxAttempts: int,
    availableAt: Time,
    createdAt: Time,
    claimedBy: Option<WorkerId>,
    leaseExpiresAt: Option<Time>,
    lastError: Option<string>)

  /** What a caller of enqueue supplies. */
  datatype JobSpec = JobSpec(
    jobType: JobType,
    key: Option<string>,
    runId: Option<Uuid>,
    payload: string,
    maxAttempts: int,
    availableAt: Option<Time>)

  predicate Terminal(j: Job) {
    j.status.Succeeded? || j.status.Failed?
  }

  /** The SQL predicate shared by both claim paths; a comparison with a NULL lease is not true. */
  predicate Eligible(j: Job, now: Time) {
    || (j.status.Pending? && j.availableAt <= now && (j.leaseExpiresAt.None? || j.leaseExpiresAt.value <= now))
    || (j.status.Running? && j.leaseExpiresAt.Some? && j.leaseExpiresAt.value <= now)
  }

  /** What may be claimed: a due PENDING row or a RUNNING one that has a lease, when no lease on it still runs. */
  lemma EligibleExactly(j: Job, now: Time)
    ensures Eligible(j, now) <==>
            && (if j.status.Pending? then j.availableAt <= now else j.status.Running? && j.leaseExpiresAt != None)
            && (forall lease :: j.leaseExpiresAt == Some(lease) ==> lease <= now)
  {
    if j.leaseExpiresAt.Some? {
      assert j.leaseExpiresAt == Some(j.leaseExpiresAt.value);
    }
  }

  /** ORDER BY available_at, created_at. */
  predicate NotAfter(a: Job, b: Job) {
    a.availableAt < b.availableAt || (a.availableAt == b.availableAt && a.createdAt <= b.createdAt)
  }

  /** Row i is a least eligible row among those not locked by another transaction. */
  predicate Picks(jobs: seq<Job>, locked: set<nat>, now: Time, i: nat) {
    && i < |jobs| && i !in locked && Eligible(jobs[i], now)
    && forall k: nat | k < |jobs| && k !in locked && Eligible(jobs[k], now) :: NotAfter(jobs[i], jobs[k])
  }

  function NewJob(spec: JobSpec, now: Time): Job {
    Job(spec.jobType, spec.key, spec.runId, spec.payload, Pending, 0, spec.maxAttempts,
        if spec.availableAt.Some? then spec.availableAt.value else now, now, None, None, None)
  }

  /** The unique index; rows without a key never collide. */
  predicate AlreadyEnqueued(jobs: seq<Job>, spec: JobSpec) {
    spec.key.Some? && exists k | 0 <= k < |jobs| :: jobs[k].jobType == spec.jobType && jobs[k].key == spec.key
  }

  function Claimed(j: Job, worker: WorkerId, now: Time, lease: Time): Job {
    j.(status := Running, claimedBy := Some(worker), leaseExpiresAt := Some(now + lease), attempts := j.attempts + 1)
  }

  function Touched(j: Job, worker: WorkerId, now: Time, lease: Time): Job {
    if j.status.Running? && j.claimedBy == Some(worker) then j.(leaseExpiresAt := Some(now + lease)) else j
  }

  function MarkedSucceeded(j: Job): Job {
    j.(status := Succeeded, claimedBy := None, leaseExpiresAt := None)
  }

  function MarkedFailed(j: Job, error: string, now: Time, delay: Time): Job {
    var released := j.(lastError := Some(error), claimedBy := None, leaseExpiresAt := None);
    if j.attempts >= j.maxAttempts then released.(status := Failed)
    else released.(status := Pending, availableAt := now + delay)
  }

  /** No two rows share a job type and a non-null key. */
  ghost predicate UniqueKeys(jobs: seq<Job>) {
    forall i, k | 0 <= i < k < |jobs| && jobs[i].key.Some? && jobs[i].key == jobs[k].key ::
      jobs[i].jobType != jobs[k].jobType
  }

  /** A table with an eligible unlocked row has a least one. */
  lemma {:induction false} LeastEligibleExists(jobs: seq<Job>, locked: set<nat>, now: Time, i: nat)
    requires i < |jobs| && i !in locked && Eligible(jobs[i], now)
    ensures exists p: nat :: Picks(jobs, locked, now, p)
  {
    var p := LeastAmong(jobs, locked, now, i, |jobs|);
    assert Picks(jobs, locked, now, p);
  }

  lemma {:induction false} LeastAmong(jobs: seq<Job>, locked: set<nat>, now: Time, i: nat, n: nat) returns (p: nat)
    requires i < |jobs| && i !in locked && Eligible(jobs[i], now) && n <= |jobs|
    ensures p < |jobs| && p !in locked && Eligible(jobs[p], now) && NotAfter(jobs[p], jobs[i])
    ensures forall k: nat | k < n && k !in locked && Eligible(jobs[k], now) :: NotAfter(jobs[p], jobs[k])
  {
    if n == 0 {
      p := i;
    } else {
      p := LeastAmong(jobs, locked, now, i, n - 1);
      if n - 1 !in locked && Eligible(jobs[n - 1], now) && !NotAfter(jobs[p], jobs[n - 1]) {
        p := n - 1;
      }
    }
  }

  /** When no two rows share both timestamps, the ORDER BY leaves no choice. */
  lemma PickIsUnique(jobs: seq<Job>, locked: set<nat>, now: Time, p: nat, q: nat)
    requires forall i, k | 0 <= i < k < |jobs| ::
               jobs[i].availableAt != jobs[k].availableAt || jobs[i].createdAt != jobs[k].createdAt
    requires Picks(jobs, locked, now, p) && Picks(jobs, locked, now, q)
    ensures p == q
  {
    assert NotAfter(jobs[p], jobs[q]) && NotAfter(jobs[q], jobs[p]);
  }

  class JobRepository {
    var jobs: seq<Job>

    constructor ()
      ensures jobs == []
    {
      jobs := [];
    }

    /** Inserts a PENDING row, or reports "job_already_enqueued" and changes nothing. */
    method EnqueueAsync(spec: JobSpec, now: Time) returns (r: Result<nat, string>)
      modifies this
      ensures old(AlreadyEnqueued(jobs, spec)) ==> r.Failure? && jobs == old(jobs)
      ensures !old(AlreadyEnqueued(jobs, spec)) ==>
                r == Success(|old(jobs)|) && jobs == old(jobs) + [NewJob(spec, now)]
      ensures old(UniqueKeys(jobs)) ==> UniqueKeys(jobs)
    {
      if AlreadyEnqueued(jobs, spec) {
        return Failure("job_already_enqueued");
      }
      jobs := jobs + [NewJob(spec, now)];
      return Success(|jobs| - 1);
    }

    /** The Postgres path: one statement selects and locks the row it claims. */
    method ClaimNextAsync(worker: WorkerId, lease: Time, now: Time, locked: set<nat>) returns (r: Option<nat>)
      modifies this
      ensures r.None? ==> jobs == old(jobs)
                          && forall k: nat | k < |jobs| && k !in locked :: !Eligible(jobs[k], now)
      ensures r.Some? ==> Picks(old(jobs), locked, now, r.value)
                          && jobs == old(jobs)[r.value := Claimed(old(jobs)[r.value], worker, now, lease)]
    {
      if !exists k: nat | k < |jobs| :: k !in locked && Eligible(jobs[k], now) {
        return None;
      }
      ghost var e: nat :| e < |jobs| && e !in locked && Eligible(jobs[e], now);
      LeastEligibleExists(jobs, locked, now, e);
      assert exists p: nat | p < |jobs| :: Picks(jobs, locked, now, p);
      var p: nat :| p < |jobs| && Picks(jobs, locked, now, p);
      jobs := jobs[p := Claimed(jobs[p], worker, now, lease)];
      return Some(p);
    }

    /** First statement of the portable path: read the least eligible id, locking nothing. */
    method SelectCandidate(now: Time) returns (r: Option<nat>)
      ensures r.None? ==> forall k: nat | k < |jobs| :: !Eligible(jobs[k], now)
      ensures r.Some? ==> Picks(jobs, {}, now, r.value)
    {
      if !exists k: nat | k < |jobs| :: Eligible(jobs[k], now) {
        return None;
      }
      ghost var e: nat :| e < |jobs| && Eligible(jobs[e], now);
      LeastEligibleExists(jobs, {}, now, e);
      assert exists p: nat | p < |jobs| :: Picks(jobs, {}, now, p);
      var p: nat :| p < |jobs| && Picks(jobs, {}, now, p);
      return Some(p);
    }

    /** Second statement of the portable path: UPDATE ... WHERE id = candidate AND eligible. */
    method UpdateCandidate(candidate: nat, worker: WorkerId, lease: Time, now: Time) returns (won: bool)
      modifies this
      ensures won == (candidate < |old(jobs)| && Eligible(old(jobs)[candidate], now))
      ensures jobs == if won then old(jobs)[candidate := Claimed(old(jobs)[candidate], worker, now, lease)]
                      else old(jobs)
    {
      won := candidate < |jobs| && Eligible(jobs[candidate], now);
      if won {
        jobs := jobs[candidate := Claimed(jobs[candidate], worker, now, lease)];
      }
    }

    /** UPDATE ... WHERE id = id AND status = RUNNING AND claimed_by = worker. */
    method TouchLeaseAsync(id: nat, worker: WorkerId, lease: Time, now: Time)
      modifies this
      ensures jobs == if id < |old(jobs)| && old(jobs)[id].status.Running? && old(jobs)[id].claimedBy == Some(worker)
                      then old(jobs)[id := old(jobs)[id].(leaseExpiresAt := Some(now + lease))] else old(jobs)
    {
      if id < |jobs| && jobs[id].status.Running? && jobs[id].claimedBy == Some(worker) {
        jobs := jobs[id := jobs[id].(leaseExpiresAt := Some(now + lease))];
      }
    }

    /** The update names only the id: neither the claimant nor the current status is checked. */
    method MarkSucceededAsync(id: nat)
      modifies this
      ensures jobs == if id < |old(jobs)| then old(jobs)[id := MarkedSucceeded(old(jobs)[id])] else old(jobs)
    {
      if id < |jobs| {
        jobs := jobs[id := jobs[id].(status := Succeeded, leaseExpiresAt := None, claimedBy := None)];
      }
    }

    method MarkFailedAsync(id: nat, error: string, delay: Time, now: Time) returns (status: Status)
      modifies this
      ensures id >= |old(jobs)| ==> status == Failed && jobs == old(jobs)
      ensures id < |old(jobs)| ==>
                jobs == old(jobs)[id := MarkedFailed(old(jobs)[id], error, now, delay)] && status == jobs[id].status
    {
      if id >= |jobs| {
        return Failed;
      }
      var job := jobs[id].(lastError := Some(error), leaseExpiresAt := None, claimedBy := None);
      if job.attempts >= job.maxAttempts {
        jobs := jobs[id := job.(status := Failed)];
        return Failed;
      }
      jobs := jobs[id := job.(status := Pending, availableAt := now + delay)];
      return Pending;
    }
  }
}
