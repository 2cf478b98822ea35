/** run_worker: a loop that claims a job only when it holds a permit, and hands the permit to the job's slot. */
module WorkerLoop {
  import opened Wrappers
  import opened JobTypes
  import opened JobQueue

  /** The semaphore's permits, the jobs whose slots are running, and every job claimed so far, in order. */
  datatype Loop = Loop(permits: nat, slots: seq<nat>, claimed: seq<nat>)

  /** What one pass comes to: a job, nothing eligible, a claim that raised, or no permit to claim with. */
  datatype Claiming = Got(job: nat) | Nothing | Raised | NoPermit

  datatype Event =
    | Pass(claiming: Claiming)
    | SlotEnds(slot: nat)

  function Slots(workerConcurrency: int): nat {
    if workerConcurrency < 1 then 1 else workerConcurrency
  }

  function Started(workerConcurrency: int): Loop {
    Loop(Slots(workerConcurrency), [], [])
  }

  /** One pass, which waits while there is no permit; or the end of a slot, however its job ended. */
  function Handled(l: Loop, e: Event): Loop {
    match e
    case Pass(claiming) =>
      if l.permits == 0 || !claiming.Got? then l
      else Loop(l.permits - 1, l.slots + [claiming.job], l.claimed + [claiming.job])
    case SlotEnds(i) =>
      if i < |l.slots| then l.(permits := l.permits + 1, slots := l.slots[..i] + l.slots[i + 1..]) else l
  }

  function Ran(workerConcurrency: int, events: seq<Event>): Loop {
    if events == [] then Started(workerConcurrency)
    else Handled(Ran(workerConcurrency, events[..|events| - 1]), events[|events| - 1])
  }

  /** The jobs whose slots have ended. */
  function Ended(workerConcurrency: int, events: seq<Event>): multiset<nat> {
    if events == [] then multiset{}
    else
      var k := |events| - 1;
      Ended(workerConcurrency, events[..k]) + EndedNow(Ran(workerConcurrency, events[..k]), events[k])
  }

  lemma RemoveOne(slots: seq<nat>, i: nat)
    requires i < |slots|
    ensures multiset(slots) == multiset(slots[..i] + slots[i + 1..]) + multiset{slots[i]}
  {
    assert slots == slots[..i] + [slots[i]] + slots[i + 1..];
  }

  /** The job a slot ending concerns. */
  function EndedNow(l: Loop, e: Event): multiset<nat> {
    if e.SlotEnds? && e.slot < |l.slots| then multiset{l.slots[e.slot]} else multiset{}
  }

  lemma StepConserves(l: Loop, e: Event)
    ensures var t := Handled(l, e);
      && t.permits + |t.slots| == l.permits + |l.slots|
      && multiset(t.claimed) + multiset(l.slots) == multiset(l.claimed) + multiset(t.slots) + EndedNow(l, e)
  {
    if e.SlotEnds? && e.slot < |l.slots| {
      RemoveOne(l.slots, e.slot);
    }
  }

  lemma Rebalance(c0: multiset<nat>, c1: multiset<nat>, s0: multiset<nat>, s1: multiset<nat>, e0: multiset<nat>, e: multiset<nat>)
    requires c0 == s0 + e0 && c1 + s0 == c0 + s1 + e
    ensures c1 == s1 + (e0 + e)
  {
    forall x | true ensures c1[x] == (s1 + (e0 + e))[x] {
      assert (c1 + s0)[x] == (c0 + s1 + e)[x];
    }
  }

  /** No permit leaks and no claimed job is dropped: permits and running slots always add up to the configured
      concurrency, and every claim ever won is either still running or has ended exactly once. */
  lemma {:induction false} PermitsAndJobsAreConserved(workerConcurrency: int, events: seq<Event>)
    ensures var l := Ran(workerConcurrency, events);
      && l.permits + |l.slots| == (if workerConcurrency >= 1 then workerConcurrency else 1)
      && multiset(l.claimed) == multiset(l.slots) + Ended(workerConcurrency, events)
  {
    if events != [] {
      hide Handled, EndedNow;
      var k := |events| - 1;
      var l, t := Ran(workerConcurrency, events[..k]), Ran(workerConcurrency, events);
      PermitsAndJobsAreConserved(workerConcurrency, events[..k]);
      StepConserves(l, events[k]);
      Rebalance(multiset(l.claimed), multiset(t.claimed), multiset(l.slots), multiset(t.slots),
                Ended(workerConcurrency, events[..k]), EndedNow(l, events[k]));
    }
  }

  class WorkerProcess {
    const workerId: WorkerId
    const concurrency: nat
    const repo: JobRepository
    var permits: nat
    var slots: seq<nat>
    ghost var claimed: seq<nat>

    constructor (repo: JobRepository, workerId: WorkerId, workerConcurrency: int)
      ensures this.repo == repo && this.workerId == workerId && Value() == Started(workerConcurrency)
    {
      this.repo, this.workerId := repo, workerId;
      concurrency := Slots(workerConcurrency);
      permits, slots, claimed := Slots(workerConcurrency), [], [];
    }

    ghost function Value(): Loop
      reads this
    {
      Loop(permits, slots, claimed)
    }

    /** One pass of the loop. Without a permit it does not touch the table; a permit that finds no job is given
        back; a claimed job always gets a slot. */
    method Iterate(lease: Time, now: Time, locked: set<nat>, claimRaises: bool) returns (claiming: Claiming)
      modifies this, repo
      ensures Value() == Handled(old(Value()), Pass(claiming))
      ensures claiming == NoPermit <==> old(permits) == 0
      ensures claiming == Raised <==> old(permits) > 0 && claimRaises
      ensures !claiming.Got? ==> repo.jobs == old(repo.jobs)
      ensures claiming == Nothing ==> forall k: nat | k < |repo.jobs| && k !in locked :: !Eligible(repo.jobs[k], now)
      ensures claiming.Got? ==>
                && Picks(old(repo.jobs), locked, now, claiming.job)
                && repo.jobs == old(repo.jobs)[claiming.job := Claimed(old(repo.jobs)[claiming.job], workerId, now, lease)]
    {
      if permits == 0 {
        return NoPermit;
      }
      permits := permits - 1;
      if claimRaises {
        permits := permits + 1;
        return Raised;
      }
      var job := repo.ClaimNextAsync(workerId, lease, now, locked);
      if job.None? {
        permits := permits + 1;
        return Nothing;
      }
      slots, claimed := slots + [job.value], claimed + [job.value];
      return Got(job.value);
    }

    /** The finally clause of a slot. */
    method Release(slot: nat)
      requires slot < |slots|
      modifies this
      ensures Value() == Handled(old(Value()), SlotEnds(slot))
    {
      permits := permits + 1;
      slots := slots[..slot] + slots[slot + 1..];
    }
  }
}
