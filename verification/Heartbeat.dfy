/** The heartbeat schedule, and why it discharges the lease hypothesis of LeaseExclusion. */
module Heartbeat {
  import opened Wrappers
  import opened RealArithmetic
  import opened JobTypes
  import opened JobQueue
  import opened LeaseProtocol
  import opened LeaseExclusion

  /** max(1.0, min(lease / 3.0, 30.0)) */
  function Interval(lease: Time): Time {
    var third := if lease / 3.0 <= 30.0 then lease / 3.0 else 30.0;
    if third <= 1.0 then 1.0 else third
  }

  /** Exactly which leases survive k renewals failing in a row, when heartbeats are punctual: a one-second
      lease survives none at all, and only leases above thirty seconds per missed beat survive two or more. */
  lemma ToleranceExactly(lease: Time, k: nat)
    ensures (k + 1) as real * Interval(lease) < lease <==>
            if k == 0 then lease > 1.0 else if k == 1 then lease > 2.0 else lease > 30.0 * (k + 1) as real
  {
    var n := (k + 1) as real;
    if lease <= 3.0 {
      assert Interval(lease) == 1.0;
    } else if lease <= 90.0 {
      assert Interval(lease) == lease / 3.0;
      if k >= 2 {
        assert n * (lease / 3.0) >= 3.0 * (lease / 3.0) by { ScaleUp(n, 3.0, lease / 3.0); }
        assert 30.0 * n >= 90.0;
      }
    } else {
      assert Interval(lease) == 30.0;
    }
  }

  lemma ScaleUp(a: real, b: real, x: real)
    requires a >= b && x >= 0.0
    ensures a * x >= b * x
  {
    assert (a - b) * x >= 0.0;
  }

  /** Every heartbeat wakes within one interval plus `slack` of its previous wake-up, and never more than
      k renewals fail in a row. */
  ghost predicate OnSchedule(cfg: Config, s: State, k: nat, slack: Time) {
    forall i, e | 0 <= i < |s.rows| && e in s.rows[i].live ::
      s.now <= s.rows[i].live[e].lastBeat + Interval(cfg.lease) + slack && s.rows[i].live[e].misses <= k
  }

  ghost predicate OnScheduleAlong(cfg: Config, acts: seq<Action>, k: nat, slack: Time) {
    && OnSchedule(cfg, Reached(cfg, acts), k, slack)
    && (acts == [] || OnScheduleAlong(cfg, acts[..|acts| - 1], k, slack))
  }

  /** The last wake-up is at most one period per missed renewal after the last renewal. */
  ghost predicate Timely(x: Executor, period: Time) {
    x.lastBeat <= x.lastRenewal + Periods(x.misses, period)
  }

  lemma {:induction false} ScheduleKeepsTimely(cfg: Config, acts: seq<Action>, k: nat, slack: Time)
    requires slack >= 0.0 && OnScheduleAlong(cfg, acts, k, slack)
    ensures forall i, e | 0 <= i < |Reached(cfg, acts).rows| && e in Reached(cfg, acts).rows[i].live ::
              Timely(Reached(cfg, acts).rows[i].live[e], Interval(cfg.lease) + slack)
  {
    if acts != [] {
      var n := |acts| - 1;
      ScheduleKeepsTimely(cfg, acts[..n], k, slack);
      var s, a := Reached(cfg, acts[..n]), acts[n];
      NextShape(cfg, s, a);
      var t := Reached(cfg, acts);
      forall i: nat, e | i < |t.rows| && e in t.rows[i].live
        ensures Timely(t.rows[i].live[e], Interval(cfg.lease) + slack)
      {
        if i < |s.rows| && e in s.rows[i].live {
          assert Timely(s.rows[i].live[e], Interval(cfg.lease) + slack);
        }
      }
    }
  }

  lemma StillLeased(x: Executor, now: Time, lease: Time, k: nat, period: Time)
    requires Timely(x, period) && now <= x.lastBeat + period && x.misses <= k && period >= 0.0
    requires Periods(k + 1, period) < lease
    ensures now < x.lastRenewal + lease
  {
    PeriodsGrow(x.misses + 1, k + 1, period);
  }

  lemma PunctualStateIsLeased(cfg: Config, s: State, k: nat, slack: Time, period: Time)
    requires period == Interval(cfg.lease) + slack >= 0.0 && Periods(k + 1, period) < cfg.lease
    requires OnSchedule(cfg, s, k, slack)
    requires forall i, e | 0 <= i < |s.rows| && e in s.rows[i].live :: Timely(s.rows[i].live[e], period)
    ensures Leased(cfg, s)
  {
    forall i, e | 0 <= i < |s.rows| && e in s.rows[i].live
      ensures s.now < s.rows[i].live[e].lastRenewal + cfg.lease
    {
      StillLeased(s.rows[i].live[e], s.now, cfg.lease, k, period);
    }
  }

  /** If k + 1 periods fit strictly inside the lease, every executor on schedule is always leased. */
  lemma {:induction false} ScheduleKeepsLease(cfg: Config, acts: seq<Action>, k: nat, slack: Time)
    requires slack >= 0.0 && OnScheduleAlong(cfg, acts, k, slack)
    requires (k + 1) as real * (Interval(cfg.lease) + slack) < cfg.lease
    ensures LeasedAlong(cfg, acts)
  {
    if acts != [] {
      ScheduleKeepsLease(cfg, acts[..|acts| - 1], k, slack);
    }
    ScheduleKeepsTimely(cfg, acts, k, slack);
    PeriodsIsProduct(k + 1, Interval(cfg.lease) + slack);
    PunctualStateIsLeased(cfg, Reached(cfg, acts), k, slack, Interval(cfg.lease) + slack);
  }

  /** The two together: punctual heartbeats and any lease above two seconds tolerate a missed renewal, and
      still no job ever has two executors. */
  lemma PunctualHeartbeatsExclude(cfg: Config, acts: seq<Action>)
    requires cfg.lease > 2.0 && OnScheduleAlong(cfg, acts, 1, 0.0)
    ensures OneExecutorAlong(cfg, acts)
  {
    ToleranceExactly(cfg.lease, 1);
    ScheduleKeepsLease(cfg, acts, 1, 0.0);
    OneExecutorPerJob(cfg, acts);
  }

  /** One wake-up of the heartbeat task: how late it was, and whether its transaction committed. */
  datatype Wake = Wake(late: Time, committed: bool)

  function WakeTime(start: Time, lease: Time, wakes: seq<Wake>): Time {
    if wakes == [] then start
    else WakeTime(start, lease, wakes[..|wakes| - 1]) + Interval(lease) + wakes[|wakes| - 1].late
  }

  /** When the last committed renewal happened; the claim itself counts as the first. */
  function RenewedAt(start: Time, lease: Time, wakes: seq<Wake>): Time {
    if wakes == [] then start
    else if wakes[|wakes| - 1].committed then WakeTime(start, lease, wakes)
    else RenewedAt(start, lease, wakes[..|wakes| - 1])
  }

  predicate AnyCommitted(wakes: seq<Wake>) {
    exists i | 0 <= i < |wakes| :: wakes[i].committed
  }

  /** The heartbeat loop until its stop event: it leaves the row's lease one lease after the last committed
      renewal, touches no other field and no other row, and does nothing to a row it no longer owns. */
  method LeaseHeartbeat(repo: JobRepository, id: nat, worker: WorkerId, lease: Time, start: Time, wakes: seq<Wake>)
    requires id < |repo.jobs|
    modifies repo
    ensures repo.jobs ==
            if AnyCommitted(wakes) && old(repo.jobs)[id].status.Running? && old(repo.jobs)[id].claimedBy == Some(worker)
            then old(repo.jobs)[id := old(repo.jobs)[id].(leaseExpiresAt := Some(RenewedAt(start, lease, wakes) + lease))]
            else old(repo.jobs)
  {
    var interval := Interval(lease);
    var now, i := start, 0;
    while i < |wakes|
      invariant 0 <= i <= |wakes| && now == WakeTime(start, lease, wakes[..i])
      invariant |repo.jobs| == |old(repo.jobs)|
      invariant repo.jobs ==
                if AnyCommitted(wakes[..i]) && old(repo.jobs)[id].status.Running? && old(repo.jobs)[id].claimedBy == Some(worker)
                then old(repo.jobs)[id := old(repo.jobs)[id].(leaseExpiresAt := Some(RenewedAt(start, lease, wakes[..i]) + lease))]
                else old(repo.jobs)
    {
      now := now + interval + wakes[i].late;
      assert wakes[..i + 1][..i] == wakes[..i];
      if wakes[i].committed {
        repo.TouchLeaseAsync(id, worker, lease, now);
        assert wakes[..i + 1][i].committed;
      } else {
        assert AnyCommitted(wakes[..i + 1]) ==> AnyCommitted(wakes[..i]);
      }
      i := i + 1;
    }
    assert wakes[..i] == wakes;
  }
}
