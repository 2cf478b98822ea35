/** Retries back off quadratically. */
module Backoff {
  import opened Wrappers
  import opened JobTypes
  import opened JobQueue
  import opened LeaseProtocol
  import opened LeaseExclusion

  /** base * 1 + base * 2 + ... + base * k */
  function Delays(base: Time, k: nat): Time {
    if k == 0 then 0.0 else Delays(base, k - 1) + base * k as real
  }

  lemma {:induction false} DelaysClosed(base: Time, k: nat)
    ensures Delays(base, k) == base * (k * (k + 1) / 2) as real
  {
    if k > 0 {
      DelaysClosed(base, k - 1);
      var below, here := (k - 1) * k / 2, k * (k + 1) / 2;
      Triangle(k);
      assert here as real == below as real + k as real;
      Distribute(base, below as real, k as real);
    }
  }

  lemma Triangle(k: nat)
    requires k > 0
    ensures k * (k + 1) / 2 == (k - 1) * k / 2 + k
  {
    assert k * (k + 1) == (k - 1) * k + 2 * k;
  }

  lemma Distribute(x: real, a: real, b: real)
    ensures x * (a + b) == x * a + x * b
  {
  }

  function Earliest(cfg: Config, row: Row): Time {
    row.firstAvailable + Delays(cfg.baseDelay, row.plainFailures)
  }

  /** A row never reclaimed whose executions all ended by returning or raising. */
  predicate Plain(row: Row) {
    row.reclaims == 0 && row.otherFailures == 0
  }

  ghost predicate BackedOff(cfg: Config, now: Time, row: Row) {
    && row.live.Keys <= {row.job.attempts}
    && (row.live != map[] ==> row.job.status.Running?)
    && (row.job.status.Pending? ==> row.job.attempts == row.plainFailures
                                    && row.job.availableAt >= Earliest(cfg, row))
    && (row.job.status.Running? ==> row.job.attempts == row.plainFailures + 1 && now >= Earliest(cfg, row))
  }

  lemma StepBacksOff(cfg: Config, s: State, a: Action, i: nat)
    requires i < |s.rows| && Enabled(s, a) && Addresses(a, i)
    requires Accounted(s.rows[i]) && (Plain(s.rows[i]) ==> BackedOff(cfg, s.now, s.rows[i]))
    ensures var row := StepRow(cfg, s.now, s.rows[i], a); Plain(row) ==> BackedOff(cfg, s.now, row)
  {
    var before, after := s.rows[i], StepRow(cfg, s.now, s.rows[i], a);
    if Plain(after) {
      assert Plain(before);
      if a.Finish? && a.outcome.Raised? {
        assert before.job.status.Running?;
        assert RetryFactor(before.job) == (before.plainFailures + 1) as real;
      } else {
        assert Earliest(cfg, after) == Earliest(cfg, before);
      }
    }
  }

  lemma {:induction false} PlainRowsBackOff(cfg: Config, acts: seq<Action>)
    ensures forall i | 0 <= i < |Reached(cfg, acts).rows| && Plain(Reached(cfg, acts).rows[i]) ::
              BackedOff(cfg, Reached(cfg, acts).now, Reached(cfg, acts).rows[i])
  {
    if acts != [] {
      var k := |acts| - 1;
      PlainRowsBackOff(cfg, acts[..k]);
      AttemptsAccounting(cfg, acts[..k]);
      var s, a := Reached(cfg, acts[..k]), acts[k];
      NextShape(cfg, s, a);
      var t := Reached(cfg, acts);
      forall i: nat | i < |t.rows| && Plain(t.rows[i]) ensures BackedOff(cfg, t.now, t.rows[i]) {
        if i < |s.rows| {
          assert Accounted(s.rows[i]) && (Plain(s.rows[i]) ==> BackedOff(cfg, s.now, s.rows[i]));
          if Enabled(s, a) && Addresses(a, i) {
            StepBacksOff(cfg, s, a, i);
          }
        } else {
          assert Delays(cfg.baseDelay, 0) == 0.0;
        }
      }
    }
  }

  /** A job waiting after k plain failures is not available before its first available time plus
      base * k (k + 1) / 2; no hypothesis on leases is needed, only that this job was never reclaimed. */
  lemma QuadraticBackoff(cfg: Config, acts: seq<Action>, i: nat)
    requires i < |Reached(cfg, acts).rows|
    requires Plain(Reached(cfg, acts).rows[i]) && Reached(cfg, acts).rows[i].job.status.Pending?
    ensures var row := Reached(cfg, acts).rows[i];
      && row.job.attempts == row.plainFailures
      && row.job.availableAt >= row.firstAvailable + Delays(cfg.baseDelay, row.plainFailures)
    ensures var k := Reached(cfg, acts).rows[i].plainFailures;
      Delays(cfg.baseDelay, k) == cfg.baseDelay * (k * (k + 1) / 2) as real
  {
    hide Delays, Reached;
    PlainRowsBackOff(cfg, acts);
    DelaysClosed(cfg.baseDelay, Reached(cfg, acts).rows[i].plainFailures);
  }
}
