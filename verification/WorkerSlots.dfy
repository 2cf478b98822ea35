/** One worker process inside the queue: its slots are its executors, so its concurrency bounds them. */
module WorkerSlots {
  import opened Wrappers
  import opened JobTypes
  import opened JobQueue
  import opened LeaseProtocol
  import opened LeaseExclusion
  import opened WorkerLoop

  /** The whole system, and the loop of one of its workers. */
  datatype Joint = Joint(state: State, loop: Loop)

  predicate ClaimsAs(s: State, a: Action, worker: WorkerId) {
    a.Claim? && Enabled(s, a) && a.worker == worker
  }

  /** An executor of this worker ends, by finishing or by crashing. */
  predicate EndsAs(s: State, a: Action, worker: WorkerId) {
    (a.Finish? || a.Crash?) && Enabled(s, a) && s.rows[a.row].live[a.epoch].worker == worker
  }

  function SlotOf(slots: seq<nat>, row: nat): (i: nat)
    requires row in slots
    ensures i < |slots| && slots[i] == row
  {
    if slots[0] == row then 0 else SlotOf(slots[1..], row) + 1
  }

  /** A step of the system; the worker's own claims wait while it has no permit. */
  function JointNext(cfg: Config, worker: WorkerId, j: Joint, a: Action): Joint {
    if ClaimsAs(j.state, a, worker) then
      if j.loop.permits == 0 then j
      else Joint(Next(cfg, j.state, a), WorkerLoop.Handled(j.loop, Pass(Got(a.row))))
    else if EndsAs(j.state, a, worker) && a.row in j.loop.slots then
      Joint(Next(cfg, j.state, a), WorkerLoop.Handled(j.loop, SlotEnds(SlotOf(j.loop.slots, a.row))))
    else Joint(Next(cfg, j.state, a), j.loop)
  }

  function JointRun(cfg: Config, worker: WorkerId, concurrency: int, acts: seq<Action>): Joint {
    if acts == [] then Joint(EMPTY, Started(concurrency))
    else var k := |acts| - 1; JointNext(cfg, worker, JointRun(cfg, worker, concurrency, acts[..k]), acts[k])
  }

  function OwnIn(live: map<nat, Executor>, worker: WorkerId): set<nat> {
    set e | e in live && live[e].worker == worker
  }

  function Own(row: Row, worker: WorkerId): set<nat> {
    OwnIn(row.live, worker)
  }

  /** All executors of the worker, over all rows. */
  function OwnExecutors(rows: seq<Row>, worker: WorkerId): nat {
    if rows == [] then 0 else OwnExecutors(rows[..|rows| - 1], worker) + |Own(rows[|rows| - 1], worker)|
  }

  function OwnAt(rows: seq<Row>, worker: WorkerId, i: nat): nat {
    if i < |rows| then |Own(rows[i], worker)| else 0
  }

  /** The slots hold each row as often as the worker executes it. */
  ghost predicate SlotsAreExecutors(j: Joint, worker: WorkerId) {
    && (forall i: nat :: multiset(j.loop.slots)[i] == OwnAt(j.state.rows, worker, i))
    && (forall i | 0 <= i < |j.state.rows| :: Accounted(j.state.rows[i]))
  }

  lemma {:induction false} SumOfOwn(rows: seq<Row>, worker: WorkerId, m: multiset<nat>)
    requires forall i: nat :: m[i] == OwnAt(rows, worker, i)
    ensures |m| == OwnExecutors(rows, worker)
  {
    if rows == [] {
      assert forall i: nat :: m[i] == 0;
      assert m == multiset{};
    } else {
      hide Own;
      var n: nat := |rows| - 1;
      var rest := m[n := 0];
      assert |m| == |rest| + m[n] by {
        assert m == rest[n := m[n]];
      }
      SumOfOwn(rows[..n], worker, rest);
    }
  }

  lemma OwnAdded(live: map<nat, Executor>, e: nat, x: Executor, worker: WorkerId)
    requires e !in live
    ensures |OwnIn(live[e := x], worker)| == |OwnIn(live, worker)| + if x.worker == worker then 1 else 0
  {
    assert OwnIn(live[e := x], worker) == OwnIn(live, worker) + if x.worker == worker then {e} else {};
  }

  lemma OwnRemoved(live: map<nat, Executor>, e: nat, worker: WorkerId)
    requires e in live
    ensures |OwnIn(live - {e}, worker)| == |OwnIn(live, worker)| - if live[e].worker == worker then 1 else 0
  {
    assert OwnIn(live - {e}, worker) == OwnIn(live, worker) - {e};
  }

  lemma OwnRenewed(live: map<nat, Executor>, e: nat, x: Executor, worker: WorkerId)
    requires e in live && x.worker == live[e].worker
    ensures OwnIn(live[e := x], worker) == OwnIn(live, worker)
  {
  }

  /** How the executors of the worker on row i change. */
  lemma OwnStep(cfg: Config, s: State, a: Action, worker: WorkerId, i: nat)
    requires i < |s.rows| && Accounted(s.rows[i])
    ensures |Own(Evolved(cfg, s, a, i), worker)|
            == |Own(s.rows[i], worker)| + (if ClaimsAs(s, a, worker) && a.row == i then 1 else 0)
               - (if EndsAs(s, a, worker) && a.row == i then 1 else 0)
  {
    var row, after := s.rows[i], Evolved(cfg, s, a, i);
    if Enabled(s, a) && Addresses(a, i) {
      hide OwnIn;
      if a.Claim? {
        assert row.job.attempts + 1 !in row.live;
        OwnAdded(row.live, row.job.attempts + 1, Executor(a.worker, a.at, a.at, 0), worker);
      } else if a.Finish? || a.Crash? {
        OwnRemoved(row.live, a.epoch, worker);
      } else {
        OwnRenewed(row.live, a.epoch, after.live[a.epoch], worker);
      }
    }
  }

  lemma SlotsAfterStep(cfg: Config, worker: WorkerId, j: Joint, a: Action, i: nat)
    requires JointNext(cfg, worker, j, a) != j && (EndsAs(j.state, a, worker) ==> a.row in j.loop.slots)
    ensures var t := JointNext(cfg, worker, j, a);
      && multiset(t.loop.slots)[i] == multiset(j.loop.slots)[i]
           + (if ClaimsAs(j.state, a, worker) && a.row == i then 1 else 0)
           - (if EndsAs(j.state, a, worker) && a.row == i then 1 else 0)
      && t.loop.permits + |t.loop.slots| == j.loop.permits + |j.loop.slots|
      && t.state == Next(cfg, j.state, a)
  {
    hide Next, SlotOf, WorkerLoop.Handled;
    if ClaimsAs(j.state, a, worker) {
      SlotStarts(j.loop, a.row);
    } else if EndsAs(j.state, a, worker) {
      SlotStops(j.loop, SlotOf(j.loop.slots, a.row));
    }
  }

  lemma SlotStarts(l: Loop, row: nat)
    requires l.permits > 0
    ensures var t := WorkerLoop.Handled(l, Pass(Got(row)));
      multiset(t.slots) == multiset(l.slots) + multiset{row} && t.permits + |t.slots| == l.permits + |l.slots|
  {
  }

  lemma SlotStops(l: Loop, i: nat)
    requires i < |l.slots|
    ensures var t := WorkerLoop.Handled(l, SlotEnds(i));
      multiset(l.slots) == multiset(t.slots) + multiset{l.slots[i]} && t.permits + |t.slots| == l.permits + |l.slots|
  {
    RemoveOne(l.slots, i);
  }

  lemma SlotsStep(cfg: Config, j: Joint, a: Action, worker: WorkerId)
    requires SlotsAreExecutors(j, worker)
    ensures SlotsAreExecutors(JointNext(cfg, worker, j, a), worker)
    ensures var t := JointNext(cfg, worker, j, a); t.loop.permits + |t.loop.slots| == j.loop.permits + |j.loop.slots|
  {
    var t := JointNext(cfg, worker, j, a);
    if t != j {
      hide Next, Own, Accounted, Evolved, JointNext, ClaimsAs, EndsAs, IsFresh;
      NextShape(cfg, j.state, a);
      if EndsAs(j.state, a, worker) {
        EndingHasSlot(j, a, worker);
      }
      SlotsAfterStep(cfg, worker, j, a, 0);
      forall i: nat | true ensures multiset(t.loop.slots)[i] == OwnAt(t.state.rows, worker, i) {
        SlotsAfterStep(cfg, worker, j, a, i);
        if i < |j.state.rows| {
          OwnStep(cfg, j.state, a, worker, i);
        } else {
          NobodyBeyond(j.state, a, worker, i);
          if i < |t.state.rows| {
            FreshHasNoOwn(t.state.rows[i], t.state.now, worker);
          }
        }
      }
      forall i: nat | i < |t.state.rows| ensures Accounted(t.state.rows[i]) {
        if i < |j.state.rows| {
          StepStaysAccounted(cfg, j.state, a, i);
        } else {
          FreshIsAccounted(t.state.rows[i], t.state.now);
        }
      }
    }
  }

  lemma NobodyBeyond(s: State, a: Action, worker: WorkerId, i: nat)
    requires i >= |s.rows|
    ensures !(ClaimsAs(s, a, worker) && a.row == i) && !(EndsAs(s, a, worker) && a.row == i)
  {
  }

  lemma FreshHasNoOwn(row: Row, now: Time, worker: WorkerId)
    requires IsFresh(row, now)
    ensures |Own(row, worker)| == 0
  {
  }

  lemma EndingHasSlot(j: Joint, a: Action, worker: WorkerId)
    requires SlotsAreExecutors(j, worker) && EndsAs(j.state, a, worker)
    ensures a.row in j.loop.slots
  {
    assert a.epoch in Own(j.state.rows[a.row], worker);
    assert multiset(j.loop.slots)[a.row] == OwnAt(j.state.rows, worker, a.row) > 0;
  }

  lemma {:induction false} SlotsAlways(cfg: Config, worker: WorkerId, concurrency: int, acts: seq<Action>)
    ensures var j := JointRun(cfg, worker, concurrency, acts);
      SlotsAreExecutors(j, worker) && j.loop.permits + |j.loop.slots| == Slots(concurrency)
  {
    if acts != [] {
      hide SlotsAreExecutors, JointNext;
      var k := |acts| - 1;
      SlotsAlways(cfg, worker, concurrency, acts[..k]);
      SlotsStep(cfg, JointRun(cfg, worker, concurrency, acts[..k]), acts[k], worker);
    } else {
      NoSlotsYet(worker, concurrency);
    }
  }

  lemma NoSlotsYet(worker: WorkerId, concurrency: int)
    ensures SlotsAreExecutors(Joint(EMPTY, Started(concurrency)), worker)
  {
  }

  /** Over any run of the queue, crashes and takeovers included, a worker executes at most as many jobs at a time as
      it is configured for: its executors are its running slots, and its permits count the rest. */
  lemma ExecutorsWithinConcurrency(cfg: Config, worker: WorkerId, concurrency: int, acts: seq<Action>)
    ensures var j := JointRun(cfg, worker, concurrency, acts);
      && OwnExecutors(j.state.rows, worker) == |j.loop.slots|
      && OwnExecutors(j.state.rows, worker) + j.loop.permits == if concurrency >= 1 then concurrency else 1
  {
    SlotsAlways(cfg, worker, concurrency, acts);
    var j := JointRun(cfg, worker, concurrency, acts);
    SumOfOwn(j.state.rows, worker, multiset(j.loop.slots));
  }
}
