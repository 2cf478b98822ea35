/** A run and the queue together: the job that polls for the run's clips does not give up on a run that waits. */
module PollJobs {
  import opened Wrappers
  import opened JobTypes
  import opened JobQueue
  import opened FanIn
  import opened FanInTheorems
  import opened PollEndings
  import Queue = LeaseProtocol
  import LeaseExclusion
  import opened RowHistory

  datatype World = World(run: RunState, queue: Queue.State)

  /** Something delivered to the run by others, an action of the queue, or the end of an execution of the polling job,
      in row `row`, by its handler; `spawned` is what the handler enqueued. */
  datatype Event =
    | Outside(d: Delivery)
    | Work(a: Queue.Action)
    | PollEnds(epoch: nat, answers: string -> Answer, message: string, letterWritten: bool, spawned: seq<JobSpec>)

  /** The job the producer enqueues for a run that waits for clips. */
  function SoraPollSpec(runId: Uuid): JobSpec {
    JobSpec(SoraPoll, Some("sora_poll:" + runId), Some(runId), "", 240, None)
  }

  /** What the worker makes of the end of a handler. */
  function OutcomeOf(e: FanIn.Ending, message: string, letterWritten: bool): Queue.Outcome {
    match e
    case Returned => Queue.Done
    case Raised => Queue.Raised(message, letterWritten)
    case Rescheduled(delay) => Queue.Rescheduled(message, delay)
  }

  predicate Executing(w: World, row: nat, epoch: nat) {
    row < |w.queue.rows| && epoch in w.queue.rows[row].live
  }

  function FinishOf(env: Env, row: nat, w: World, e: Event): Queue.Action
    requires e.PollEnds?
  {
    var step := OnSoraPoll(env, w.run, e.answers, w.queue.now);
    Queue.Finish(row, e.epoch, OutcomeOf(step.ending, e.message, e.letterWritten), e.spawned)
  }

  /** An execution of the polling job ends as its handler does, or by a failure outside the handler. */
  function Happened(cfg: Queue.Config, env: Env, row: nat, w: World, e: Event): World {
    match e
    case Outside(d) => w.(run := Deliver(env, w.run, d))
    case Work(a) =>
      if a.Finish? && a.row == row && !a.outcome.Unhandled? then w else w.(queue := Queue.Next(cfg, w.queue, a))
    case PollEnds(epoch, answers, _, _, _) =>
      if !Executing(w, row, epoch) then w
      else World(OnSoraPoll(env, w.run, answers, w.queue.now).state, Queue.Next(cfg, w.queue, FinishOf(env, row, w, e)))
  }

  function Ran(cfg: Queue.Config, env: Env, row: nat, start: World, events: seq<Event>): World {
    if events == [] then start
    else var k := |events| - 1; Happened(cfg, env, row, Ran(cfg, env, row, start, events[..k]), events[k])
  }

  predicate Polled(w: World, row: nat) {
    row < |w.queue.rows| && w.queue.rows[row].job.status.Succeeded?
  }

  predicate Waiting(w: World) {
    w.run.status == AwaitingVideoGeneration
  }

  /** The run waits, and its polling job has SUCCEEDED. */
  predicate Abandoned(w: World, row: nat) {
    Polled(w, row) && Waiting(w)
  }

  ghost predicate NeverAbandoned(cfg: Queue.Config, env: Env, row: nat, start: World, events: seq<Event>) {
    && !Abandoned(Ran(cfg, env, row, start, events), row)
    && (events == [] || NeverAbandoned(cfg, env, row, start, events[..|events| - 1]))
  }

  /** A repair that applies to a run whose polling job has SUCCEEDED. */
  predicate LateRepair(w: World, row: nat, e: Event) {
    e.Outside? && e.d.Repaired? && RepairApplies(w.run, e.d.order) && Polled(w, row)
  }

  ghost predicate NoLateRepair(cfg: Queue.Config, env: Env, row: nat, start: World, events: seq<Event>) {
    events == [] ||
    (var k := |events| - 1;
     NoLateRepair(cfg, env, row, start, events[..k]) && !LateRepair(Ran(cfg, env, row, start, events[..k]), row, events[k]))
  }

  lemma OnlyRepairsMakeWait(env: Env, s: RunState, d: Delivery)
    requires s.status != AwaitingVideoGeneration
    ensures Deliver(env, s, d).status == AwaitingVideoGeneration ==> d.Repaired? && RepairApplies(s, d.order)
  {
  }

  lemma WorkKeepsPolled(cfg: Queue.Config, s: Queue.State, a: Queue.Action, row: nat)
    requires !(a.Finish? && a.row == row && !a.outcome.Unhandled?)
    ensures var t := Queue.Next(cfg, s, a);
      row < |t.rows| && t.rows[row].job.status.Succeeded? ==> row < |s.rows| && s.rows[row].job.status.Succeeded?
  {
    Queue.NextShape(cfg, s, a);
  }

  /** The row after an execution of the polling job: SUCCEEDED iff the handler returned. */
  lemma PollLeavesJob(cfg: Queue.Config, env: Env, row: nat, w: World, e: Event)
    requires e.PollEnds? && Executing(w, row, e.epoch)
    ensures var job, after := w.queue.rows[row].job, Happened(cfg, env, row, w, e).queue;
            var ending := OnSoraPoll(env, w.run, e.answers, w.queue.now).ending;
      && row < |after.rows|
      && (after.rows[row].job.status.Succeeded? <==> ending.Returned?)
      && (after.rows[row].job.status.Failed? <==> !ending.Returned? && job.attempts >= job.maxAttempts)
      && (after.rows[row].job.status.Pending? <==> !ending.Returned? && job.attempts < job.maxAttempts)
      && (after.rows[row].job.status.Pending? && ending.Rescheduled? ==>
            after.rows[row].job.availableAt == w.queue.now + ending.delay)
  {
    hide OnSoraPoll;
    Queue.NextShape(cfg, w.queue, FinishOf(env, row, w, e));
  }

  /** A job that polls a waiting run is again PENDING, available ten seconds beyond the polling interval later, as long as
      clips are missing, nothing stops the poll and attempts are left; it never SUCCEEDS with the run still waiting. */
  lemma PollGoesOnExactly(cfg: Queue.Config, env: Env, row: nat, w: World, e: Event)
    requires e.PollEnds? && Executing(w, row, e.epoch) && env.realProvider && Waiting(w)
    ensures var job, after := w.queue.rows[row].job, Happened(cfg, env, row, w, e);
            var pending, stored := PendingTasks(w.run), TaskIds(w.run.clips);
            var stops := pending == [] || StopsRaising(pending, stored, e.answers) || StopsFailing(pending, stored, e.answers);
            var few := |UsableAt(w.run.clips)| + |ReadyTasks(pending, stored, e.answers)| < Expected(WithContent(w.run.manifests));
      && row < |after.queue.rows|
      && (Waiting(after) <==> !after.queue.rows[row].job.status.Succeeded?)
      && (!stops && few && job.attempts < job.maxAttempts ==>
            && after.queue.rows[row].job.status.Pending?
            && after.queue.rows[row].job.availableAt == w.queue.now + env.pollInterval + 10.0)
  {
    hide OnSoraPoll;
    PollEndsExactly(env, w.run, e.answers, w.queue.now);
    PollLeavesJob(cfg, env, row, w, e);
  }

  lemma RepairMakesWait(s: RunState, order: RepairOrder)
    requires RepairApplies(s, order)
    ensures OnRepair(s, order).status == AwaitingVideoGeneration
  {
  }

  lemma AbandonsExactly(cfg: Queue.Config, env: Env, row: nat, w: World, e: Event)
    requires env.realProvider && !Abandoned(w, row)
    ensures Abandoned(Happened(cfg, env, row, w, e), row) <==> LateRepair(w, row, e)
  {
    hide OnSoraPoll, OnSoraWebhook, OnSubmission, OnRepair, RepairApplies;
    match e
    case PollEnds(epoch, _, _, _, _) =>
      if Executing(w, row, epoch) {
        PollLeavesJob(cfg, env, row, w, e);
        if Waiting(w) {
          PollGoesOnExactly(cfg, env, row, w, e);
        } else {
          OnlyRepairsMakeWait(env, w.run, Poll(e.answers, w.queue.now));
        }
      }
    case Outside(d) =>
      if !Waiting(w) {
        OnlyRepairsMakeWait(env, w.run, d);
      }
      if d.Repaired? && RepairApplies(w.run, d.order) {
        RepairMakesWait(w.run, d.order);
      }
    case Work(a) =>
      if !(a.Finish? && a.row == row && !a.outcome.Unhandled?) {
        WorkKeepsPolled(cfg, w.queue, a, row);
      }
  }

  /** Over every history of run and queue, with a real provider: a polling job that has SUCCEEDED never leaves its run
      waiting, exactly as long as no repair applies to the run after that. */
  lemma {:induction false} PollingNeverAbandons(cfg: Queue.Config, env: Env, row: nat, start: World, events: seq<Event>)
    requires env.realProvider && !Abandoned(start, row)
    ensures NeverAbandoned(cfg, env, row, start, events) <==> NoLateRepair(cfg, env, row, start, events)
  {
    if events != [] {
      hide Happened, Abandoned, LateRepair;
      var k := |events| - 1;
      PollingNeverAbandons(cfg, env, row, start, events[..k]);
      if NeverAbandoned(cfg, env, row, start, events[..k]) {
        AbandonsExactly(cfg, env, row, Ran(cfg, env, row, start, events[..k]), events[k]);
      }
    }
  }

  lemma EndedStep(cfg: Queue.Config, env: Env, row: nat, w: World, e: Event)
    requires Polled(w, row) && w.queue.rows[row].live == map[]
    ensures var rows := Happened(cfg, env, row, w, e).queue.rows; row < |rows| && rows[row] == w.queue.rows[row]
  {
    hide Deliver;
    if e.Work? {
      Queue.NextShape(cfg, w.queue, e.a);
    }
  }

  /** Once polling has ended nothing starts it again: the job stays as it is, and its key refuses another one. */
  lemma {:induction false} EndedPollingStaysEnded(cfg: Queue.Config, env: Env, row: nat, start: World, events: seq<Event>)
    requires Polled(start, row) && start.queue.rows[row].live == map[]
    requires start.queue.rows[row].job.jobType == SoraPoll
    requires start.queue.rows[row].job.key == SoraPollSpec(env.runId).key
    ensures var rows := Ran(cfg, env, row, start, events).queue.rows;
      && row < |rows| && rows[row] == start.queue.rows[row]
      && AlreadyEnqueued(Queue.Jobs(rows), SoraPollSpec(env.runId))
  {
    if events != [] {
      hide Happened;
      var k := |events| - 1;
      EndedPollingStaysEnded(cfg, env, row, start, events[..k]);
      EndedStep(cfg, env, row, Ran(cfg, env, row, start, events[..k]), events[k]);
    }
    assert Queue.Jobs(Ran(cfg, env, row, start, events).queue.rows)[row] == start.queue.rows[row].job;
  }

  /** So a run repaired after its polling job SUCCEEDED waits with nobody polling for it, whatever the queue does. */
  lemma RepairedRunIsNotPolled(cfg: Queue.Config, env: Env, row: nat, start: World, order: RepairOrder, events: seq<Event>)
    requires Polled(start, row) && start.queue.rows[row].live == map[] && RepairApplies(start.run, order)
    requires start.queue.rows[row].job.jobType == SoraPoll
    requires start.queue.rows[row].job.key == SoraPollSpec(env.runId).key
    ensures Waiting(Ran(cfg, env, row, start, [Outside(Repaired(order))]))
    ensures var rows := Ran(cfg, env, row, start, [Outside(Repaired(order))] + events).queue.rows;
      row < |rows| && rows[row] == start.queue.rows[row]
  {
    var repair := [Outside(Repaired(order))];
    assert repair[..0] == [] && Ran(cfg, env, row, start, repair) == Happened(cfg, env, row, start, repair[0]);
    hide RepairApplies, Happened;
    EndedPollingStaysEnded(cfg, env, row, start, repair + events);
  }
}
