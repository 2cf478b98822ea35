/** Many workers over one jobs table, as a state machine: claims, heartbeats, finishes, crashes and time.
    An executor is identified by the attempt number of the claim that started it, because worker_id is
    shared by every slot of one process. */
module LeaseProtocol {
  import opened Wrappers
  import opened JobTypes
  import opened JobQueue

  /** job_lease_seconds and job_retry_delay_seconds. */
  datatype Config = Config(lease: Time, baseDelay: Time)

  /** A running executor: when its lease was last renewed, when its heartbeat last woke, and how many
      renewals have failed in a row since. */
  datatype Executor = Executor(worker: WorkerId, lastRenewal: Time, lastBeat: Time, misses: nat)

  /** A job with the history the properties speak of. */
  datatype Row = Row(
    job: Job,
    claims: nat,
    reclaims: nat,
    live: map<nat, Executor>,
    firstAvailable: Time,
    plainFailures: nat,
    otherFailures: nat)

  datatype DeadLetter = DeadLetter(
    source: string, runId: Uuid, jobType: JobType, payload: string, error: string, attempts: nat)

  datatype State = State(now: Time, rows: seq<Row>, letters: seq<DeadLetter>)

  /** How an execution ends: the handler returned, raised, asked to be rescheduled, or the worker itself
      failed outside the handler. */
  datatype Outcome =
    | Done
    | Raised(error: string, letterWritten: bool)
    | Rescheduled(reason: string, delay: Time)
    | Unhandled(error: string)

  datatype Action =
    | Tick(elapsed: Time)
    | Enqueue(spec: JobSpec)
    | Claim(row: nat, worker: WorkerId, at: Time)
    | Beat(row: nat, epoch: nat)
    | MissBeat(row: nat, epoch: nat)
    | Finish(row: nat, epoch: nat, outcome: Outcome, spawned: seq<JobSpec>)
    | Crash(row: nat, epoch: nat)

  const EMPTY := State(0.0, [], [])

  function Jobs(rows: seq<Row>): (jobs: seq<Job>)
    ensures |jobs| == |rows| && forall i | 0 <= i < |rows| :: jobs[i] == rows[i].job
  {
    seq(|rows|, i requires 0 <= i < |rows| => rows[i].job)
  }

  /** A claim may act on a slightly stale clock reading; everything else acts on a live executor. */
  predicate Enabled(s: State, a: Action) {
    match a
    case Tick(elapsed) => elapsed >= 0.0
    case Enqueue(_) => true
    case Claim(i, _, at) => i < |s.rows| && at <= s.now && Eligible(s.rows[i].job, at)
    case Beat(i, e) => i < |s.rows| && e in s.rows[i].live
    case MissBeat(i, e) => i < |s.rows| && e in s.rows[i].live
    case Finish(i, e, _, _) => i < |s.rows| && e in s.rows[i].live
    case Crash(i, e) => i < |s.rows| && e in s.rows[i].live
  }

  predicate Addresses(a: Action, i: nat) {
    !a.Tick? && !a.Enqueue? && a.row == i
  }

  function FreshRow(spec: JobSpec, now: Time): Row {
    var job := NewJob(spec, now);
    Row(job, 0, 0, map[], job.availableAt, 0, 0)
  }

  function AddRow(rows: seq<Row>, spec: JobSpec, now: Time): seq<Row> {
    if AlreadyEnqueued(Jobs(rows), spec) then rows else rows + [FreshRow(spec, now)]
  }

  function AddRows(rows: seq<Row>, specs: seq<JobSpec>, now: Time): seq<Row> {
    if specs == [] then rows else AddRow(AddRows(rows, specs[..|specs| - 1], now), specs[|specs| - 1], now)
  }

  /** The row a finishing worker leaves: a success, or one of three ways through mark_failed. */
  function FinishedJob(cfg: Config, j: Job, outcome: Outcome, now: Time): Job {
    match outcome
    case Done => MarkedSucceeded(j)
    case Raised(error, _) => MarkedFailed(j, error, now, cfg.baseDelay * RetryFactor(j))
    case Rescheduled(reason, delay) => MarkedFailed(j, reason, now, delay)
    case Unhandled(error) => MarkedFailed(j, error, now, cfg.baseDelay)
  }

  /** max(1.0, float(job.attempts or 1)) */
  function RetryFactor(j: Job): real {
    if j.attempts <= 1 then 1.0 else j.attempts as real
  }

  /** The dead letter owed to a webhook job whose attempts are spent. */
  predicate OwesLetter(j: Job) {
    j.status.Failed? && IsWebhook(j.jobType) && j.runId.Some? && j.lastError.Some?
  }

  function LetterFor(j: Job): DeadLetter
    requires OwesLetter(j)
  {
    DeadLetter(if j.jobType.WebhookSora? then "sora" else "remotion",
               j.runId.value, j.jobType, j.payload, j.lastError.value, j.attempts)
  }

  function FinishLetters(cfg: Config, j: Job, outcome: Outcome, now: Time): seq<DeadLetter> {
    var after := FinishedJob(cfg, j, outcome, now);
    if outcome.Raised? && outcome.letterWritten && OwesLetter(after) then [LetterFor(after)] else []
  }

  function StepRow(cfg: Config, now: Time, row: Row, a: Action): Row {
    match a
    case Tick(_) => row
    case Enqueue(_) => row
    case Claim(_, worker, at) =>
      row.(job := Claimed(row.job, worker, at, cfg.lease),
           claims := row.claims + 1,
           reclaims := row.reclaims + if row.job.status.Running? then 1 else 0,
           live := row.live[row.job.attempts + 1 := Executor(worker, at, at, 0)])
    case Beat(_, e) =>
      if e !in row.live then row
      else row.(job := Touched(row.job, row.live[e].worker, now, cfg.lease),
                live := row.live[e := Executor(row.live[e].worker, now, now, 0)])
    case MissBeat(_, e) =>
      if e !in row.live then row
      else row.(live := row.live[e := row.live[e].(lastBeat := now, misses := row.live[e].misses + 1)])
    case Finish(_, e, outcome, _) =>
      row.(job := FinishedJob(cfg, row.job, outcome, now),
           live := row.live - {e},
           plainFailures := row.plainFailures + if outcome.Raised? then 1 else 0,
           otherFailures := row.otherFailures + if outcome.Rescheduled? || outcome.Unhandled? then 1 else 0)
    case Crash(_, e) => row.(live := row.live - {e})
  }

  /** One step; an action that is not enabled changes nothing. */
  function Next(cfg: Config, s: State, a: Action): State {
    if !Enabled(s, a) then s else
    match a
    case Tick(elapsed) => s.(now := s.now + elapsed)
    case Enqueue(spec) => s.(rows := AddRow(s.rows, spec, s.now))
    case Finish(i, e, outcome, spawned) =>
      State(s.now,
            AddRows(s.rows[i := StepRow(cfg, s.now, s.rows[i], a)], spawned, s.now),
            s.letters + FinishLetters(cfg, s.rows[i].job, outcome, s.now))
    case _ => s.(rows := s.rows[a.row := StepRow(cfg, s.now, s.rows[a.row], a)])
  }

  /** The state a run ends in; the states along the run are those its prefixes end in. */
  function Reached(cfg: Config, acts: seq<Action>): State {
    if acts == [] then EMPTY else var k := |acts| - 1; Next(cfg, Reached(cfg, acts[..k]), acts[k])
  }

  /** A row as enqueue creates it. */
  predicate IsFresh(row: Row, now: Time) {
    && row.job.status.Pending? && row.job.attempts == 0
    && row.job.leaseExpiresAt.None? && row.job.claimedBy.None? && row.job.lastError.None?
    && row.claims == 0 && row.reclaims == 0 && row.live == map[]
    && row.firstAvailable == row.job.availableAt && row.plainFailures == 0 && row.otherFailures == 0
  }

  /** What became of row i: rows are never removed, and an action changes at most the row it names. */
  function Evolved(cfg: Config, s: State, a: Action, i: nat): Row
    requires i < |s.rows|
  {
    if Enabled(s, a) && Addresses(a, i) then StepRow(cfg, s.now, s.rows[i], a) else s.rows[i]
  }

  lemma {:induction false} AddRowsShape(rows: seq<Row>, specs: seq<JobSpec>, now: Time)
    ensures |rows| <= |AddRows(rows, specs, now)|
    ensures forall i | 0 <= i < |rows| :: AddRows(rows, specs, now)[i] == rows[i]
    ensures forall i | |rows| <= i < |AddRows(rows, specs, now)| :: IsFresh(AddRows(rows, specs, now)[i], now)
  {
    if specs != [] {
      AddRowsShape(rows, specs[..|specs| - 1], now);
    }
  }

  lemma NextShape(cfg: Config, s: State, a: Action)
    ensures var t := Next(cfg, s, a);
      && |s.rows| <= |t.rows| && s.now <= t.now
      && (forall i: nat | i < |s.rows| :: t.rows[i] == Evolved(cfg, s, a, i))
      && (forall i: nat | |s.rows| <= i < |t.rows| :: IsFresh(t.rows[i], t.now))
  {
    if a.Finish? && Enabled(s, a) {
      AddRowsShape(s.rows[a.row := StepRow(cfg, s.now, s.rows[a.row], a)], a.spawned, s.now);
    }
  }

  lemma {:induction false} AddRowsKeepsUnique(rows: seq<Row>, specs: seq<JobSpec>, now: Time)
    requires UniqueKeys(Jobs(rows))
    ensures UniqueKeys(Jobs(AddRows(rows, specs, now)))
  {
    if specs != [] {
      AddRowsKeepsUnique(rows, specs[..|specs| - 1], now);
    }
  }

  lemma StepKeepsUnique(cfg: Config, s: State, a: Action)
    requires UniqueKeys(Jobs(s.rows))
    ensures UniqueKeys(Jobs(Next(cfg, s, a).rows))
  {
    if Enabled(s, a) && a.Finish? {
      var rows := s.rows[a.row := StepRow(cfg, s.now, s.rows[a.row], a)];
      assert UniqueKeys(Jobs(rows));
      AddRowsKeepsUnique(rows, a.spawned, s.now);
    }
  }

  /** The unique index holds in every reachable state, whatever handlers enqueue. */
  lemma {:induction false} KeysStayUnique(cfg: Config, acts: seq<Action>)
    ensures UniqueKeys(Jobs(Reached(cfg, acts).rows))
  {
    if acts != [] {
      hide Next, UniqueKeys;
      var k := |acts| - 1;
      KeysStayUnique(cfg, acts[..k]);
      StepKeepsUnique(cfg, Reached(cfg, acts[..k]), acts[k]);
    }
  }

  /** A worker process acting on the shared table and dead-letter queue. */
  class Worker {
    const repo: JobRepository
    var letters: seq<DeadLetter>

    constructor (repo: JobRepository)
      ensures this.repo == repo && letters == []
    {
      this.repo := repo;
      letters := [];
    }

    /** Everything _process_one_job does to the tables after its handler has ended in `outcome`. */
    method ProcessOneJob(cfg: Config, id: nat, outcome: Outcome, now: Time)
      modifies this`letters, repo
      ensures id >= |old(repo.jobs)| ==> repo.jobs == old(repo.jobs) && letters == old(letters)
      ensures id < |old(repo.jobs)| ==>
                && repo.jobs == old(repo.jobs)[id := FinishedJob(cfg, old(repo.jobs)[id], outcome, now)]
                && letters == old(letters) + FinishLetters(cfg, old(repo.jobs)[id], outcome, now)
    {
      if id >= |repo.jobs| {
        return;
      }
      var job := repo.jobs[id];
      match outcome
      case Done =>
        repo.MarkSucceededAsync(id);
      case Rescheduled(reason, delay) =>
        var _ := repo.MarkFailedAsync(id, reason, delay, now);
      case Unhandled(error) =>
        var _ := repo.MarkFailedAsync(id, error, cfg.baseDelay, now);
      case Raised(error, letterWritten) =>
        var delay := cfg.baseDelay * (if job.attempts <= 1 then 1.0 else job.attempts as real);
        assert delay == cfg.baseDelay * RetryFactor(job);
        assert FinishedJob(cfg, job, outcome, now) == MarkedFailed(job, error, now, delay);
        var status := repo.MarkFailedAsync(id, error, delay, now);
        if status == Failed && IsWebhook(job.jobType) && job.runId.Some? && letterWritten {
          var source := if job.jobType.WebhookSora? then "sora" else "remotion";
          letters := letters + [DeadLetter(source, job.runId.value, job.jobType, job.payload, error, job.attempts)];
        }
    }
  }
}
