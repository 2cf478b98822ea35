/** The dead-letter queue balances against the FAILED webhook jobs. */
module DeadLetters {
  import opened Wrappers
  import opened JobTypes
  import opened JobQueue
  import opened LeaseProtocol
  import opened LeaseExclusion

  function Bag(j: Job): multiset<DeadLetter> {
    if OwesLetter(j) then multiset{LetterFor(j)} else multiset{}
  }

  /** One letter for every FAILED webhook job with a run: its source, payload, last error and final attempts. */
  function Owed(rows: seq<Row>): multiset<DeadLetter> {
    if rows == [] then multiset{} else Owed(rows[..|rows| - 1]) + Bag(rows[|rows| - 1].job)
  }

  /** Letters that were due but not written: the insert failed, or the job ended outside the handler or by
      running out of reschedules. */
  function Lost(cfg: Config, acts: seq<Action>): multiset<DeadLetter> {
    if acts == [] then multiset{} else
      var k := |acts| - 1;
      Lost(cfg, acts[..k]) + LostNow(cfg, Reached(cfg, acts[..k]), acts[k])
  }

  function LostNow(cfg: Config, s: State, a: Action): multiset<DeadLetter> {
    if a.Finish? && Enabled(s, a) && !(a.outcome.Raised? && a.outcome.letterWritten)
    then Bag(FinishedJob(cfg, s.rows[a.row].job, a.outcome, s.now))
    else multiset{}
  }

  lemma Exchange<T>(a: multiset<T>, b: multiset<T>, c: multiset<T>, d: multiset<T>, e: multiset<T>)
    requires a + b == c + d
    ensures (a + e) + b == (c + e) + d
  {
    assert (a + e) + b == (a + b) + e;
    assert (c + e) + d == (c + d) + e;
  }

  lemma Settle<T>(l0: multiset<T>, l1: multiset<T>, lost: multiset<T>, now: multiset<T>, o0: multiset<T>, o1: multiset<T>)
    requires l0 + lost == o0 && l1 + now + o0 == l0 + o1
    ensures l1 + (lost + now) == o1
  {
    forall x | true ensures (l1 + (lost + now))[x] == o1[x] {
      assert (l0 + lost)[x] == o0[x] && (l1 + now + o0)[x] == (l0 + o1)[x];
    }
  }

  lemma {:induction false} OwedUpdate(rows: seq<Row>, i: nat, row: Row)
    requires i < |rows|
    ensures Owed(rows[i := row]) + Bag(rows[i].job) == Owed(rows) + Bag(row.job)
  {
    var n := |rows| - 1;
    if i == n {
      assert rows[i := row][..n] == rows[..n];
    } else {
      assert rows[i := row][..n] == rows[..n][i := row];
      OwedUpdate(rows[..n], i, row);
      Exchange(Owed(rows[..n][i := row]), Bag(rows[i].job), Owed(rows[..n]), Bag(row.job), Bag(rows[n].job));
    }
  }

  lemma OwedReplace(rows: seq<Row>, i: nat, row: Row)
    requires i < |rows| && !OwesLetter(rows[i].job)
    ensures Owed(rows[i := row]) == Owed(rows) + Bag(row.job)
  {
    OwedUpdate(rows, i, row);
    assert Owed(rows[i := row]) + multiset{} == Owed(rows[i := row]);
  }

  lemma {:induction false} OwedAddRows(rows: seq<Row>, specs: seq<JobSpec>, now: Time)
    ensures Owed(AddRows(rows, specs, now)) == Owed(rows)
  {
    if specs != [] {
      OwedAddRows(rows, specs[..|specs| - 1], now);
      OwedAddRow(AddRows(rows, specs[..|specs| - 1], now), specs[|specs| - 1], now);
    }
  }

  lemma FreshOwesNothing(spec: JobSpec, now: Time)
    ensures Bag(FreshRow(spec, now).job) == multiset{}
  {
  }

  lemma OwedAddRow(rows: seq<Row>, spec: JobSpec, now: Time)
    ensures Owed(AddRow(rows, spec, now)) == Owed(rows)
  {
    FreshOwesNothing(spec, now);
    hide Bag, FreshRow;
    assert (rows + [FreshRow(spec, now)])[..|rows|] == rows;
  }

  /** A finish changes one row and writes, or loses, exactly that row's letter. */
  lemma FinishBalances(cfg: Config, s: State, a: Action)
    requires a.Finish? && Enabled(s, a) && Exclusive(cfg, s.rows[a.row])
    ensures multiset(Next(cfg, s, a).letters) + LostNow(cfg, s, a) + Owed(s.rows)
            == multiset(s.letters) + Owed(Next(cfg, s, a).rows)
  {
    var job := s.rows[a.row].job;
    var row := StepRow(cfg, s.now, s.rows[a.row], a);
    OwedReplace(s.rows, a.row, row);
    OwedAddRows(s.rows[a.row := row], a.spawned, s.now);
    FinishWritesOrLoses(cfg, s, a);
    var letters := FinishLetters(cfg, job, a.outcome, s.now);
    assert multiset(s.letters + letters) == multiset(s.letters) + multiset(letters);
    Regroup(multiset(s.letters), multiset(letters), LostNow(cfg, s, a), Owed(s.rows));
  }

  lemma FinishWritesOrLoses(cfg: Config, s: State, a: Action)
    requires a.Finish? && Enabled(s, a)
    ensures multiset(FinishLetters(cfg, s.rows[a.row].job, a.outcome, s.now)) + LostNow(cfg, s, a)
            == Bag(FinishedJob(cfg, s.rows[a.row].job, a.outcome, s.now))
  {
  }

  lemma Regroup<T>(a: multiset<T>, b: multiset<T>, c: multiset<T>, d: multiset<T>)
    ensures (a + b) + c + d == a + (d + (b + c))
  {
  }

  /** Claims, renewals and crashes leave every owed letter where it was. */
  lemma OthersBalance(cfg: Config, s: State, a: Action)
    requires !a.Finish? && Enabled(s, a)
    requires forall i | 0 <= i < |s.rows| :: Exclusive(cfg, s.rows[i]) && Accounted(s.rows[i])
    ensures Owed(Next(cfg, s, a).rows) == Owed(s.rows)
  {
    if a.Enqueue? {
      OwedAddRow(s.rows, a.spec, s.now);
    } else if !a.Tick? {
      var row := StepRow(cfg, s.now, s.rows[a.row], a);
      assert Exclusive(cfg, s.rows[a.row]) && Accounted(s.rows[a.row]);
      OwedReplace(s.rows, a.row, row);
      assert Bag(row.job) == multiset{};
    }
  }

  lemma StepBalances(cfg: Config, s: State, a: Action)
    requires forall i | 0 <= i < |s.rows| :: Exclusive(cfg, s.rows[i]) && Accounted(s.rows[i])
    ensures multiset(Next(cfg, s, a).letters) + LostNow(cfg, s, a) + Owed(s.rows)
            == multiset(s.letters) + Owed(Next(cfg, s, a).rows)
  {
    if a.Finish? && Enabled(s, a) {
      FinishBalances(cfg, s, a);
    } else {
      if Enabled(s, a) {
        OthersBalance(cfg, s, a);
      }
      assert Next(cfg, s, a).letters == s.letters && LostNow(cfg, s, a) == multiset{};
    }
  }

  /** Conservation: without takeovers, the queue of dead letters, together with the letters that were lost, is
      exactly one letter per FAILED webhook job, carrying its payload, source, error and final attempts. */
  lemma {:induction false} WebhookConservation(cfg: Config, acts: seq<Action>)
    requires NoTakeover(cfg, acts)
    ensures multiset(Reached(cfg, acts).letters) + Lost(cfg, acts) == Owed(Reached(cfg, acts).rows)
  {
    if acts != [] {
      var k := |acts| - 1;
      WebhookConservation(cfg, acts[..k]);
      NoTakeoverMeansSafe(cfg, acts[..k]);
      SafeClaimsExclude(cfg, acts[..k]);
      AttemptsAccounting(cfg, acts[..k]);
      var s := Reached(cfg, acts[..k]);
      StepBalances(cfg, s, acts[k]);
      Settle(multiset(s.letters), multiset(Reached(cfg, acts).letters), Lost(cfg, acts[..k]),
             LostNow(cfg, s, acts[k]), Owed(s.rows), Owed(Reached(cfg, acts).rows));
    }
  }

  /** The dead-letter queue is complete exactly when no owed letter was lost. */
  lemma LettersCompleteExactly(cfg: Config, acts: seq<Action>)
    requires NoTakeover(cfg, acts)
    ensures multiset(Reached(cfg, acts).letters) == Owed(Reached(cfg, acts).rows) <==> Lost(cfg, acts) == multiset{}
  {
    WebhookConservation(cfg, acts);
    var letters, lost := multiset(Reached(cfg, acts).letters), Lost(cfg, acts);
    assert |letters + lost| == |letters| + |lost|;
  }

  /** How many webhook jobs with a run stand at a status. */
  function Webhooks(rows: seq<Row>, status: Status): nat {
    if rows == [] then 0
    else
      var last := rows[|rows| - 1].job;
      Webhooks(rows[..|rows| - 1], status)
      + if IsWebhook(last.jobType) && last.runId.Some? && last.status == status then 1 else 0
  }

  lemma {:induction false} OwedCountsFailed(rows: seq<Row>)
    requires forall i | 0 <= i < |rows| :: Accounted(rows[i])
    ensures |Owed(rows)| == Webhooks(rows, Failed)
  {
    if rows != [] {
      var n := |rows| - 1;
      OwedCountsFailed(rows[..n]);
      assert Accounted(rows[n]);
    }
  }

  /** With nothing lost, there are as many letters as FAILED webhook jobs: none missing, none duplicated. */
  lemma OneLetterPerFailure(cfg: Config, acts: seq<Action>)
    requires NoTakeover(cfg, acts) && Lost(cfg, acts) == multiset{}
    ensures |Reached(cfg, acts).letters| == Webhooks(Reached(cfg, acts).rows, Failed)
  {
    LettersCompleteExactly(cfg, acts);
    AttemptsAccounting(cfg, acts);
    OwedCountsFailed(Reached(cfg, acts).rows);
    assert |multiset(Reached(cfg, acts).letters)| == |Reached(cfg, acts).letters|;
  }

  /** The letter that this action writes: an execution of a webhook job raises with no attempts left. */
  ghost predicate Writes(s: State, a: Action, l: DeadLetter) {
    && Enabled(s, a) && a.Finish? && a.outcome == Raised(l.error, true)
    && var job := s.rows[a.row].job;
       && job.jobType in {WebhookSora, WebhookRemotion} && job.attempts >= job.maxAttempts
       && l.source == (if job.jobType == WebhookSora then "sora" else "remotion") && l.jobType == job.jobType
       && Some(l.runId) == job.runId && l.payload == job.payload && l.attempts == job.attempts
  }

  lemma StepWritesExactly(cfg: Config, s: State, a: Action)
    ensures var t := Next(cfg, s, a);
      && (t.letters == s.letters || exists l :: Writes(s, a, l))
      && forall l | Writes(s, a, l) :: t.letters == s.letters + [l]
  {
    var t := Next(cfg, s, a);
    if t.letters != s.letters {
      assert Writes(s, a, t.letters[|s.letters|]);
    }
  }

  /** In every run, takeovers included, each letter was written by the last failure of its webhook job, under the name of
      its provider and with the job's own run, payload, error and attempts. */
  lemma {:induction false} EveryLetterHasSource(cfg: Config, acts: seq<Action>, n: nat)
    requires n < |Reached(cfg, acts).letters|
    ensures exists k: nat :: k < |acts| && Writes(At(cfg, acts, k), acts[k], Reached(cfg, acts).letters[n])
  {
    hide Next, Writes;
    var k := |acts| - 1;
    var s := Reached(cfg, acts[..k]);
    StepWritesExactly(cfg, s, acts[k]);
    if n < |s.letters| {
      EveryLetterHasSource(cfg, acts[..k], n);
      var m: nat :| m < k && Writes(At(cfg, acts[..k], m), acts[..k][m], s.letters[n]);
      assert acts[..k][..m] == acts[..m];
      assert Reached(cfg, acts).letters[n] == s.letters[n];
    } else {
      assert At(cfg, acts, k) == s;
    }
  }

  const STRICT_CONFIG := Config(60.0, 5.0)

  function OneAttempt(runId: Uuid): JobSpec {
    JobSpec(WebhookSora, Some(SoraJobKey(runId, Some("t"), "")), Some(runId), "event", 1, None)
  }

  /** A webhook job whose only execution fails while its letter cannot be written. */
  function LosingRun(runId: Uuid): seq<Action> {
    [Enqueue(OneAttempt(runId))] + [Claim(0, "w", 0.0)] + [Finish(0, 1, Raised("boom", false), [])]
  }

  /** It ends FAILED with no letter at all. */
  lemma LetterIsLost(runId: Uuid)
    ensures var s := Reached(STRICT_CONFIG, LosingRun(runId));
      && |s.rows| == 1 && s.rows[0].job.status.Failed? && s.letters == []
      && Owed(s.rows) == multiset{DeadLetter("sora", runId, WebhookSora, "event", "boom", 1)}
  {
    var c := STRICT_CONFIG;
    var row0 := FreshRow(OneAttempt(runId), 0.0);
    var enqueue, claim := Enqueue(OneAttempt(runId)), Claim(0, "w", 0.0);
    var finish := Finish(0, 1, Raised("boom", false), []);
    assert Reached(c, []) == EMPTY && [] + [enqueue] == [enqueue];
    ReachedSnoc(c, [], enqueue);
    assert Reached(c, [enqueue]) == State(0.0, [row0], []);
    ReachedSnoc(c, [enqueue], claim);
    var row1 := StepRow(c, 0.0, row0, claim);
    assert Reached(c, [enqueue] + [claim]) == State(0.0, [row1], []);
    ReachedSnoc(c, [enqueue] + [claim], finish);
    var row2 := StepRow(c, 0.0, row1, finish);
    assert Reached(c, LosingRun(runId)) == State(0.0, [row2], []);
    assert [row2][..0] == [] && Owed([row2]) == Owed([]) + Bag(row2.job);
  }
}
