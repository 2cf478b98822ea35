/** What the fan-in handlers guarantee over any serial sequence of deliveries to one run. */
module FanInTheorems {
  import opened Wrappers
  import opened SetFacts
  import opened JobTypes
  import opened JobQueue
  import opened FanIn

  datatype Delivery =
    | Webhook(ev: SoraEvent, download: Fetched, transcode: Fetched, at: Time)
    | Poll(answers: string -> Answer, at: Time)
    | Submitted(tasks: seq<string>, indices: map<string, int>)
    | Repaired(order: RepairOrder)

  function Deliver(env: Env, s: RunState, d: Delivery): RunState {
    match d
    case Webhook(ev, download, transcode, at) => OnSoraWebhook(env, s, ev, download, transcode, at).state
    case Poll(answers, at) => OnSoraPoll(env, s, answers, at).state
    case Submitted(tasks, indices) => OnSubmission(s, tasks, indices)
    case Repaired(order) => OnRepair(s, order)
  }

  function DeliverAll(env: Env, s: RunState, ds: seq<Delivery>): RunState {
    if ds == [] then s else Deliver(env, DeliverAll(env, s, ds[..|ds| - 1]), ds[|ds| - 1])
  }

  /** The state after the first k deliveries. */
  function After(env: Env, s: RunState, ds: seq<Delivery>, k: nat): RunState
    requires k <= |ds|
  {
    DeliverAll(env, s, ds[..k])
  }

  lemma AfterStep(env: Env, s: RunState, ds: seq<Delivery>, k: nat)
    requires k < |ds|
    ensures After(env, s, ds, k + 1) == Deliver(env, After(env, s, ds, k), ds[k])
    ensures After(env, s, ds, |ds|) == DeliverAll(env, s, ds) && After(env, s, ds, 0) == s
  {
    assert ds[..k + 1][..k] == ds[..k] && ds[..|ds|] == ds;
  }

  // ---- safety under every delivery, failing ones included ----

  ghost predicate OneClipPerTask(clips: seq<Clip>) {
    forall i, k | 0 <= i < k < |clips| && Truthy(clips[i].taskId) :: clips[i].taskId != clips[k].taskId
  }

  ghost predicate HasUris(clips: seq<Clip>) {
    forall i | 0 <= i < |clips| :: clips[i].uri != ""
  }

  ghost predicate HaveContent(manifests: seq<Manifest>) {
    forall i | 0 <= i < |manifests| :: manifests[i].hasContent
  }

  predicate HasResume(env: Env, jobs: seq<Job>) {
    AlreadyEnqueued(jobs, ResumeSpec(env))
  }

  predicate IsResume(env: Env, job: Job) {
    job.jobType == ResumeVideos && job.key == Some(ResumeVideosKey(env.runId))
  }

  ghost predicate CountsAreNatural(manifests: seq<Manifest>) {
    forall i | 0 <= i < |manifests| :: manifests[i].taskCount >= 0
  }

  /** Each task stored once, every clip usable, well-formed manifests and unique jobs. */
  ghost predicate Sound(s: RunState) {
    && OneClipPerTask(s.clips) && HasUris(s.clips) && UniqueKeys(s.jobs)
    && HaveContent(s.manifests) && CountsAreNatural(s.manifests)
  }

  /** A released run has as many clips as its latest manifest asks for. */
  ghost predicate Earned(env: Env, s: RunState) {
    HasResume(env, s.jobs) ==> |s.clips| >= Expected(s.manifests)
  }

  lemma {:induction false} CountsAgree(s: RunState)
    requires HasUris(s.clips)
    ensures UsableClips(s.clips) == |s.clips|
    decreases |s.clips|
  {
    if s.clips != [] {
      CountsAgree(s.(clips := s.clips[..|s.clips| - 1]));
    }
  }

  lemma {:induction false} ManifestsAgree(manifests: seq<Manifest>)
    requires HaveContent(manifests)
    ensures WithContent(manifests) == manifests
  {
    if manifests != [] {
      ManifestsAgree(manifests[..|manifests| - 1]);
    }
  }

  lemma {:induction false} PolledClipsAreNew(pending: seq<string>, indices: map<string, int>, seen: set<string>,
                                             answers: string -> Answer)
    requires forall i | 0 <= i < |pending| :: pending[i] != ""
    ensures var clips := PollFrom(pending, indices, seen, answers).clips;
      && OneClipPerTask(clips) && HasUris(clips)
      && forall i | 0 <= i < |clips| :: Truthy(clips[i].taskId) && clips[i].taskId.value !in seen
                                        && clips[i].taskId.value in pending
  {
    if pending != [] {
      var task, rest := pending[0], pending[1..];
      PolledClipsAreNew(rest, indices, seen, answers);
      PolledClipsAreNew(rest, indices, seen + {task}, answers);
    }
  }

  lemma NewIdsStayUnique(older: seq<Clip>, newer: seq<Clip>)
    requires OneClipPerTask(older) && OneClipPerTask(newer)
    requires forall i | 0 <= i < |newer| :: Truthy(newer[i].taskId) && newer[i].taskId.value !in TaskIds(older)
    ensures OneClipPerTask(older + newer)
  {
  }

  lemma ReleaseIsUnique(env: Env, jobs: seq<Job>, now: Time)
    requires UniqueKeys(jobs)
    ensures UniqueKeys(EnqueueResume(env, jobs, now))
    ensures HasResume(env, EnqueueResume(env, jobs, now)) == (HasResume(env, jobs) || !env.backgroundDisabled)
  {
    var after := EnqueueResume(env, jobs, now);
    if after != jobs {
      assert after[|jobs|].jobType == ResumeVideos && after[|jobs|].key == ResumeSpec(env).key;
    } else if HasResume(env, jobs) {
    }
  }

  lemma PendingAreNamed(s: RunState)
    ensures forall i | 0 <= i < |PendingTasks(s)| :: PendingTasks(s)[i] != ""
  {
    forall i | 0 <= i < |PendingTasks(s)| ensures PendingTasks(s)[i] != "" {
      assert PendingTasks(s)[i] in PendingTasks(s);
    }
  }

  lemma {:induction false} NamedKeepsNamed(tasks: seq<string>)
    requires forall i | 0 <= i < |tasks| :: tasks[i] != ""
    ensures Named(tasks) == tasks
  {
    if tasks != [] {
      NamedKeepsNamed(tasks[1..]);
    }
  }

  /** A release happens only with enough clips, and clips are never lost. */
  ghost predicate StepIsSafe(env: Env, s: RunState, t: RunState) {
    && Sound(t) && |s.clips| <= |t.clips| && (HasResume(env, s.jobs) ==> HasResume(env, t.jobs))
    && (!HasResume(env, s.jobs) && HasResume(env, t.jobs) ==> |t.clips| >= Expected(t.manifests))
  }

  lemma WebhookIsSafe(env: Env, s: RunState, ev: SoraEvent, download: Fetched, transcode: Fetched, at: Time)
    requires Sound(s)
    ensures StepIsSafe(env, s, OnSoraWebhook(env, s, ev, download, transcode, at).state)
    ensures OnSoraWebhook(env, s, ev, download, transcode, at).state.manifests == s.manifests
  {
    ReleaseIsUnique(env, s.jobs, at);
  }

  lemma PollIsSafe(env: Env, s: RunState, answers: string -> Answer, at: Time)
    requires Sound(s)
    ensures StepIsSafe(env, s, OnSoraPoll(env, s, answers, at).state)
    ensures OnSoraPoll(env, s, answers, at).state.manifests == s.manifests
  {
    ReleaseIsUnique(env, s.jobs, at);
    ManifestsAgree(s.manifests);
    CountsAgree(s);
    PendingAreNamed(s);
    var indices := Indices(WithContent(s.manifests));
    PolledClipsAreNew(PendingTasks(s), indices, TaskIds(s.clips), answers);
    NewIdsStayUnique(s.clips, PollFrom(PendingTasks(s), indices, TaskIds(s.clips), answers).clips);
  }

  lemma DeliveryIsSafe(env: Env, s: RunState, d: Delivery)
    requires Sound(s)
    ensures StepIsSafe(env, s, Deliver(env, s, d))
    ensures !d.Submitted? ==> Expected(Deliver(env, s, d).manifests) == Expected(s.manifests)
  {
    hide OnSoraWebhook, OnSoraPoll;
    match d
    case Webhook(ev, download, transcode, at) => WebhookIsSafe(env, s, ev, download, transcode, at);
    case Poll(answers, at) => PollIsSafe(env, s, answers, at);
    case Submitted(_, _) =>
    case Repaired(order) => RepairIsSafe(env, s, order);
  }

  lemma RepairIsSafe(env: Env, s: RunState, order: RepairOrder)
    requires Sound(s)
    ensures StepIsSafe(env, s, OnRepair(s, order))
    ensures Expected(OnRepair(s, order).manifests) == Expected(s.manifests)
  {
    hide RepairPlan, OneTaskPerIndex, MissingIndices, NumberedFromZero, OneClipPerTask, UniqueKeys, HasUris, HasResume, WithContent;
    ManifestsAgree(s.manifests);
  }

  /** Resume safety: over any deliveries, submissions and repairs no task is stored twice and there is one resume job
      at most; if there is one, some step enqueued it, and then the stored clips were at least as many as the
      manifest of that moment asked for. */
  lemma {:induction false} ResumeSafety(env: Env, s: RunState, ds: seq<Delivery>)
    requires Sound(s) && !HasResume(env, s.jobs)
    ensures Sound(DeliverAll(env, s, ds))
    ensures var jobs := DeliverAll(env, s, ds).jobs;
      forall i, k | 0 <= i < |jobs| && 0 <= k < |jobs| && IsResume(env, jobs[i]) && IsResume(env, jobs[k]) :: i == k
    ensures HasResume(env, DeliverAll(env, s, ds).jobs) ==> exists k: nat | k < |ds| :: Releases(env, s, ds, k)
  {
    if ds != [] {
      hide Sound, Deliver, Releases;
      var n := |ds| - 1;
      ResumeSafety(env, s, ds[..n]);
      DeliveryIsSafe(env, DeliverAll(env, s, ds[..n]), ds[n]);
      SoundJobs(env, DeliverAll(env, s, ds));
      if HasResume(env, DeliverAll(env, s, ds[..n]).jobs) {
        var k: nat :| k < n && Releases(env, s, ds[..n], k);
        ReleasesLonger(env, s, ds, n, k);
      } else if HasResume(env, DeliverAll(env, s, ds).jobs) {
        ReleasesNow(env, s, ds);
      }
    } else {
      SoundJobs(env, s);
    }
  }

  /** Delivery k enqueues the resume job, with enough clips for the manifest of that moment. */
  ghost predicate Releases(env: Env, s: RunState, ds: seq<Delivery>, k: nat)
    requires k < |ds|
  {
    var before, after := After(env, s, ds, k), After(env, s, ds, k + 1);
    !HasResume(env, before.jobs) && HasResume(env, after.jobs) && |after.clips| >= Expected(after.manifests)
  }

  lemma ReleasesLonger(env: Env, s: RunState, ds: seq<Delivery>, n: nat, k: nat)
    requires k < n <= |ds| && Releases(env, s, ds[..n], k)
    ensures Releases(env, s, ds, k)
  {
    assert ds[..n][..k] == ds[..k] && ds[..n][..k + 1] == ds[..k + 1];
  }

  lemma ReleasesNow(env: Env, s: RunState, ds: seq<Delivery>)
    requires ds != [] && Sound(DeliverAll(env, s, ds[..|ds| - 1]))
    requires !HasResume(env, DeliverAll(env, s, ds[..|ds| - 1]).jobs) && HasResume(env, DeliverAll(env, s, ds).jobs)
    ensures Releases(env, s, ds, |ds| - 1)
  {
    assert ds[..|ds|] == ds;
    DeliveryIsSafe(env, DeliverAll(env, s, ds[..|ds| - 1]), ds[|ds| - 1]);
  }

  lemma SoundJobs(env: Env, s: RunState)
    requires Sound(s)
    ensures forall i, k | 0 <= i < |s.jobs| && 0 <= k < |s.jobs| && IsResume(env, s.jobs[i]) && IsResume(env, s.jobs[k]) :: i == k
  {
  }

  /** A released run keeps having enough clips, except exactly when a submission asks for more than it has. */
  lemma EarnedExactly(env: Env, s: RunState, d: Delivery)
    requires Sound(s) && Earned(env, s)
    ensures Earned(env, Deliver(env, s, d)) <==>
            !(d.Submitted? && HasResume(env, s.jobs) && |s.clips| < if |d.tasks| == 0 then 1 else |d.tasks|)
  {
    hide OnSoraWebhook, OnSoraPoll;
    DeliveryIsSafe(env, s, d);
  }

  ghost predicate NoSubmission(ds: seq<Delivery>) {
    forall i | 0 <= i < |ds| :: !ds[i].Submitted?
  }

  /** Without a submission in between, a released run has enough clips at every moment. */
  lemma {:induction false} EarnedStays(env: Env, s: RunState, ds: seq<Delivery>)
    requires Sound(s) && Earned(env, s) && NoSubmission(ds)
    ensures Sound(DeliverAll(env, s, ds)) && Earned(env, DeliverAll(env, s, ds))
    ensures Expected(DeliverAll(env, s, ds).manifests) == Expected(s.manifests)
  {
    if ds != [] {
      hide Sound, Earned, Deliver;
      var n := |ds| - 1;
      EarnedStays(env, s, ds[..n]);
      EarnedExactly(env, DeliverAll(env, s, ds[..n]), ds[n]);
      DeliveryIsSafe(env, DeliverAll(env, s, ds[..n]), ds[n]);
    }
  }

  // ---- when a run's status is final ----

  /** A repair is what revives a FAILED run, and nothing releases it before. */
  lemma RevivesExactly(env: Env, s: RunState, d: Delivery)
    requires s.status == RunFailed
    ensures Deliver(env, s, d).status != RunFailed <==> d.Repaired? && RepairApplies(s, d.order)
    ensures Deliver(env, s, d).jobs == s.jobs
  {
  }

  ghost predicate NoneRevives(env: Env, s: RunState, ds: seq<Delivery>) {
    forall k: nat | k < |ds| :: !(ds[k].Repaired? && RepairApplies(After(env, s, ds, k), ds[k].order))
  }

  ghost predicate FailedThroughout(env: Env, s: RunState, ds: seq<Delivery>) {
    forall k: nat | k <= |ds| :: After(env, s, ds, k).status == RunFailed && After(env, s, ds, k).jobs == s.jobs
  }

  /** A FAILED run stays FAILED, and unreleased, exactly until a repair applies to it. */
  lemma FailedStaysFailed(env: Env, s: RunState, ds: seq<Delivery>)
    requires s.status == RunFailed
    ensures FailedThroughout(env, s, ds) <==> NoneRevives(env, s, ds)
  {
    if FailedThroughout(env, s, ds) {
      forall k: nat | k < |ds|
        ensures !(ds[k].Repaired? && RepairApplies(After(env, s, ds, k), ds[k].order))
      {
        AfterStep(env, s, ds, k);
        RevivesExactly(env, After(env, s, ds, k), ds[k]);
        assert After(env, s, ds, k + 1).status == RunFailed;
      }
    } else if NoneRevives(env, s, ds) {
      var k: nat :| k <= |ds| && !(After(env, s, ds, k).status == RunFailed && After(env, s, ds, k).jobs == s.jobs);
      FailedUntil(env, s, ds, k);
    }
  }

  lemma {:induction false} FailedUntil(env: Env, s: RunState, ds: seq<Delivery>, k: nat)
    requires s.status == RunFailed && NoneRevives(env, s, ds) && k <= |ds|
    ensures After(env, s, ds, k).status == RunFailed && After(env, s, ds, k).jobs == s.jobs
  {
    hide Deliver;
    if k > 0 {
      FailedUntil(env, s, ds, k - 1);
      AfterStep(env, s, ds, k - 1);
      RevivesExactly(env, After(env, s, ds, k - 1), ds[k - 1]);
    }
  }

  /** A failure event, or a completion of a task not yet stored that leads to no usable url. */
  predicate FailsRun(s: RunState, d: Delivery) {
    d.Webhook? &&
    (IsFailure(d.ev) ||
     (IsCompletion(d.ev) && !(Truthy(d.ev.taskId) && HasClip(s.clips, d.ev.taskId.value)) &&
      var original := Original(d.ev, d.download);
      original.Success? && (original.value == "" || d.transcode == Success(""))))
  }

  lemma LeavesTerminalStatusExactly(env: Env, s: RunState, d: Delivery)
    requires s.status in {Completed, Rejected}
    ensures Deliver(env, s, d).status != s.status <==> FailsRun(s, d)
    ensures Deliver(env, s, d).status in {s.status, RunFailed}
  {
  }

  ghost predicate NoneFailsRun(env: Env, s: RunState, ds: seq<Delivery>) {
    forall k: nat | k < |ds| :: !FailsRun(After(env, s, ds, k), ds[k])
  }

  /** COMPLETED and REJECTED are final exactly as far as no event fails the run: a failure event does, and so does a
      completion without a usable url. */
  lemma TerminalStatusExactly(env: Env, s: RunState, ds: seq<Delivery>)
    requires s.status in {Completed, Rejected}
    ensures DeliverAll(env, s, ds).status == s.status <==> NoneFailsRun(env, s, ds)
  {
    if NoneFailsRun(env, s, ds) {
      TerminalUntil(env, s, ds, |ds|);
      assert ds[..|ds|] == ds;
    } else {
      var k: nat :| k < |ds| && FailsRun(After(env, s, ds, k), ds[k]);
      LeftForGood(env, s, ds, k);
    }
  }

  lemma {:induction false} TerminalUntil(env: Env, s: RunState, ds: seq<Delivery>, k: nat)
    requires s.status in {Completed, Rejected} && NoneFailsRun(env, s, ds) && k <= |ds|
    ensures After(env, s, ds, k).status == s.status
  {
    hide Deliver;
    if k > 0 {
      TerminalUntil(env, s, ds, k - 1);
      AfterStep(env, s, ds, k - 1);
      LeavesTerminalStatusExactly(env, After(env, s, ds, k - 1), ds[k - 1]);
    }
  }

  /** No delivery leads back to COMPLETED or REJECTED. */
  lemma NeverBack(env: Env, s: RunState, d: Delivery)
    requires s.status !in {Completed, Rejected}
    ensures Deliver(env, s, d).status !in {Completed, Rejected}
  {
  }

  lemma {:induction false} LeftForGood(env: Env, s: RunState, ds: seq<Delivery>, k: nat)
    requires s.status in {Completed, Rejected} && k < |ds| && FailsRun(After(env, s, ds, k), ds[k])
    ensures DeliverAll(env, s, ds).status != s.status
    decreases |ds| - k
  {
    AfterStep(env, s, ds, k);
    StatusesReached(env, s, ds, k);
    if After(env, s, ds, k).status in {Completed, Rejected} {
      LeavesTerminalStatusExactly(env, After(env, s, ds, k), ds[k]);
    } else {
      NeverBack(env, After(env, s, ds, k), ds[k]);
    }
    StaysAway(env, s, ds, k + 1, |ds|);
  }

  lemma {:induction false} StatusesReached(env: Env, s: RunState, ds: seq<Delivery>, k: nat)
    requires s.status in {Completed, Rejected} && k <= |ds|
    ensures After(env, s, ds, k).status == s.status || After(env, s, ds, k).status !in {Completed, Rejected}
  {
    hide Deliver;
    if k > 0 {
      StatusesReached(env, s, ds, k - 1);
      AfterStep(env, s, ds, k - 1);
      if After(env, s, ds, k - 1).status in {Completed, Rejected} {
        LeavesTerminalStatusExactly(env, After(env, s, ds, k - 1), ds[k - 1]);
      } else {
        NeverBack(env, After(env, s, ds, k - 1), ds[k - 1]);
      }
    }
  }

  lemma {:induction false} StaysAway(env: Env, s: RunState, ds: seq<Delivery>, k: nat, n: nat)
    requires k <= n <= |ds| && After(env, s, ds, k).status !in {Completed, Rejected}
    ensures After(env, s, ds, n).status !in {Completed, Rejected}
  {
    hide Deliver;
    if k < n {
      StaysAway(env, s, ds, k, n - 1);
      AfterStep(env, s, ds, n - 1);
      NeverBack(env, After(env, s, ds, n - 1), ds[n - 1]);
    }
  }

  /** The handlers enqueue nothing but the resume job, whose rank is below their own. */
  lemma OnlyResumeIsEnqueued(env: Env, s: RunState, d: Delivery)
    ensures var jobs := Deliver(env, s, d).jobs;
      jobs == s.jobs || ((d.Webhook? || d.Poll?) && jobs == s.jobs + [NewJob(ResumeSpec(env), d.at)])
    ensures Rank(ResumeSpec(env).jobType) < Rank(SoraPoll) == Rank(WebhookSora)
  {
  }
}
