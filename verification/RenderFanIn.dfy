/** The webhook.remotion and remotion.poll branches of handle_job, for one run: the finished render is stored
    once and its url is handed to one resume job. Handlers of one run are executed one after another. */
module RenderFanIn {
  import opened Wrappers
  import opened JobTypes
  import opened JobQueue
  import opened FanIn

  datatype Rendered = Rendered(renderJobId: Option<string>, uri: string, source: string)

  /** editorJobIds lists the render job ids of the editor outputs, oldest first, "" where one has none. */
  datatype RenderState = RenderState(
    status: RunStatus, rendered: seq<Rendered>, editorJobIds: seq<string>, jobs: seq<Job>)

  /** publicUrl rewrites an internal render url to the public one. */
  datatype RenderEnv = RenderEnv(
    runId: Uuid, backgroundDisabled: bool, realProvider: bool, serviceKnown: bool, jobMaxAttempts: int,
    pollInterval: Time, publicUrl: string -> string)

  datatype RenderEvent = RenderEvent(status: string, error: string, jobId: Option<string>, outputUrl: string)

  /** What the render service answered; transport failures are its "unavailable" and "not found" errors. */
  datatype RenderAnswer = RenderAnswer(status: string, outputUrl: string, error: string, transport: bool)

  datatype RenderStep = RenderStep(state: RenderState, ending: Ending)

  predicate IsDone(status: string) {
    status in {"done", "completed", "ready"}
  }

  predicate HasRender(rendered: seq<Rendered>, job: string) {
    exists i | 0 <= i < |rendered| :: rendered[i].renderJobId == Some(job)
  }

  /** The render job id of the latest editor output that has one. */
  function LatestJob(ids: seq<string>): (job: Option<string>)
    ensures job.Some? ==> job.value != "" && exists i :: IsLatestAt(ids, i) && ids[i] == job.value
    ensures job.None? ==> forall i | 0 <= i < |ids| :: ids[i] == ""
  {
    if ids == [] then None
    else if ids[|ids| - 1] != "" then
      assert IsLatestAt(ids, |ids| - 1);
      Some(ids[|ids| - 1])
    else
      var job := LatestJob(ids[..|ids| - 1]);
      assert forall i :: IsLatestAt(ids[..|ids| - 1], i) ==> IsLatestAt(ids, i);
      job
  }

  /** Position i holds an id, and no later one does. */
  predicate IsLatestAt(ids: seq<string>, i: int) {
    0 <= i < |ids| && ids[i] != "" && forall k | i < k < |ids| :: ids[k] == ""
  }

  function ResumeRenderKey(runId: Uuid): string {
    "resume_render:" + runId
  }

  function ResumeRenderSpec(env: RenderEnv, url: string): JobSpec {
    JobSpec(ResumeRender, Some(ResumeRenderKey(env.runId)), Some(env.runId), url, env.jobMaxAttempts, None)
  }

  function EnqueueRenderResume(env: RenderEnv, jobs: seq<Job>, url: string, now: Time): seq<Job> {
    if env.backgroundDisabled || AlreadyEnqueued(jobs, ResumeRenderSpec(env, url)) then jobs
    else jobs + [NewJob(ResumeRenderSpec(env, url), now)]
  }

  function StoreRender(env: RenderEnv, s: RenderState, r: Rendered, now: Time): RenderState {
    s.(rendered := s.rendered + [r], jobs := EnqueueRenderResume(env, s.jobs, r.uri, now))
  }

  function OnRemotionWebhook(env: RenderEnv, s: RenderState, ev: RenderEvent, now: Time): RenderStep {
    if ev.status == "error" || ev.error != "" then RenderStep(s.(status := RunFailed), Returned)
    else if !IsDone(ev.status) then RenderStep(s, Returned)
    else if ev.outputUrl == "" then RenderStep(s, Raised)
    else if Truthy(ev.jobId) && HasRender(s.rendered, ev.jobId.value) then RenderStep(s, Returned)
    else RenderStep(StoreRender(env, s, Rendered(ev.jobId, env.publicUrl(ev.outputUrl), "remotion"), now), Returned)
  }

  function AtLeast(least: Time, wanted: Time): Time {
    if wanted < least then least else wanted
  }

  function OnRemotionPoll(env: RenderEnv, s: RenderState, answer: RenderAnswer, now: Time): RenderStep {
    if !env.realProvider || s.status != AwaitingRender then RenderStep(s, Returned)
    else if !env.serviceKnown || LatestJob(s.editorJobIds).None? then RenderStep(s, Raised)
    else
      var job := LatestJob(s.editorJobIds).value;
      if answer.error != "" && answer.transport then RenderStep(s, Rescheduled(AtLeast(15.0, env.pollInterval + 10.0)))
      else if IsDone(answer.status) && answer.outputUrl != "" then
        if HasRender(s.rendered, job) then RenderStep(s, Returned)
        else RenderStep(StoreRender(env, s, Rendered(Some(job), env.publicUrl(answer.outputUrl), "remotion_poll"), now),
                        Returned)
      else if answer.status in {"failed", "error"} || answer.error != ""
      then RenderStep(s.(status := RunFailed), Returned)
      else RenderStep(s, Rescheduled(AtLeast(10.0, env.pollInterval + 10.0)))
  }

  class RenderRecord {
    var status: RunStatus
    var rendered: seq<Rendered>
    var editorJobIds: seq<string>
    var jobs: seq<Job>

    constructor (s: RenderState)
      ensures State() == s
    {
      status, rendered, editorJobIds, jobs := s.status, s.rendered, s.editorJobIds, s.jobs;
    }

    function State(): RenderState
      reads this
    {
      RenderState(status, rendered, editorJobIds, jobs)
    }

    method AlreadyStored(job: string) returns (found: bool)
      ensures found == HasRender(rendered, job)
    {
      var i := 0;
      while i < |rendered|
        invariant 0 <= i <= |rendered| && forall k | 0 <= k < i :: rendered[k].renderJobId != Some(job)
      {
        if rendered[i].renderJobId == Some(job) {
          return true;
        }
        i := i + 1;
      }
      return false;
    }

    /** Reads the editor outputs from the latest to the first. */
    method ExtractRenderJobId() returns (job: Option<string>)
      ensures job == LatestJob(editorJobIds)
      ensures job.Some? <==> exists i :: IsLatestAt(editorJobIds, i)
      ensures forall i | IsLatestAt(editorJobIds, i) :: job == Some(editorJobIds[i])
    {
      var n := |editorJobIds|;
      assert editorJobIds[..n] == editorJobIds;
      while n > 0
        invariant 0 <= n <= |editorJobIds| && LatestJob(editorJobIds) == LatestJob(editorJobIds[..n])
      {
        assert editorJobIds[..n][..n - 1] == editorJobIds[..n - 1];
        n := n - 1;
        if editorJobIds[n] != "" {
          return Some(editorJobIds[n]);
        }
      }
      return None;
    }

    method HandleRemotionWebhook(env: RenderEnv, ev: RenderEvent, now: Time) returns (ending: Ending)
      modifies this
      ensures RenderStep(State(), ending) == OnRemotionWebhook(env, old(State()), ev, now)
    {
      if ev.status == "error" || ev.error != "" {
        status := RunFailed;
        return Returned;
      }
      if ev.status !in {"done", "completed", "ready"} {
        return Returned;
      }
      if ev.outputUrl == "" {
        return Raised;
      }
      var url := env.publicUrl(ev.outputUrl);
      if Truthy(ev.jobId) {
        var stored := AlreadyStored(ev.jobId.value);
        if stored {
          return Returned;
        }
      }
      rendered := rendered + [Rendered(ev.jobId, url, "remotion")];
      jobs := EnqueueRenderResume(env, jobs, url, now);
      return Returned;
    }

    method HandleRemotionPoll(env: RenderEnv, answer: RenderAnswer, now: Time) returns (ending: Ending)
      modifies this
      ensures RenderStep(State(), ending) == OnRemotionPoll(env, old(State()), answer, now)
    {
      if !env.realProvider || status != AwaitingRender {
        return Returned;
      }
      if !env.serviceKnown {
        return Raised;
      }
      var latest := ExtractRenderJobId();
      if latest.None? {
        return Raised;
      }
      var job := latest.value;
      if answer.error != "" && answer.transport {
        return Rescheduled(AtLeast(15.0, env.pollInterval + 10.0));
      }
      if answer.status in {"done", "completed", "ready"} && answer.outputUrl != "" {
        var stored := AlreadyStored(job);
        if !stored {
          var url := env.publicUrl(answer.outputUrl);
          rendered := rendered + [Rendered(Some(job), url, "remotion_poll")];
          jobs := EnqueueRenderResume(env, jobs, url, now);
        }
        return Returned;
      }
      if answer.status in {"failed", "error"} || answer.error != "" {
        status := RunFailed;
        return Returned;
      }
      return Rescheduled(AtLeast(10.0, env.pollInterval + 10.0));
    }
  }

  // ---- any serial sequence of deliveries ----

  datatype RenderDelivery =
    | RenderWebhook(ev: RenderEvent, at: Time)
    | RenderPoll(answer: RenderAnswer, at: Time)

  function Deliver(env: RenderEnv, s: RenderState, d: RenderDelivery): RenderState {
    match d
    case RenderWebhook(ev, at) => OnRemotionWebhook(env, s, ev, at).state
    case RenderPoll(answer, at) => OnRemotionPoll(env, s, answer, at).state
  }

  function DeliverAll(env: RenderEnv, s: RenderState, ds: seq<RenderDelivery>): RenderState {
    if ds == [] then s else Deliver(env, DeliverAll(env, s, ds[..|ds| - 1]), ds[|ds| - 1])
  }

  predicate IsRenderResume(env: RenderEnv, job: Job) {
    job.jobType == ResumeRender && job.key == Some(ResumeRenderKey(env.runId))
  }

  predicate IsStoredUrl(rendered: seq<Rendered>, url: string) {
    exists i | 0 <= i < |rendered| :: rendered[i].uri == url
  }

  /** Each render job is stored once, and the url a resume job carries is that of a stored render. */
  ghost predicate RenderSound(env: RenderEnv, s: RenderState) {
    && UniqueKeys(s.jobs)
    && (forall i, k | 0 <= i < k < |s.rendered| && Truthy(s.rendered[i].renderJobId) ::
          s.rendered[i].renderJobId != s.rendered[k].renderJobId)
    && (forall i | 0 <= i < |s.rendered| :: s.rendered[i].uri != "")
    && (forall i | 0 <= i < |s.jobs| && IsRenderResume(env, s.jobs[i]) :: IsStoredUrl(s.rendered, s.jobs[i].payload))
  }

  lemma StoreKeepsSound(env: RenderEnv, s: RenderState, r: Rendered, now: Time)
    requires RenderSound(env, s) && r.uri != ""
    requires Truthy(r.renderJobId) ==> !HasRender(s.rendered, r.renderJobId.value)
    ensures RenderSound(env, StoreRender(env, s, r, now))
  {
    var t := StoreRender(env, s, r, now);
    assert t.rendered[|s.rendered|] == r;
    forall i | 0 <= i < |t.jobs| && IsRenderResume(env, t.jobs[i]) ensures IsStoredUrl(t.rendered, t.jobs[i].payload) {
      if i < |s.jobs| {
        assert t.jobs[i] == s.jobs[i] && IsStoredUrl(s.rendered, s.jobs[i].payload);
        var k :| 0 <= k < |s.rendered| && s.rendered[k].uri == s.jobs[i].payload;
        assert t.rendered[k] == s.rendered[k];
      }
    }
  }

  /** The resume job for a render exists at most once, its payload is never empty, and it is the url of a render
      that is stored: resume_after_render cannot be called with a missing or unknown video. */
  lemma {:induction false} RenderResumeSafety(env: RenderEnv, s: RenderState, ds: seq<RenderDelivery>)
    requires RenderSound(env, s) && forall u :: u != "" ==> env.publicUrl(u) != ""
    ensures RenderSound(env, DeliverAll(env, s, ds)) && DeliverAll(env, s, ds).editorJobIds == s.editorJobIds
    ensures var t := DeliverAll(env, s, ds);
      forall i, k | 0 <= i < |t.jobs| && 0 <= k < |t.jobs| && IsRenderResume(env, t.jobs[i]) && IsRenderResume(env, t.jobs[k]) ::
        i == k && t.jobs[i].payload != ""
  {
    if ds != [] {
      var before, d := DeliverAll(env, s, ds[..|ds| - 1]), ds[|ds| - 1];
      RenderResumeSafety(env, s, ds[..|ds| - 1]);
      match d
      case RenderWebhook(ev, at) =>
        if ev.outputUrl != "" && (Truthy(ev.jobId) ==> !HasRender(before.rendered, ev.jobId.value)) {
          StoreKeepsSound(env, before, Rendered(ev.jobId, env.publicUrl(ev.outputUrl), "remotion"), at);
        }
      case RenderPoll(answer, at) =>
        if LatestJob(before.editorJobIds).Some? && answer.outputUrl != "" {
          var job := LatestJob(before.editorJobIds).value;
          if !HasRender(before.rendered, job) {
            hide RenderSound;
            StoreKeepsSound(env, before, Rendered(Some(job), env.publicUrl(answer.outputUrl), "remotion_poll"), at);
          }
        }
    }
  }

  /** The first stored render wins: once the resume job exists, later renders are stored but never released. */
  lemma {:induction false} FirstRenderWins(env: RenderEnv, s: RenderState, ds: seq<RenderDelivery>, i: nat)
    requires i < |s.jobs| && IsRenderResume(env, s.jobs[i])
    ensures DeliverAll(env, s, ds).jobs == s.jobs
  {
    if ds != [] {
      FirstRenderWins(env, s, ds[..|ds| - 1], i);
    }
  }

  function After(env: RenderEnv, s: RenderState, ds: seq<RenderDelivery>, k: nat): RenderState
    requires k <= |ds|
  {
    DeliverAll(env, s, ds[..k])
  }

  predicate HasRenderResume(env: RenderEnv, jobs: seq<Job>) {
    exists i | 0 <= i < |jobs| :: IsRenderResume(env, jobs[i])
  }

  /** A webhook that reports a finished render which is not stored yet. */
  predicate FreshCompletion(s: RenderState, d: RenderDelivery) {
    && d.RenderWebhook? && d.ev.status != "error" && d.ev.error == "" && IsDone(d.ev.status) && d.ev.outputUrl != ""
    && !(Truthy(d.ev.jobId) && HasRender(s.rendered, d.ev.jobId.value))
  }

  lemma FailedStep(env: RenderEnv, s: RenderState, d: RenderDelivery)
    requires s.status == RunFailed
    ensures Deliver(env, s, d).status == RunFailed
    ensures HasRenderResume(env, Deliver(env, s, d).jobs) <==>
            HasRenderResume(env, s.jobs) || (FreshCompletion(s, d) && !env.backgroundDisabled)
  {
    var t := Deliver(env, s, d);
    if t.jobs != s.jobs {
      assert IsRenderResume(env, t.jobs[|s.jobs|]);
      forall i | 0 <= i < |s.jobs| ensures t.jobs[i] == s.jobs[i] {
      }
    }
  }

  ghost predicate SomeFreshCompletion(env: RenderEnv, s: RenderState, ds: seq<RenderDelivery>) {
    exists k: nat :: k < |ds| && FreshCompletion(After(env, s, ds, k), ds[k])
  }

  /** Unlike the clips' handlers, the render webhook does not look at the run's status: a FAILED run stays FAILED, and
      is released for publishing exactly when some webhook reports a render not stored before. */
  lemma {:induction false} FailedRunIsReleasedExactly(env: RenderEnv, s: RenderState, ds: seq<RenderDelivery>)
    requires s.status == RunFailed && !HasRenderResume(env, s.jobs) && !env.backgroundDisabled
    ensures DeliverAll(env, s, ds).status == RunFailed
    ensures HasRenderResume(env, DeliverAll(env, s, ds).jobs) <==> SomeFreshCompletion(env, s, ds)
  {
    if ds != [] {
      hide Deliver, FreshCompletion, HasRenderResume;
      var n: nat := |ds| - 1;
      FailedRunIsReleasedExactly(env, s, ds[..n]);
      FailedStep(env, DeliverAll(env, s, ds[..n]), ds[n]);
      assert forall k: nat | k <= n :: ds[..n][..k] == ds[..k];
      if SomeFreshCompletion(env, s, ds[..n]) {
        var k: nat :| k < n && FreshCompletion(After(env, s, ds[..n], k), ds[..n][k]);
        assert FreshCompletion(After(env, s, ds, k), ds[k]);
      }
      if SomeFreshCompletion(env, s, ds) {
        var k: nat :| k < |ds| && FreshCompletion(After(env, s, ds, k), ds[k]);
        if k < n {
          assert FreshCompletion(After(env, s, ds[..n], k), ds[..n][k]);
        }
      }
      assert After(env, s, ds, n) == DeliverAll(env, s, ds[..n]);
    }
  }

  /** It does happen. */
  lemma FailedRunIsReleased(env: RenderEnv, s: RenderState)
    requires s.status == RunFailed && s.rendered == [] && s.jobs == [] && !env.backgroundDisabled
    ensures var t := DeliverAll(env, s, [RenderWebhook(RenderEvent("done", "", Some("r"), "u"), 0.0)]);
      t.status == RunFailed && HasRenderResume(env, t.jobs)
  {
    var ds := [RenderWebhook(RenderEvent("done", "", Some("r"), "u"), 0.0)];
    assert ds[..0] == [];
    FailedRunIsReleasedExactly(env, s, ds);
    assert After(env, s, ds, 0) == s;
    assert FreshCompletion(After(env, s, ds, 0), ds[0]);
  }

  /** A webhook that reports an error. */
  predicate ReportsError(d: RenderDelivery) {
    d.RenderWebhook? && (d.ev.status == "error" || d.ev.error != "")
  }

  lemma LeavesTerminalStatusExactly(env: RenderEnv, s: RenderState, d: RenderDelivery)
    requires s.status in {Completed, Rejected}
    ensures Deliver(env, s, d).status == if ReportsError(d) then RunFailed else s.status
  {
  }

  /** COMPLETED and REJECTED survive any deliveries of a render iff none reports an error. */
  lemma {:induction false} TerminalStatusExactly(env: RenderEnv, s: RenderState, ds: seq<RenderDelivery>)
    requires s.status in {Completed, Rejected}
    ensures DeliverAll(env, s, ds).status == s.status <==> forall k | 0 <= k < |ds| :: !ReportsError(ds[k])
    ensures DeliverAll(env, s, ds).status in {s.status, RunFailed}
  {
    if ds != [] {
      hide Deliver, ReportsError;
      var n := |ds| - 1;
      var before := DeliverAll(env, s, ds[..n]);
      TerminalStatusExactly(env, s, ds[..n]);
      if before.status == RunFailed {
        FailedStep(env, before, ds[n]);
      } else {
        LeavesTerminalStatusExactly(env, before, ds[n]);
      }
    }
  }

  /** A successful delivery of the one render job of a run. */
  predicate Delivers(d: RenderDelivery, job: string, url: string) {
    match d
    case RenderWebhook(ev, _) =>
      ev.status != "error" && ev.error == "" && IsDone(ev.status) && ev.outputUrl == url && ev.jobId == Some(job)
    case RenderPoll(answer, _) =>
      IsDone(answer.status) && answer.outputUrl == url && !(answer.error != "" && answer.transport)
  }

  /** Confluence of the render: any non-empty sequence of successful deliveries of one render job, by either
      handler, in any order and with any duplicates, stores it once and enqueues one resume job with its url. */
  lemma {:induction false} RenderConfluence(env: RenderEnv, s: RenderState, ds: seq<RenderDelivery>, job: string, url: string)
    requires s.status == AwaitingRender && s.rendered == []
    requires LatestJob(s.editorJobIds) == Some(job) && url != ""
    requires env.realProvider && env.serviceKnown && !env.backgroundDisabled
    requires !AlreadyEnqueued(s.jobs, ResumeRenderSpec(env, env.publicUrl(url)))
    requires ds != [] && forall i | 0 <= i < |ds| :: Delivers(ds[i], job, url)
    ensures var t := DeliverAll(env, s, ds);
      && t.status == AwaitingRender && t.editorJobIds == s.editorJobIds
      && |t.rendered| == 1 && t.rendered[0].renderJobId == Some(job) && t.rendered[0].uri == env.publicUrl(url)
      && t.jobs == s.jobs + [NewJob(ResumeRenderSpec(env, env.publicUrl(url)), ds[0].at)]
  {
    var n := |ds| - 1;
    if n > 0 {
      RenderConfluence(env, s, ds[..n], job, url);
      assert HasRender(DeliverAll(env, s, ds[..n]).rendered, job);
    } else {
      assert DeliverAll(env, s, ds[..0]) == s;
      assert !HasRender(s.rendered, job);
    }
  }

  /** Both handlers enqueue only the resume job, whose rank is below their own. */
  lemma OnlyRenderResumeIsEnqueued(env: RenderEnv, s: RenderState, d: RenderDelivery)
    ensures var jobs := Deliver(env, s, d).jobs;
      jobs == s.jobs || (|jobs| == |s.jobs| + 1 && jobs[..|s.jobs|] == s.jobs && jobs[|s.jobs|].jobType == ResumeRender)
    ensures Rank(ResumeRender) < Rank(RemotionPoll) == Rank(WebhookRemotion)
  {
  }
}
