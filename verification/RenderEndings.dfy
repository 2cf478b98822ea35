/** What each render event and each render poll may do, told from their fields, and where every stored render came from. */
module RenderEndings {
  import opened Wrappers
  import opened JobTypes
  import opened JobQueue
  import opened FanIn
  import opened RenderFanIn

  const FINISHED := {"done", "completed", "ready"}

  predicate Known(s: RenderState, job: string) {
    exists i | 0 <= i < |s.rendered| :: s.rendered[i].renderJobId == Some(job)
  }

  /** The render job asked about: that of the latest editor output that has one. */
  ghost predicate Asks(s: RenderState, job: string) {
    exists i :: IsLatestAt(s.editorJobIds, i) && s.editorJobIds[i] == job
  }

  predicate HasJob(s: RenderState) {
    exists i | 0 <= i < |s.editorJobIds| :: s.editorJobIds[i] != ""
  }

  /** The service could not be asked. */
  predicate Unavailable(a: RenderAnswer) {
    a.error != "" && a.transport
  }

  predicate Finishes(a: RenderAnswer) {
    !Unavailable(a) && a.status in FINISHED && a.outputUrl != ""
  }

  /** The delivery brings this very render. */
  ghost predicate Brings(env: RenderEnv, s: RenderState, d: RenderDelivery, r: Rendered) {
    match d
    case RenderWebhook(ev, _) =>
      && ev.status in FINISHED && ev.error == "" && ev.outputUrl != ""
      && (ev.jobId.Some? && ev.jobId.value != "" ==> !Known(s, ev.jobId.value))
      && r == Rendered(ev.jobId, env.publicUrl(ev.outputUrl), "remotion")
    case RenderPoll(answer, _) =>
      && env.realProvider && env.serviceKnown && s.status == AwaitingRender && Finishes(answer)
      && r.renderJobId.Some? && Asks(s, r.renderJobId.value) && !Known(s, r.renderJobId.value)
      && r == Rendered(r.renderJobId, env.publicUrl(answer.outputUrl), "remotion_poll")
  }

  lemma AskedJob(s: RenderState, job: string)
    ensures LatestJob(s.editorJobIds) == Some(job) <==> Asks(s, job)
    ensures LatestJob(s.editorJobIds).Some? <==> HasJob(s)
  {
    var latest := LatestJob(s.editorJobIds);
    forall i, k | IsLatestAt(s.editorJobIds, i) && IsLatestAt(s.editorJobIds, k) ensures i == k {
    }
  }

  /** A delivery stores a render exactly when it brings one, and never more than one. */
  lemma DeliveryStoresExactly(env: RenderEnv, s: RenderState, d: RenderDelivery, r: Rendered)
    ensures Deliver(env, s, d).rendered == s.rendered + [r] <==> Brings(env, s, d, r)
    ensures Deliver(env, s, d).rendered == s.rendered || exists q :: Brings(env, s, d, q)
  {
    var t := Deliver(env, s, d);
    if d.RenderPoll? && r.renderJobId.Some? {
      AskedJob(s, r.renderJobId.value);
    }
    if t.rendered != s.rendered {
      var q := t.rendered[|s.rendered|];
      assert t.rendered == s.rendered + [q];
      if d.RenderPoll? {
        AskedJob(s, q.renderJobId.value);
      }
      assert Brings(env, s, d, q);
    }
  }

  /** Every stored render was there at the start or was brought by a delivery: none by one that reports an error. */
  lemma {:induction false} EveryRenderHasSource(env: RenderEnv, s: RenderState, ds: seq<RenderDelivery>, j: nat)
    requires |s.rendered| <= j < |DeliverAll(env, s, ds).rendered|
    ensures exists k: nat :: k < |ds| && Brings(env, After(env, s, ds, k), ds[k], DeliverAll(env, s, ds).rendered[j])
  {
    hide Deliver, Brings;
    var n := |ds| - 1;
    var before, t := DeliverAll(env, s, ds[..n]), DeliverAll(env, s, ds);
    assert After(env, s, ds, n) == before;
    GrowsByOne(env, before, ds[n]);
    if j < |before.rendered| {
      EveryRenderHasSource(env, s, ds[..n], j);
      var k: nat :| k < n && Brings(env, After(env, s, ds[..n], k), ds[..n][k], before.rendered[j]);
      assert ds[..n][..k] == ds[..k];
      assert t.rendered[j] == before.rendered[j];
    } else {
      DeliveryStoresExactly(env, before, ds[n], t.rendered[j]);
    }
  }

  lemma GrowsByOne(env: RenderEnv, s: RenderState, d: RenderDelivery)
    ensures var t := Deliver(env, s, d);
      t.rendered == s.rendered || (|t.rendered| == |s.rendered| + 1 && t.rendered == s.rendered + [t.rendered[|s.rendered|]])
  {
  }

  /** The resume job as the worker finds it, for the render with this url. */
  predicate IsResumeJob(env: RenderEnv, job: Job, url: string, at: Time) {
    && job.jobType == ResumeRender && job.key == Some("resume_render:" + env.runId)
    && job.runId == Some(env.runId) && job.payload == url
    && job.status.Pending? && job.attempts == 0 && job.maxAttempts == env.jobMaxAttempts
    && job.availableAt == at == job.createdAt
  }

  /** A run that has no resume job gets one exactly by a delivery that brings a render, and it names that render. */
  lemma RenderReleasesExactly(env: RenderEnv, s: RenderState, d: RenderDelivery)
    requires !env.backgroundDisabled && !HasRenderResume(env, s.jobs)
    ensures var t := Deliver(env, s, d);
      && (t.jobs != s.jobs <==> exists r :: Brings(env, s, d, r))
      && forall r | Brings(env, s, d, r) ::
           |t.jobs| == |s.jobs| + 1 && t.jobs[..|s.jobs|] == s.jobs && IsResumeJob(env, t.jobs[|s.jobs|], r.uri, d.at)
  {
    var t := Deliver(env, s, d);
    forall r ensures t.rendered == s.rendered + [r] <==> Brings(env, s, d, r) {
      DeliveryStoresExactly(env, s, d, r);
    }
    GrowsByOne(env, s, d);
    hide Brings;
    if t.rendered != s.rendered {
      var r := t.rendered[|s.rendered|];
      assert Brings(env, s, d, r);
      forall q | Brings(env, s, d, q) ensures q == r {
        assert (s.rendered + [q])[|s.rendered|] == q;
      }
    }
  }

  /** An event that reports an error, by its status or by a message, makes the run FAILED and changes nothing else. */
  lemma AnyErrorFails(env: RenderEnv, s: RenderState, ev: RenderEvent, now: Time)
    requires ev.status == "error" || ev.error != ""
    ensures OnRemotionWebhook(env, s, ev, now) == RenderStep(s.(status := RunFailed), Returned)
  {
  }

  /** The job of an event raises, to be retried, exactly when a finished render has no url. */
  lemma EventRaisesExactly(env: RenderEnv, s: RenderState, ev: RenderEvent, now: Time)
    ensures var step := OnRemotionWebhook(env, s, ev, now);
      && (step.ending.Raised? <==> ev.status in FINISHED && ev.error == "" && ev.outputUrl == "")
      && (step.ending.Raised? ==> step.state == s) && !step.ending.Rescheduled?
  {
  }

  /** How a poll ends: it raises when there is nobody or nothing to ask; it fails the run when the service reports a
      failure; it returns when the render is finished; and otherwise it asks to be run again, at least fifteen seconds
      later when the service could not be asked, and at least ten seconds later when it is still at work. */
  lemma PollEndsExactly(env: RenderEnv, s: RenderState, a: RenderAnswer, now: Time)
    requires env.realProvider && s.status == AwaitingRender
    ensures var step := OnRemotionPoll(env, s, a, now);
            var asks := env.serviceKnown && HasJob(s);
            var fails := a.status in {"failed", "error"} || a.error != "";
      && (step.ending.Raised? <==> !asks)
      && (step.ending.Rescheduled? <==> asks && !Finishes(a) && (Unavailable(a) || !fails))
      && (step.state.status == RunFailed <==> asks && !Finishes(a) && !Unavailable(a) && fails)
      && (step.ending.Returned? ==>
            step.state.status == RunFailed || (Finishes(a) && exists job :: Asks(s, job) && Known(step.state, job)))
      && (!step.ending.Returned? ==> step.state == s)
      && (step.ending.Rescheduled? ==>
            && step.ending.delay >= env.pollInterval + 10.0
            && step.ending.delay >= (if Unavailable(a) then 15.0 else 10.0)
            && step.ending.delay in {env.pollInterval + 10.0, if Unavailable(a) then 15.0 else 10.0})
  {
    if LatestJob(s.editorJobIds).Some? {
      var job := LatestJob(s.editorJobIds).value;
      AskedJob(s, job);
      var t := OnRemotionPoll(env, s, a, now).state;
      if t.rendered != s.rendered {
        assert t.rendered[|s.rendered|].renderJobId == Some(job);
      }
    } else {
      AskedJob(s, "");
    }
  }
}
