/** What each webhook event may do, told from its fields, and where every clip and every resume job of a run came from. */
module FanInSources {
  import opened Wrappers
  import opened JobTypes
  import opened JobQueue
  import opened FanIn
  import opened FanInTheorems
  import opened FanInConfluence
  import opened PollEndings

  /** No sign of failure: no code but 200, not the state "fail", not the type "video.failed". */
  predicate Clean(ev: SoraEvent) {
    ev.code in {None, Some(200)} && ev.state != "fail" && ev.eventType != Some("video.failed")
  }

  /** Each sign of failure alone makes the run FAILED, whatever else the event says, and changes nothing else. */
  lemma AnyFailureSignFails(env: Env, s: RunState, ev: SoraEvent, download: Fetched, transcode: Fetched, now: Time)
    requires (exists n :: n != 200 && ev.code == Some(n)) || ev.state == "fail" || ev.eventType == Some("video.failed")
    ensures OnSoraWebhook(env, s, ev, download, transcode, now) == Step(s.(status := RunFailed), Returned)
  {
  }

  /** A clean event that names a video, or says that one is complete, of a task that has no clip yet. */
  predicate IsNews(s: RunState, ev: SoraEvent) {
    && Clean(ev) && (ev.videoUrls != [] || ev.eventType == Some("video.completed"))
    && forall i | 0 <= i < |s.clips| && ev.taskId.Some? && ev.taskId.value != "" :: s.clips[i].taskId != ev.taskId
  }

  predicate NamesUrl(ev: SoraEvent) {
    ev.videoUrls != [] && ev.videoUrls[0] != ""
  }

  /** A named url is used as it is; only a completed video without one is downloaded. */
  predicate HasVideo(ev: SoraEvent, download: Fetched) {
    NamesUrl(ev) || (ev.eventType == Some("video.completed") && download.Success? && download.value != "")
  }

  predicate NeedsDownload(ev: SoraEvent) {
    !NamesUrl(ev) && ev.eventType == Some("video.completed")
  }

  /** A clip that a poll stores: of a pending task without one, with the url and index of that task. */
  predicate PolledFrom(pending: seq<string>, indices: map<string, int>, seen: set<string>, answers: string -> Answer, c: Clip) {
    && c.taskId.Some? && c.source == "sora_poll" && c.taskId.value in pending && c.taskId.value !in seen
    && answers(c.taskId.value) == Delivered(Success(c.uri)) && c.uri != ""
    && c.videoIndex == if c.taskId.value in indices then indices[c.taskId.value] else 0
  }

  /** The delivery brings this very clip. */
  ghost predicate Brings(env: Env, s: RunState, d: Delivery, c: Clip) {
    match d
    case Webhook(ev, download, transcode, _) =>
      && IsNews(s, ev) && HasVideo(ev, download) && transcode == Success(c.uri) && c.uri != ""
      && c.taskId == ev.taskId && c.videoIndex == ev.videoIndex && c.source == "sora"
    case Poll(answers, _) =>
      && env.realProvider && s.status == AwaitingVideoGeneration
      && PolledFrom(PendingTasks(s), Indices(WithContent(s.manifests)), TaskIds(s.clips), answers, c)
    case Submitted(_, _) => false
    case Repaired(_) => false
  }

  /** An event stores a clip exactly when it brings one. */
  lemma EventStoresExactly(env: Env, s: RunState, d: Delivery, c: Clip)
    requires d.Webhook?
    ensures Deliver(env, s, d).clips == s.clips + [c] <==> Brings(env, s, d, c)
    ensures Deliver(env, s, d).clips == s.clips || exists b :: Brings(env, s, d, b)
  {
    var t := Deliver(env, s, d);
    if t.clips != s.clips {
      assert t.clips == s.clips + [t.clips[|s.clips|]];
      assert Brings(env, s, d, t.clips[|s.clips|]);
    }
  }

  /** The job of an event raises, to be retried, exactly when fetching or transcoding a new video raises. */
  lemma EventRaisesExactly(env: Env, s: RunState, ev: SoraEvent, download: Fetched, transcode: Fetched, now: Time)
    ensures var step := OnSoraWebhook(env, s, ev, download, transcode, now);
      && (step.ending.Raised? <==>
            IsNews(s, ev) && if NeedsDownload(ev) && download.Failure? then true else HasVideo(ev, download) && transcode.Failure?)
      && (step.ending.Raised? ==> step.state == s) && !step.ending.Rescheduled?
  {
  }

  /** A run becomes FAILED exactly by a sign of failure, or by a new video without a usable url or transcoding. */
  lemma EventFailsExactly(env: Env, s: RunState, ev: SoraEvent, download: Fetched, transcode: Fetched, now: Time)
    requires s.status != RunFailed
    ensures OnSoraWebhook(env, s, ev, download, transcode, now).state.status == RunFailed <==>
            || !Clean(ev)
            || (IsNews(s, ev) && !(NeedsDownload(ev) && download.Failure?)
                && (!HasVideo(ev, download) || transcode == Success("")))
  {
  }

  // ---- over any deliveries ----

  lemma {:induction false} PolledClipsHaveSource(pending: seq<string>, indices: map<string, int>, seen: set<string>,
                                                 answers: string -> Answer)
    ensures forall c | c in PollFrom(pending, indices, seen, answers).clips :: PolledFrom(pending, indices, seen, answers, c)
  {
    if pending != [] {
      PolledClipsHaveSource(pending[1..], indices, seen, answers);
      PolledClipsHaveSource(pending[1..], indices, seen + {pending[0]}, answers);
    }
  }

  lemma EventClipHasSource(env: Env, s: RunState, d: Delivery)
    requires d.Webhook?
    ensures var clips := Deliver(env, s, d).clips;
      clips == s.clips || (|clips| == |s.clips| + 1 && clips[..|s.clips|] == s.clips && Brings(env, s, d, clips[|s.clips|]))
  {
    hide Brings;
    var clips := Deliver(env, s, d).clips;
    if clips != s.clips {
      assert clips == s.clips + [clips[|s.clips|]];
      EventStoresExactly(env, s, d, clips[|s.clips|]);
    }
  }

  lemma PollClipsHaveSource(env: Env, s: RunState, d: Delivery)
    requires d.Poll?
    ensures var clips := Deliver(env, s, d).clips;
      && |s.clips| <= |clips| && clips[..|s.clips|] == s.clips
      && forall j | |s.clips| <= j < |clips| :: Brings(env, s, d, clips[j])
  {
    var pending, indices, stored := PendingTasks(s), Indices(WithContent(s.manifests)), TaskIds(s.clips);
    PolledClipsHaveSource(pending, indices, stored, d.answers);
    hide PollFrom, PendingTasks, WithContent, TaskIds, PolledFrom;
    var polled, clips := PollFrom(pending, indices, stored, d.answers).clips, Deliver(env, s, d).clips;
    if clips != s.clips {
      assert clips == s.clips + polled;
      forall j | |s.clips| <= j < |clips| ensures Brings(env, s, d, clips[j]) {
        assert clips[j] == polled[j - |s.clips|] && clips[j] in polled;
      }
    }
  }

  lemma NewClipsHaveSource(env: Env, s: RunState, d: Delivery)
    ensures var clips := Deliver(env, s, d).clips;
      && |s.clips| <= |clips| && clips[..|s.clips|] == s.clips
      && forall j | |s.clips| <= j < |clips| :: Brings(env, s, d, clips[j])
  {
    hide Brings, OnSoraWebhook, OnSoraPoll;
    match d
    case Webhook(_, _, _, _) => EventClipHasSource(env, s, d);
    case Poll(_, _) => PollClipsHaveSource(env, s, d);
    case Submitted(_, _) =>
    case Repaired(_) =>
  }

  /** Every clip was there at the start or was brought by a delivery: none comes from an event with a sign of failure. */
  lemma {:induction false} EveryClipHasSource(env: Env, s: RunState, ds: seq<Delivery>, j: nat)
    requires |s.clips| <= j < |DeliverAll(env, s, ds).clips|
    ensures exists k: nat :: k < |ds| && Brings(env, After(env, s, ds, k), ds[k], DeliverAll(env, s, ds).clips[j])
  {
    hide Deliver, Brings;
    var n := |ds| - 1;
    var before := DeliverAll(env, s, ds[..n]);
    NewClipsHaveSource(env, before, ds[n]);
    if j < |before.clips| {
      EveryClipHasSource(env, s, ds[..n], j);
      var k: nat :| k < n && Brings(env, After(env, s, ds[..n], k), ds[..n][k], before.clips[j]);
      assert ds[..n][..k] == ds[..k];
      assert DeliverAll(env, s, ds).clips[j] == before.clips[j];
    } else {
      assert After(env, s, ds, n) == before;
    }
  }

  // ---- where a resume job comes from ----

  /** The resume job as the worker finds it. */
  predicate IsResumeJob(env: Env, job: Job, at: Time) {
    && job.jobType == ResumeVideos && job.key == Some(ResumeVideosKey(env.runId))
    && job.runId == Some(env.runId) && job.payload == ""
    && job.status.Pending? && job.attempts == 0 && job.maxAttempts == env.jobMaxAttempts
    && job.availableAt == at == job.createdAt
  }

  /** An event that brings a clip, or a poll that nothing stops, and that leaves clips enough. */
  ghost predicate Suffices(env: Env, s: RunState, d: Delivery) {
    match d
    case Webhook(_, _, _, _) =>
      s.status != RunFailed && (exists c :: Brings(env, s, d, c)) && |s.clips| + 1 >= Expected(s.manifests)
    case Poll(answers, _) =>
      var pending, stored := PendingTasks(s), TaskIds(s.clips);
      && env.realProvider && s.status == AwaitingVideoGeneration && pending != []
      && !StopsRaising(pending, stored, answers) && !StopsFailing(pending, stored, answers)
      && |UsableAt(s.clips)| + |ReadyTasks(pending, stored, answers)| >= Expected(WithContent(s.manifests))
    case Submitted(_, _) => false
    case Repaired(_) => false
  }

  lemma ReleasesExactly(env: Env, s: RunState, d: Delivery)
    requires !env.backgroundDisabled && !HasResume(env, s.jobs)
    ensures var t := Deliver(env, s, d);
      && (t.jobs != s.jobs <==> Suffices(env, s, d)) && (Suffices(env, s, d) ==> d.Webhook? || d.Poll?)
      && (Suffices(env, s, d) ==>
            |t.jobs| == |s.jobs| + 1 && t.jobs[..|s.jobs|] == s.jobs && IsResumeJob(env, t.jobs[|s.jobs|], d.at))
      && (Suffices(env, s, d) && s.status == AwaitingVideoGeneration ==> t.status == AwaitingRender)
      && (Suffices(env, s, d) && s.status != AwaitingVideoGeneration ==> t.status == s.status)
  {
    match d
    case Webhook(_, _, _, _) => EventReleasesExactly(env, s, d);
    case Poll(answers, at) =>
      if env.realProvider && s.status == AwaitingVideoGeneration {
        PollEndsExactly(env, s, answers, at);
        PassExactly(PendingTasks(s), Indices(WithContent(s.manifests)), TaskIds(s.clips), answers);
      }
      hide PollFrom, PendingTasks, WithContent, StopsRaising, StopsFailing, ReadyTasks;
    case Submitted(_, _) =>
    case Repaired(_) =>
  }

  lemma EventReleasesExactly(env: Env, s: RunState, d: Delivery)
    requires d.Webhook? && !env.backgroundDisabled && !HasResume(env, s.jobs)
    ensures var t := Deliver(env, s, d);
      && (t.jobs != s.jobs <==> Suffices(env, s, d))
      && (Suffices(env, s, d) ==>
            |t.jobs| == |s.jobs| + 1 && t.jobs[..|s.jobs|] == s.jobs && IsResumeJob(env, t.jobs[|s.jobs|], d.at))
      && (Suffices(env, s, d) && s.status == AwaitingVideoGeneration ==> t.status == AwaitingRender)
      && (Suffices(env, s, d) && s.status != AwaitingVideoGeneration ==> t.status == s.status)
  {
    var t := Deliver(env, s, d);
    if t.clips != s.clips {
      EventStoresExactly(env, s, d, t.clips[|s.clips|]);
    } else {
      forall c ensures !Brings(env, s, d, c) {
        EventStoresExactly(env, s, d, c);
      }
    }
  }

  lemma StaysReleased(env: Env, s: RunState, d: Delivery)
    requires HasResume(env, s.jobs)
    ensures Deliver(env, s, d).jobs == s.jobs
  {
  }

  lemma ResumeIsFound(env: Env, jobs: seq<Job>, job: Job, at: Time)
    requires IsResumeJob(env, job, at)
    ensures HasResume(env, jobs + [job])
  {
    assert (jobs + [job])[|jobs|] == job;
  }

  ghost predicate SomeSuffices(env: Env, s: RunState, ds: seq<Delivery>) {
    exists k: nat :: k < |ds| && Suffices(env, After(env, s, ds, k), ds[k])
  }

  lemma SufficesSnoc(env: Env, s: RunState, ds: seq<Delivery>)
    requires ds != []
    ensures var n := |ds| - 1;
      SomeSuffices(env, s, ds) <==> SomeSuffices(env, s, ds[..n]) || Suffices(env, DeliverAll(env, s, ds[..n]), ds[n])
  {
    hide Deliver, Suffices;
    var n := |ds| - 1;
    assert After(env, s, ds, n) == DeliverAll(env, s, ds[..n]);
    forall k: nat | k < n ensures After(env, s, ds[..n], k) == After(env, s, ds, k) {
      assert ds[..n][..k] == ds[..k];
    }
    if SomeSuffices(env, s, ds[..n]) {
      var k: nat :| k < n && Suffices(env, After(env, s, ds[..n], k), ds[..n][k]);
      assert Suffices(env, After(env, s, ds, k), ds[k]);
    }
    if SomeSuffices(env, s, ds) {
      var k: nat :| k < |ds| && Suffices(env, After(env, s, ds, k), ds[k]);
      assert k < n ==> Suffices(env, After(env, s, ds[..n], k), ds[..n][k]);
    }
  }

  lemma StepReleasesExactly(env: Env, s: RunState, d: Delivery)
    requires !env.backgroundDisabled && !HasResume(env, s.jobs)
    ensures HasResume(env, Deliver(env, s, d).jobs) <==> Suffices(env, s, d)
    ensures !Suffices(env, s, d) ==> Deliver(env, s, d).jobs == s.jobs
  {
    hide Deliver, Suffices, HasResume, IsResumeJob;
    var t := Deliver(env, s, d);
    ReleasesExactly(env, s, d);
    if Suffices(env, s, d) {
      assert t.jobs == s.jobs + [t.jobs[|s.jobs|]];
      ResumeIsFound(env, s.jobs, t.jobs[|s.jobs|], d.at);
    }
  }

  /** A run gets its resume job exactly by a delivery that leaves clips enough: an event that brings one, and so has no
      sign of failure, or a poll that nothing stops. */
  lemma {:induction false} EveryResumeHasSource(env: Env, s: RunState, ds: seq<Delivery>)
    requires !env.backgroundDisabled && !HasResume(env, s.jobs)
    ensures HasResume(env, DeliverAll(env, s, ds).jobs) <==> SomeSuffices(env, s, ds)
    ensures !HasResume(env, DeliverAll(env, s, ds).jobs) ==> DeliverAll(env, s, ds).jobs == s.jobs
  {
    if ds != [] {
      hide Deliver, Suffices, HasResume, SomeSuffices;
      var n := |ds| - 1;
      var before := DeliverAll(env, s, ds[..n]);
      EveryResumeHasSource(env, s, ds[..n]);
      SufficesSnoc(env, s, ds);
      if HasResume(env, before.jobs) {
        StaysReleased(env, before, ds[n]);
      } else {
        StepReleasesExactly(env, before, ds[n]);
      }
    }
  }
}
