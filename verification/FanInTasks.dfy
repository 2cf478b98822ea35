/** What the clips of a released run say about the tasks of its manifest. */
module FanInTasks {
  import opened Wrappers
  import opened SetFacts
  import opened JobTypes
  import opened JobQueue
  import opened FanIn
  import opened FanInTheorems

  ghost predicate Tagged(clips: seq<Clip>, tasks: seq<string>) {
    forall i | 0 <= i < |clips| :: Truthy(clips[i].taskId) && clips[i].taskId.value in tasks
  }

  lemma {:induction false} TaggedCount(clips: seq<Clip>, tasks: seq<string>)
    requires OneClipPerTask(clips) && Tagged(clips, tasks)
    ensures |TaskIds(clips)| == |clips|
  {
    if clips != [] {
      var n := |clips| - 1;
      TaggedCount(clips[..n], tasks);
      assert TaskIds(clips) == TaskIds(clips[..n]) + {clips[n].taskId.value} by {
        forall t | t in TaskIds(clips) ensures t in TaskIds(clips[..n]) + {clips[n].taskId.value} {
          var i :| 0 <= i < |clips| && Truthy(clips[i].taskId) && clips[i].taskId.value == t;
          if i < n {
            assert clips[..n][i] == clips[i];
          }
        }
        assert forall i | 0 <= i < n :: clips[..n][i] == clips[i];
      }
      assert clips[n].taskId.value !in TaskIds(clips[..n]);
    }
  }

  ghost predicate DistinctNamed(tasks: seq<string>) {
    && (forall i | 0 <= i < |tasks| :: tasks[i] != "")
    && (forall i, k | 0 <= i < k < |tasks| :: tasks[i] != tasks[k])
  }

  /** With as many clips as tasks, every task has a clip iff every clip names a task: a clip without a task id, or of
      another task, is exactly what can stand in for a missing one. */
  lemma EveryTaskExactly(clips: seq<Clip>, tasks: seq<string>)
    requires OneClipPerTask(clips) && DistinctNamed(tasks) && |clips| == |tasks|
    ensures (forall t | t in tasks :: HasClip(clips, t)) <==> Tagged(clips, tasks)
  {
    var all := set t | t in tasks;
    DistinctSize(tasks);
    if Tagged(clips, tasks) {
      TaggedCount(clips, tasks);
      FullSubset(TaskIds(clips), all);
      forall t | t in tasks ensures HasClip(clips, t) {
        assert t in TaskIds(clips);
      }
    } else if forall t | t in tasks :: HasClip(clips, t) {
      var odd :| 0 <= odd < |clips| && !(Truthy(clips[odd].taskId) && clips[odd].taskId.value in tasks);
      var others := clips[..odd] + clips[odd + 1..];
      forall t | t in all ensures t in TaskIds(others) {
        assert HasClip(clips, t);
        var i :| 0 <= i < |clips| && clips[i].taskId == Some(t);
        assert others[if i < odd then i else i - 1] == clips[i];
      }
      AtMostOnePerClip(others);
      SubsetSize(all, TaskIds(others));
    }
  }

  lemma {:induction false} AtMostOnePerClip(clips: seq<Clip>)
    ensures |TaskIds(clips)| <= |clips|
  {
    if clips != [] {
      var n := |clips| - 1;
      AtMostOnePerClip(clips[..n]);
      assert clips == clips[..n] + [clips[n]];
      TaskIdsConcat(clips[..n], [clips[n]]);
      var last := if Truthy(clips[n].taskId) then {clips[n].taskId.value} else {};
      assert TaskIds([clips[n]]) <= last;
      SubsetSize(TaskIds(clips), TaskIds(clips[..n]) + last);
    }
  }

  lemma TaskIdsCons(clip: Clip, clips: seq<Clip>)
    requires Truthy(clip.taskId)
    ensures TaskIds([clip] + clips) == {clip.taskId.value} + TaskIds(clips)
  {
    TaskIdsConcat([clip], clips);
    assert [clip][0] == clip;
    assert TaskIds([clip]) == {clip.taskId.value};
  }

  lemma TaskIdsConcat(a: seq<Clip>, b: seq<Clip>)
    ensures TaskIds(a + b) == TaskIds(a) + TaskIds(b)
  {
    forall t | t in TaskIds(a + b) ensures t in TaskIds(a) + TaskIds(b) {
      var i :| 0 <= i < |a + b| && Truthy((a + b)[i].taskId) && (a + b)[i].taskId.value == t;
      if i < |a| {
        assert a[i] == (a + b)[i];
      } else {
        assert b[i - |a|] == (a + b)[i];
      }
    }
    forall t | t in TaskIds(a) ensures t in TaskIds(a + b) {
      var i :| 0 <= i < |a| && Truthy(a[i].taskId) && a[i].taskId.value == t;
      assert (a + b)[i] == a[i];
    }
    forall t | t in TaskIds(b) ensures t in TaskIds(a + b) {
      var i :| 0 <= i < |b| && Truthy(b[i].taskId) && b[i].taskId.value == t;
      assert (a + b)[|a| + i] == b[i];
    }
  }

  lemma {:induction false} DistinctSize(tasks: seq<string>)
    requires forall i, k | 0 <= i < k < |tasks| :: tasks[i] != tasks[k]
    ensures |set t | t in tasks| == |tasks|
  {
    if tasks != [] {
      var n := |tasks| - 1;
      DistinctSize(tasks[..n]);
      assert (set t | t in tasks) == (set t | t in tasks[..n]) + {tasks[n]};
    }
  }

  /** Everything a delivery brings is one of these tasks; it may fail in any way. */
  ghost predicate Names(d: Delivery, tasks: seq<string>) {
    match d
    case Webhook(ev, _, _, _) => Truthy(ev.taskId) && ev.taskId.value in tasks
    case Poll(_, _) => true
    case Submitted(submitted, _) => forall t | t in submitted :: t in tasks
    case Repaired(order) => forall t | t in order.newIds :: t in tasks
  }

  /** The run polls for these tasks only: its own list, or else its latest manifest, names no other. */
  ghost predicate PollsFor(s: RunState, tasks: seq<string>) {
    && (forall t | t in s.pendingTaskIds :: t in tasks)
    && (s.manifests != [] ==> forall t | t in s.manifests[|s.manifests| - 1].tasks :: t in tasks)
  }

  lemma PendingAmong(s: RunState, tasks: seq<string>)
    requires PollsFor(s, tasks) && HaveContent(s.manifests)
    ensures forall t | t in PendingTasks(s) :: t in tasks
  {
    ManifestsAgree(s.manifests);
  }

  lemma RepairNames(s: RunState, order: RepairOrder, tasks: seq<string>)
    requires Tagged(s.clips, tasks) && RepairApplies(s, order) && forall t | t in order.newIds :: t in tasks
    ensures forall t | t in RepairTasks(s, order) :: t in tasks
  {
    hide OneTaskPerIndex;
    var plan := RepairPlan(s, order);
    forall i | i in plan ensures plan[i] in tasks {
      if i !in Resubmitted(MissingIndices(s, order), order.newIds) {
        assert ByIndex(s.clips)[i] in s.clips;
      }
    }
  }

  lemma NamingKeepsTagged(env: Env, s: RunState, d: Delivery, tasks: seq<string>)
    requires Tagged(s.clips, tasks) && PollsFor(s, tasks) && HaveContent(s.manifests) && Names(d, tasks)
    ensures Tagged(Deliver(env, s, d).clips, tasks) && PollsFor(Deliver(env, s, d), tasks)
    ensures HaveContent(Deliver(env, s, d).manifests)
  {
    hide OnSoraPoll, OnRepair;
    match d
    case Webhook(_, _, _, _) =>
    case Poll(answers, at) => PollKeepsTagged(env, s, answers, at, tasks);
    case Submitted(_, _) =>
    case Repaired(order) => RepairKeepsTagged(s, order, tasks);
  }

  lemma PollKeepsTagged(env: Env, s: RunState, answers: string -> Answer, at: Time, tasks: seq<string>)
    requires Tagged(s.clips, tasks) && PollsFor(s, tasks) && HaveContent(s.manifests)
    ensures var t := OnSoraPoll(env, s, answers, at).state;
      Tagged(t.clips, tasks) && t.manifests == s.manifests && t.pendingTaskIds == s.pendingTaskIds
  {
    hide PollFrom;
    PendingAreNamed(s);
    PendingAmong(s, tasks);
    PolledClipsAreNew(PendingTasks(s), Indices(WithContent(s.manifests)), TaskIds(s.clips), answers);
  }

  lemma RepairKeepsTagged(s: RunState, order: RepairOrder, tasks: seq<string>)
    requires Tagged(s.clips, tasks) && PollsFor(s, tasks) && HaveContent(s.manifests)
    requires forall t | t in order.newIds :: t in tasks
    ensures var t := OnRepair(s, order); t.clips == s.clips && PollsFor(t, tasks) && HaveContent(t.manifests)
  {
    hide RepairApplies, RepairTasks;
    if RepairApplies(s, order) {
      RepairNames(s, order, tasks);
    }
  }

  /** Deliveries, submissions and repairs that bring only these tasks, failing ones included, leave only clips of
      these tasks. */
  lemma {:induction false} TaggedDeliveries(env: Env, s: RunState, ds: seq<Delivery>, tasks: seq<string>)
    requires Tagged(s.clips, tasks) && PollsFor(s, tasks) && HaveContent(s.manifests)
    requires forall i | 0 <= i < |ds| :: Names(ds[i], tasks)
    ensures Tagged(DeliverAll(env, s, ds).clips, tasks) && PollsFor(DeliverAll(env, s, ds), tasks)
    ensures HaveContent(DeliverAll(env, s, ds).manifests)
  {
    if ds != [] {
      hide Deliver, Tagged, Names, PollsFor, HaveContent;
      var n := |ds| - 1;
      TaggedDeliveries(env, s, ds[..n], tasks);
      assert Names(ds[n], tasks);
      NamingKeepsTagged(env, DeliverAll(env, s, ds[..n]), ds[n], tasks);
    }
  }

  /** So a run that gets released after deliveries and repairs that bring only these tasks has a clip for each. */
  lemma ReleaseMeansEveryTask(env: Env, s: RunState, ds: seq<Delivery>, tasks: seq<string>)
    requires Sound(s) && !HasResume(env, s.jobs) && Tagged(s.clips, tasks) && PollsFor(s, tasks)
    requires DistinctNamed(tasks) && Expected(s.manifests) >= |tasks|
    requires NoSubmission(ds) && forall i | 0 <= i < |ds| :: Names(ds[i], tasks)
    ensures HasResume(env, DeliverAll(env, s, ds).jobs) ==> forall t | t in tasks :: HasClip(DeliverAll(env, s, ds).clips, t)
  {
    var run := DeliverAll(env, s, ds);
    TaggedDeliveries(env, s, ds, tasks);
    EarnedStays(env, s, ds);
    if HasResume(env, run.jobs) {
      TaggedCount(run.clips, tasks);
      SubsetSize(TaskIds(run.clips), set t | t in tasks);
      DistinctSize(tasks);
      EveryTaskExactly(run.clips, tasks);
    }
  }

  // ---- clips that stand in for missing ones ----

  const ANY_URL := Success("file:///clip.mp4")

  function Untagged(url: string): SoraEvent {
    SoraEvent(Some(200), "success", None, None, 0, [url])
  }

  /** The job under which the webhook route enqueues an event. */
  function WebhookSpec(env: Env, ev: SoraEvent, bodyDigest: string): JobSpec {
    JobSpec(WebhookSora, Some(SoraJobKey(env.runId, ev.taskId, bodyDigest)), Some(env.runId), "", env.jobMaxAttempts, None)
  }

  /** Two different events without a task id are two jobs, and release a run of two tasks that has a clip for
      neither; the same body sent again would have been refused. */
  lemma UntaggedEventsRelease(env: Env, at: Time, digest1: string, digest2: string)
    requires !env.backgroundDisabled && digest1 != digest2
    ensures var queued := [NewJob(WebhookSpec(env, Untagged("u"), digest1), at)];
      !AlreadyEnqueued(queued, WebhookSpec(env, Untagged("v"), digest2))
      && AlreadyEnqueued(queued, WebhookSpec(env, Untagged("u"), digest1))
    ensures var s := RunState(AwaitingVideoGeneration, [], [Manifest(true, ["a", "b"], map[], 2)], [], []);
            var t := DeliverAll(env, s, [Webhook(Untagged("u"), ANY_URL, ANY_URL, at), Webhook(Untagged("v"), ANY_URL, ANY_URL, at)]);
      Sound(s) && HasResume(env, t.jobs) && t.status == AwaitingRender
      && !HasClip(t.clips, "a") && !HasClip(t.clips, "b")
  {
    UntaggedAreQueued(env, at, digest1, digest2);
    UntaggedRun(env, at);
  }

  lemma TwoDeliveries(env: Env, s: RunState, d: Delivery, e: Delivery)
    ensures DeliverAll(env, s, [d, e]) == Deliver(env, Deliver(env, s, d), e)
  {
    hide Deliver;
    assert [d, e][..1] == [d] && [d][..0] == [];
    assert DeliverAll(env, s, [d]) == Deliver(env, DeliverAll(env, s, []), d);
  }

  lemma UntaggedRun(env: Env, at: Time)
    requires !env.backgroundDisabled
    ensures var s := RunState(AwaitingVideoGeneration, [], [Manifest(true, ["a", "b"], map[], 2)], [], []);
            var t := DeliverAll(env, s, [Webhook(Untagged("u"), ANY_URL, ANY_URL, at), Webhook(Untagged("v"), ANY_URL, ANY_URL, at)]);
      Sound(s) && HasResume(env, t.jobs) && t.status == AwaitingRender
      && !HasClip(t.clips, "a") && !HasClip(t.clips, "b")
  {
    var s := RunState(AwaitingVideoGeneration, [], [Manifest(true, ["a", "b"], map[], 2)], [], []);
    var d, e := Webhook(Untagged("u"), ANY_URL, ANY_URL, at), Webhook(Untagged("v"), ANY_URL, ANY_URL, at);
    hide Deliver;
    TwoDeliveries(env, s, d, e);
    var clip := Clip(None, "file:///clip.mp4", 0, "sora");
    var s1 := s.(clips := [clip]);
    UntaggedIsStored(env, s, "u", at);
    assert Deliver(env, s, d) == s1;
    UntaggedIsStored(env, s1, "v", at);
    var t := Deliver(env, s1, e);
    assert t.clips == [clip, clip] && t.jobs == [NewJob(ResumeSpec(env), at)];
    assert t.jobs[0].jobType == ResumeVideos && t.jobs[0].key == ResumeSpec(env).key;
  }

  lemma UntaggedIsStored(env: Env, s: RunState, url: string, at: Time)
    requires s.status == AwaitingVideoGeneration && url != "" && !HasResume(env, s.jobs) && !env.backgroundDisabled
    ensures var stored := s.(clips := s.clips + [Clip(None, "file:///clip.mp4", 0, "sora")]);
      Deliver(env, s, Webhook(Untagged(url), ANY_URL, ANY_URL, at))
      == if |stored.clips| < Expected(s.manifests) then stored
         else stored.(status := AwaitingRender, jobs := s.jobs + [NewJob(ResumeSpec(env), at)])
  {
  }

  lemma UntaggedAreQueued(env: Env, at: Time, digest1: string, digest2: string)
    requires digest1 != digest2
    ensures var queued := [NewJob(WebhookSpec(env, Untagged("u"), digest1), at)];
      !AlreadyEnqueued(queued, WebhookSpec(env, Untagged("v"), digest2))
      && AlreadyEnqueued(queued, WebhookSpec(env, Untagged("u"), digest1))
  {
    var queued := [NewJob(WebhookSpec(env, Untagged("u"), digest1), at)];
    assert ("hash:" + digest1)[5..] == digest1 && ("hash:" + digest2)[5..] == digest2;
    SoraJobKeyExact(env.runId, None, digest1, env.runId, None, digest2);
    assert queued[0].key == WebhookSpec(env, Untagged("u"), digest1).key;
  }

  // ---- a repair leaves such clips behind ----

  /** Unless told which indices to make again, a repair always makes index 0 again: the clip that has it is not found. */
  lemma RepairRemakesIndexZero(s: RunState, order: RepairOrder)
    requires RepairApplies(s, order) && order.requested.None?
    ensures 0 in MissingIndices(s, order)
  {
    assert 0 in Upto(RepairCount(s.manifests));
  }

  /** So a stored clip of index 0 is left without a task, and is counted all the same. */
  lemma RepairUntagsIndexZero(s: RunState, order: RepairOrder, c: nat)
    requires OneClipPerTask(s.clips) && RepairApplies(s, order) && order.requested.None?
    requires c < |s.clips| && s.clips[c].videoIndex == 0
    requires Truthy(s.clips[c].taskId) ==> s.clips[c].taskId.value !in order.newIds
    ensures !Tagged(OnRepair(s, order).clips, RepairTasks(s, order))
  {
    if Truthy(s.clips[c].taskId) {
      forall i: nat | i < |RepairTasks(s, order)| ensures RepairTasks(s, order)[i] != s.clips[c].taskId.value {
        PlannedForAnother(s, order, c, i);
      }
    }
  }

  lemma PlannedForAnother(s: RunState, order: RepairOrder, c: nat, i: nat)
    requires OneClipPerTask(s.clips) && |order.newIds| == |MissingIndices(s, order)| && i in RepairPlan(s, order)
    requires c < |s.clips| && s.clips[c].videoIndex == 0 && Truthy(s.clips[c].taskId)
    requires s.clips[c].taskId.value !in order.newIds
    ensures RepairPlan(s, order)[i] != s.clips[c].taskId.value
  {
    hide MissingIndices;
    if i !in Resubmitted(MissingIndices(s, order), order.newIds) {
      var kept := ByIndex(s.clips)[i];
      var k :| 0 <= k < |s.clips| && s.clips[k] == kept;
      assert k != c;
    }
  }

  function Arrival(task: string, index: int): Delivery {
    Webhook(SoraEvent(Some(200), "success", Some("video.completed"), Some(task), index, ["u"]), ANY_URL, ANY_URL, 0.0)
  }

  function Mishap(task: string, index: int): Delivery {
    Webhook(SoraEvent(Some(500), "fail", Some("video.failed"), Some(task), index, []), ANY_URL, ANY_URL, 0.0)
  }

  const FIRST_CLIP := Clip(Some("a"), "file:///clip.mp4", 0, "sora")
  const TWO_TASKS := Manifest(true, ["a", "b"], map["a" := 0, "b" := 1], 2)
  const BOTH_AGAIN := RepairOrder(None, false, true, ["c", "d"])

  lemma DeliverSnoc(env: Env, s: RunState, ds: seq<Delivery>, d: Delivery)
    ensures DeliverAll(env, s, ds + [d]) == Deliver(env, DeliverAll(env, s, ds), d)
  {
    assert (ds + [d])[..|ds|] == ds;
  }

  /** One of two clips arrives and the other fails; the repair makes both again. */
  lemma RepairOfTwo()
    ensures var failed := RunState(RunFailed, [FIRST_CLIP], [TWO_TASKS], [], []);
      RepairApplies(failed, BOTH_AGAIN) && RepairTasks(failed, BOTH_AGAIN) == ["c", "d"]
  {
    hide WithContent, ByIndex, Lacking, Upto, Resubmitted;
    BothLacking();
    var failed := RunState(RunFailed, [FIRST_CLIP], [TWO_TASKS], [], []);
    MissingOfTwo();
    PlanOfTwo();
    var plan := RepairPlan(failed, BOTH_AGAIN);
    assert plan == map[0 := "c", 1 := "d"];
    assert plan.Keys == (set i | i in Upto(2));
    assert "c"[0] != "d"[0];
  }

  lemma MissingOfTwo()
    ensures WithContent([TWO_TASKS]) == [TWO_TASKS] && RepairCount([TWO_TASKS]) == 2 && ByIndex([FIRST_CLIP]) == map[]
    ensures MissingIndices(RunState(RunFailed, [FIRST_CLIP], [TWO_TASKS], [], []), BOTH_AGAIN) == [0, 1]
  {
    assert [TWO_TASKS][..0] == [] && WithContent([TWO_TASKS]) == [TWO_TASKS];
    NothingFound();
    hide WithContent, ByIndex, Lacking, Upto;
    BothLacking();
  }

  lemma NothingFound()
    ensures ByIndex([FIRST_CLIP]) == map[] && ByIndex([FIRST_CLIP]).Keys == {}
  {
    assert [FIRST_CLIP][..0] == [];
  }

  lemma BothLacking()
    ensures Lacking(Upto(2), {}, false) == [0, 1] && Upto(2) == [0, 1]
  {
    assert Upto(0) == [] && Upto(1) == [0] && Upto(2) == [0, 1];
    hide Upto;
    assert [0, 1][1..] == [1] && [1][1..] == [];
    assert Lacking([], {}, false) == [] && Lacking([1], {}, false) == [1];
  }

  lemma PlanOfTwo()
    ensures Resubmitted([0, 1], ["c", "d"]) == map[0 := "c", 1 := "d"]
  {
    assert [0, 1][..1] == [0] && [0][..0] == [] && ["c", "d"][..1] == ["c"] && ["c"][..0] == [];
    assert Resubmitted([0], ["c"]) == map[0 := "c"];
  }

  /** A run of the two tasks a and b, delivered a, failed on b and repaired, is released by the clip of c alone: the
      clip of a, which belongs to no task any more, stands in for d. */
  lemma RepairedRunReleases(env: Env)
    requires !env.backgroundDisabled
    ensures var s := RunState(AwaitingVideoGeneration, [], [TWO_TASKS], [], []);
            var t := DeliverAll(env, s, [Arrival("a", 0)] + [Mishap("b", 1)] + [Repaired(BOTH_AGAIN)] + [Arrival("c", 0)]);
      && t.manifests == [TWO_TASKS, Manifest(true, ["c", "d"], NumberedFromZero(["c", "d"]), 2)]
      && t.status == AwaitingRender && HasResume(env, t.jobs)
      && !HasClip(t.clips, "d")
  {
    hide Deliver;
    var s := RunState(AwaitingVideoGeneration, [], [TWO_TASKS], [], []);
    var ds := [Arrival("a", 0)] + [Mishap("b", 1)] + [Repaired(BOTH_AGAIN)];
    RunUntilRepaired(env);
    DeliverSnoc(env, s, ds, Arrival("c", 0));
    var repaired := Repairing();
    CompletionIsStored(env, repaired, "c", 0);
    var t := Deliver(env, repaired, Arrival("c", 0));
    assert t.clips == [FIRST_CLIP, Clip(Some("c"), "file:///clip.mp4", 0, "sora")];
    assert "a"[0] != "d"[0] && "c"[0] != "d"[0] && "a"[0] != "c"[0];
    assert t.jobs[0].jobType == ResumeVideos && t.jobs[0].key == ResumeSpec(env).key;
  }

  /** The repaired run. */
  function Repairing(): RunState {
    RunState(AwaitingVideoGeneration, [FIRST_CLIP],
             [TWO_TASKS, Manifest(true, ["c", "d"], NumberedFromZero(["c", "d"]), 2)], ["c", "d"], [])
  }

  lemma RunUntilRepaired(env: Env)
    ensures var s := RunState(AwaitingVideoGeneration, [], [TWO_TASKS], [], []);
      DeliverAll(env, s, [Arrival("a", 0)] + [Mishap("b", 1)] + [Repaired(BOTH_AGAIN)]) == Repairing()
  {
    hide OnRepair;
    var s := RunState(AwaitingVideoGeneration, [], [TWO_TASKS], [], []);
    CompletionIsStored(env, s, "a", 0);
    assert DeliverAll(env, s, []) == s && [] + [Arrival("a", 0)] == [Arrival("a", 0)];
    DeliverSnoc(env, s, [], Arrival("a", 0));
    var collected := s.(clips := [FIRST_CLIP]);
    assert s.clips + [FIRST_CLIP] == [FIRST_CLIP];
    assert DeliverAll(env, s, [Arrival("a", 0)]) == collected;
    DeliverSnoc(env, s, [Arrival("a", 0)], Mishap("b", 1));
    assert Deliver(env, collected, Mishap("b", 1)) == collected.(status := RunFailed);
    DeliverSnoc(env, s, [Arrival("a", 0)] + [Mishap("b", 1)], Repaired(BOTH_AGAIN));
    RepairOfTwoLeaves();
  }

  lemma RepairOfTwoLeaves()
    ensures OnRepair(RunState(RunFailed, [FIRST_CLIP], [TWO_TASKS], [], []), BOTH_AGAIN) == Repairing()
  {
    hide RepairApplies, RepairTasks;
    RepairOfTwo();
    assert [TWO_TASKS] + [Manifest(true, ["c", "d"], NumberedFromZero(["c", "d"]), 2)]
           == [TWO_TASKS, Manifest(true, ["c", "d"], NumberedFromZero(["c", "d"]), 2)];
  }

  lemma CompletionIsStored(env: Env, s: RunState, task: string, index: int)
    requires s.status == AwaitingVideoGeneration && task != "" && !HasClip(s.clips, task) && !HasResume(env, s.jobs)
    ensures var stored := s.(clips := s.clips + [Clip(Some(task), "file:///clip.mp4", index, "sora")]);
      Deliver(env, s, Arrival(task, index))
      == if |stored.clips| < Expected(s.manifests) then stored
         else stored.(status := AwaitingRender,
                      jobs := s.jobs + if env.backgroundDisabled then [] else [NewJob(ResumeSpec(env), 0.0)])
  {
  }

  // ---- terminal statuses are overwritten ----

  /** A failure event, and a completion that transcodes to nothing, both turn a COMPLETED run FAILED. */
  lemma CompletedIsOverwritten(env: Env, s: RunState)
    requires s.status == Completed && s.clips == []
    ensures DeliverAll(env, s, [Mishap("a", 0)]).status == RunFailed
    ensures DeliverAll(env, s, [Webhook(Arrival("a", 0).ev, ANY_URL, Success(""), 0.0)]).status == RunFailed
  {
    DeliverOne(env, s, Mishap("a", 0));
    DeliverOne(env, s, Webhook(Arrival("a", 0).ev, ANY_URL, Success(""), 0.0));
  }

  lemma DeliverOne(env: Env, s: RunState, d: Delivery)
    ensures DeliverAll(env, s, [d]) == Deliver(env, s, d)
  {
    hide Deliver;
    assert [d][..0] == [];
  }
}
