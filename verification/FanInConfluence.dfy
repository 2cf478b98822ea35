/** Confluence: when the order in which clips arrive does not matter, and exactly when it does. */
module FanInConfluence {
  import opened Wrappers
  import opened SetFacts
  import opened JobTypes
  import opened JobQueue
  import opened FanIn
  import opened FanInTheorems
  import opened FanInTasks

  /** A run awaiting the clips of its latest manifest, whose tasks are distinct and named. It may have clips already,
      of these tasks or of others, and earlier manifests. */
  ghost predicate Collecting(env: Env, s: RunState, tasks: seq<string>) {
    && s.status == AwaitingVideoGeneration && OneClipPerTask(s.clips) && HasUris(s.clips)
    && HaveContent(s.manifests) && s.manifests != []
    && s.manifests[|s.manifests| - 1].tasks == tasks && s.manifests[|s.manifests| - 1].taskCount == |tasks| > 0
    && (s.pendingTaskIds == [] || s.pendingTaskIds == tasks)
    && DistinctNamed(tasks)
    && UniqueKeys(s.jobs) && !HasResume(env, s.jobs)
  }

  /** Every stored clip is of one of the tasks, and some task has none. */
  ghost predicate Waiting(env: Env, s: RunState, tasks: seq<string>) {
    Collecting(env, s, tasks) && Tagged(s.clips, tasks) && |s.clips| < |tasks|
  }

  /** A successful delivery: a completion for one of the tasks, or a poll that finds nothing failed. */
  ghost predicate Successful(d: Delivery, tasks: seq<string>) {
    match d
    case Webhook(ev, download, transcode, _) =>
      && !IsFailure(ev) && IsCompletion(ev) && Truthy(ev.taskId) && ev.taskId.value in tasks
      && Original(ev, download).Success? && Original(ev, download).value != ""
      && transcode.Success? && transcode.value != ""
    case Poll(answers, _) =>
      forall t | t in tasks :: answers(t).StillRunning? || Ready(answers(t))
    case Submitted(_, _) => false
    case Repaired(_) => false
  }

  predicate Ready(a: Answer) {
    a.Delivered? && a.transcoded.Success? && a.transcoded.value != ""
  }

  /** The tasks a delivery brings clips of; a poll brings nothing unless the provider is real. */
  function Covered(env: Env, d: Delivery, tasks: seq<string>): set<string> {
    match d
    case Webhook(ev, _, _, _) => if Truthy(ev.taskId) then {ev.taskId.value} else {}
    case Poll(answers, _) => if env.realProvider then set t | t in tasks && Ready(answers(t)) else {}
    case Submitted(_, _) => {}
    case Repaired(_) => {}
  }

  function CoveredBy(env: Env, ds: seq<Delivery>, tasks: seq<string>): set<string> {
    if ds == [] then {} else CoveredBy(env, ds[..|ds| - 1], tasks) + Covered(env, ds[|ds| - 1], tasks)
  }

  ghost predicate AllSuccessful(ds: seq<Delivery>, tasks: seq<string>) {
    forall i | 0 <= i < |ds| :: Successful(ds[i], tasks)
  }

  lemma {:induction false} CoveredAreTasks(env: Env, ds: seq<Delivery>, tasks: seq<string>)
    requires AllSuccessful(ds, tasks)
    ensures CoveredBy(env, ds, tasks) <= set t | t in tasks
  {
    if ds != [] {
      var n := |ds| - 1;
      CoveredAreTasks(env, ds[..n], tasks);
      assert Successful(ds[n], tasks);
    }
  }

  /** The tasks delivered that had no clip at the start. */
  function Fresh(start: RunState, done: set<string>): set<string> {
    done - TaskIds(start.clips)
  }

  /** Something new has arrived, and the clips suffice. */
  predicate Complete(start: RunState, tasks: seq<string>, done: set<string>) {
    Fresh(start, done) != {} && |start.clips| + |Fresh(start, done)| >= |tasks|
  }

  /** The clips are those of the start, and one for each task delivered since. */
  ghost predicate Holds(start: RunState, tasks: seq<string>, done: set<string>, clips: seq<Clip>) {
    && OneClipPerTask(clips) && HasUris(clips) && TaskIds(clips) == TaskIds(start.clips) + done
    && (Tagged(start.clips, tasks) ==> Tagged(clips, tasks))
    && |clips| == |start.clips| + |Fresh(start, done)|
  }

  /** The run is as at the start, or released once. */
  ghost predicate Stands(env: Env, start: RunState, released: bool, s: RunState) {
    && s.manifests == start.manifests && s.pendingTaskIds == start.pendingTaskIds
    && s.status == (if released then AwaitingRender else AwaitingVideoGeneration)
    && if released && !env.backgroundDisabled then ReleasedOnce(env, start.jobs, s.jobs) else s.jobs == start.jobs
  }

  /** The state is a function of the set of tasks delivered, up to when the resume job was created. */
  ghost predicate Canonical(env: Env, start: RunState, tasks: seq<string>, done: set<string>, s: RunState) {
    Holds(start, tasks, done, s.clips) && Stands(env, start, Complete(start, tasks, done), s)
  }

  /** Only the tasks that had no clip at the start matter. */
  lemma SameFresh(env: Env, start: RunState, tasks: seq<string>, done: set<string>, same: set<string>, s: RunState)
    requires Canonical(env, start, tasks, done, s) && TaskIds(start.clips) + done == TaskIds(start.clips) + same
    ensures Canonical(env, start, tasks, same, s) && Complete(start, tasks, same) == Complete(start, tasks, done)
  {
    hide OneClipPerTask, HasUris, Tagged, Stands;
    assert Fresh(start, same) == (TaskIds(start.clips) + same) - TaskIds(start.clips);
    assert Fresh(start, done) == (TaskIds(start.clips) + done) - TaskIds(start.clips);
  }

  ghost predicate ReleasedOnce(env: Env, before: seq<Job>, after: seq<Job>) {
    && |after| == |before| + 1 && after[..|before|] == before
    && after[|before|] == NewJob(ResumeSpec(env), after[|before|].createdAt)
  }

  lemma {:induction false} PolledTasks(pending: seq<string>, indices: map<string, int>, seen: set<string>,
                                       answers: string -> Answer)
    requires forall i | 0 <= i < |pending| ::
               pending[i] != "" && (answers(pending[i]).StillRunning? || Ready(answers(pending[i])))
    ensures var p := PollFrom(pending, indices, seen, answers);
      !p.failed && !p.raised && TaskIds(p.clips) == set t | t in pending && t !in seen && Ready(answers(t))
  {
    if pending != [] {
      var task, rest := pending[0], pending[1..];
      if task in seen || !Ready(answers(task)) {
        PolledTasks(rest, indices, seen, answers);
      } else {
        PolledTasks(rest, indices, seen + {task}, answers);
        var more := PollFrom(rest, indices, seen + {task}, answers);
        TaskIdsCons(PolledClip(task, answers(task).transcoded.value, indices), more.clips);
      }
    }
  }

  lemma FreshMore(start: RunState, done: set<string>, more: set<string>)
    requires more !! TaskIds(start.clips) + done
    ensures Fresh(start, done + more) == Fresh(start, done) + more && Fresh(start, done) !! more
    ensures |Fresh(start, done + more)| == |Fresh(start, done)| + |more|
  {
    hide TaskIds;
    assert Fresh(start, done + more) == Fresh(start, done) + more;
  }

  lemma ClipsMore(clips: seq<Clip>, added: seq<Clip>, tasks: seq<string>)
    requires OneClipPerTask(clips) && HasUris(clips)
    requires OneClipPerTask(added) && HasUris(added) && Tagged(added, tasks) && TaskIds(added) !! TaskIds(clips)
    ensures OneClipPerTask(clips + added) && HasUris(clips + added) && TaskIds(clips + added) == TaskIds(clips) + TaskIds(added)
    ensures |TaskIds(added)| == |added| && (Tagged(clips, tasks) ==> Tagged(clips + added, tasks))
  {
    TaskIdsConcat(clips, added);
    forall i | 0 <= i < |added| ensures added[i].taskId.value !in TaskIds(clips) {
      assert added[i].taskId.value in TaskIds(added);
    }
    NewIdsStayUnique(clips, added);
    TaggedCount(added, tasks);
  }

  lemma HoldsMore(start: RunState, tasks: seq<string>, done: set<string>, clips: seq<Clip>, added: seq<Clip>)
    requires Holds(start, tasks, done, clips)
    requires OneClipPerTask(added) && HasUris(added) && Tagged(added, tasks) && TaskIds(added) !! TaskIds(clips)
    ensures Holds(start, tasks, done + TaskIds(added), clips + added) && |TaskIds(added)| == |added|
    ensures Fresh(start, done + TaskIds(added)) == Fresh(start, done) + TaskIds(added)
    ensures Fresh(start, done) !! TaskIds(added)
  {
    hide OneClipPerTask, HasUris, Tagged, TaskIds, Fresh;
    ClipsMore(clips, added, tasks);
    FreshMore(start, done, TaskIds(added));
  }

  lemma StandsReleased(env: Env, start: RunState, before: bool, s: RunState, clips: seq<Clip>, now: Time)
    requires Stands(env, start, before, s) && !HasResume(env, start.jobs) && start.status == AwaitingVideoGeneration
    ensures Stands(env, start, true, Released(env, s.(clips := clips), now))
    ensures !before ==> Stands(env, start, false, s.(clips := clips))
  {
    if before && !env.backgroundDisabled {
      ReleasedHasResume(env, start.jobs, s.jobs);
    }
  }

  /** Appending the clips of tasks that have none, then releasing if they complete the manifest. */
  lemma AppendIsCanonical(env: Env, start: RunState, tasks: seq<string>, done: set<string>, s: RunState,
                          added: seq<Clip>, now: Time)
    requires Collecting(env, start, tasks) && Canonical(env, start, tasks, done, s) && added != []
    requires OneClipPerTask(added) && HasUris(added) && Tagged(added, tasks) && TaskIds(added) !! TaskIds(s.clips)
    ensures var stored := s.(clips := s.clips + added);
      Canonical(env, start, tasks, done + TaskIds(added),
                if |stored.clips| >= |tasks| then Released(env, stored, now) else stored)
  {
    HoldsMore(start, tasks, done, s.clips, added);
    StandsReleased(env, start, Complete(start, tasks, done), s, s.clips + added, now);
    ReleaseKeepsClips(env, s.(clips := s.clips + added), now);
    CompleteMore(start, tasks, done, TaskIds(added));
    hide OneClipPerTask, HasUris, Tagged, TaskIds, Stands, Released, HasResume, UniqueKeys;
  }

  lemma CompleteMore(start: RunState, tasks: seq<string>, done: set<string>, more: set<string>)
    requires more != {} && Fresh(start, done + more) == Fresh(start, done) + more && Fresh(start, done) !! more
    ensures Complete(start, tasks, done + more) <==> |start.clips| + |Fresh(start, done)| + |more| >= |tasks|
    ensures Complete(start, tasks, done) ==> Complete(start, tasks, done + more)
  {
  }

  lemma ReleasedHasResume(env: Env, before: seq<Job>, after: seq<Job>)
    requires ReleasedOnce(env, before, after)
    ensures HasResume(env, after)
  {
    assert after[|before|].key == ResumeSpec(env).key && after[|before|].jobType == ResumeVideos;
  }

  lemma FreshCompletionIsStored(env: Env, s: RunState, tasks: seq<string>, d: Delivery)
    requires d.Webhook? && Successful(d, tasks) && !HasClip(s.clips, d.ev.taskId.value)
    requires s.status != RunFailed
    ensures var stored := s.(clips := s.clips + [Clip(d.ev.taskId, d.transcode.value, d.ev.videoIndex, "sora")]);
      Deliver(env, s, d) == if |stored.clips| >= Expected(s.manifests) then Released(env, stored, d.at) else stored
  {
  }

  lemma WebhookStepIsCanonical(env: Env, start: RunState, tasks: seq<string>, done: set<string>, s: RunState,
                               d: Delivery)
    requires Collecting(env, start, tasks) && Canonical(env, start, tasks, done, s) && Successful(d, tasks) && d.Webhook?
    ensures Canonical(env, start, tasks, done + Covered(env, d, tasks), Deliver(env, s, d))
  {
    hide Deliver, Released, Canonical, Successful, Covered, TaskIds, HasClip, OneClipPerTask, HasUris, Tagged;
    ArrivedClip(env, d, tasks);
    var task := d.ev.taskId.value;
    HoldsTasks(env, start, tasks, done, s);
    HasClipExactly(s.clips, task);
    if task in TaskIds(s.clips) {
      DuplicateChangesNothing(env, s, tasks, d);
      assert TaskIds(start.clips) + (done + {task}) == TaskIds(start.clips) + done;
      SameFresh(env, start, tasks, done, done + {task}, s);
    } else {
      var added := [Clip(d.ev.taskId, d.transcode.value, d.ev.videoIndex, "sora")];
      AppendIsCanonical(env, start, tasks, done, s, added, d.at);
      FreshCompletionIsStored(env, s, tasks, d);
    }
  }

  lemma HasClipExactly(clips: seq<Clip>, task: string)
    requires task != ""
    ensures HasClip(clips, task) <==> task in TaskIds(clips)
  {
    if HasClip(clips, task) {
      var i :| 0 <= i < |clips| && clips[i].taskId == Some(task);
      assert Truthy(clips[i].taskId);
    }
  }

  lemma ArrivedClip(env: Env, d: Delivery, tasks: seq<string>)
    requires d.Webhook? && Successful(d, tasks)
    ensures d.ev.taskId.Some? && d.ev.taskId.value != "" && d.transcode.Success?
    ensures Covered(env, d, tasks) == {d.ev.taskId.value}
    ensures var clip := Clip(d.ev.taskId, d.transcode.value, d.ev.videoIndex, "sora");
      OneClipPerTask([clip]) && HasUris([clip]) && Tagged([clip], tasks) && TaskIds([clip]) == {d.ev.taskId.value}
  {
    var clip := Clip(d.ev.taskId, d.transcode.value, d.ev.videoIndex, "sora");
    assert [clip][0] == clip;
    assert d.ev.taskId.value in TaskIds([clip]);
  }

  /** What the canonical states have in common. */
  lemma HoldsTasks(env: Env, start: RunState, tasks: seq<string>, done: set<string>, s: RunState)
    requires Collecting(env, start, tasks) && Canonical(env, start, tasks, done, s)
    ensures TaskIds(s.clips) == TaskIds(start.clips) + done && OneClipPerTask(s.clips) && HasUris(s.clips)
    ensures s.manifests == start.manifests && s.pendingTaskIds == start.pendingTaskIds && s.status != RunFailed
    ensures Expected(s.manifests) == |tasks| && (Tagged(start.clips, tasks) ==> Tagged(s.clips, tasks))
    ensures Complete(start, tasks, done) <==> s.status != AwaitingVideoGeneration
    ensures Complete(start, tasks, done) ==> s.status == AwaitingRender && |s.clips| >= |tasks|
  {
  }

  lemma DuplicateChangesNothing(env: Env, s: RunState, tasks: seq<string>, d: Delivery)
    requires d.Webhook? && Successful(d, tasks) && HasClip(s.clips, d.ev.taskId.value)
    ensures Deliver(env, s, d) == s
  {
  }

  /** A poll that finds nothing failed stores what is ready, and releases the run if that completes it. */
  lemma ReadyClipsAreStored(env: Env, s: RunState, answers: string -> Answer, now: Time)
    requires env.realProvider && s.status == AwaitingVideoGeneration && PendingTasks(s) != []
    requires HasUris(s.clips) && HaveContent(s.manifests)
    requires var polled := PollFrom(PendingTasks(s), Indices(s.manifests), TaskIds(s.clips), answers);
             !polled.failed && !polled.raised
    ensures var polled := PollFrom(PendingTasks(s), Indices(s.manifests), TaskIds(s.clips), answers);
            var stored := s.(clips := s.clips + polled.clips);
      Deliver(env, s, Poll(answers, now))
      == if |stored.clips| >= Expected(s.manifests) then Released(env, stored, now) else stored
  {
    hide PollFrom;
    ManifestsAgree(s.manifests);
    CountsAgree(s);
  }

  lemma PollStepIsCanonical(env: Env, start: RunState, tasks: seq<string>, done: set<string>, s: RunState, d: Delivery)
    requires Waiting(env, start, tasks) && Canonical(env, start, tasks, done, s) && Successful(d, tasks)
    requires d.Poll? && env.realProvider && !Complete(start, tasks, done)
    ensures Canonical(env, start, tasks, done + Covered(env, d, tasks), Deliver(env, s, d))
  {
    hide PollFrom, OnSoraPoll, Released, Canonical;
    HoldsTasks(env, start, tasks, done, s);
    var polled := PollFrom(tasks, Indices(s.manifests), TaskIds(s.clips), d.answers);
    PollBringsReady(env, tasks, s, d);
    var ready := set t | t in tasks && t !in TaskIds(s.clips) && Ready(d.answers(t));
    if polled.clips == [] {
      assert done + ready == done && s.clips + polled.clips == s.clips;
      NotCompleteMeansFew(env, start, tasks, done, s);
    } else {
      AppendIsCanonical(env, start, tasks, done, s, polled.clips, d.at);
    }
    assert TaskIds(start.clips) + (done + ready) == TaskIds(start.clips) + (done + Covered(env, d, tasks));
    SameFresh(env, start, tasks, done + ready, done + Covered(env, d, tasks), Deliver(env, s, d));
  }

  lemma NotCompleteMeansFew(env: Env, start: RunState, tasks: seq<string>, done: set<string>, s: RunState)
    requires Waiting(env, start, tasks) && Canonical(env, start, tasks, done, s) && !Complete(start, tasks, done)
    ensures |s.clips| < |tasks|
  {
  }

  /** A poll of a run that is still waiting stores exactly the ready tasks that have no clip. */
  lemma PollBringsReady(env: Env, tasks: seq<string>, s: RunState, d: Delivery)
    requires s.status == AwaitingVideoGeneration && OneClipPerTask(s.clips) && HasUris(s.clips) && HaveContent(s.manifests)
    requires s.manifests != [] && s.manifests[|s.manifests| - 1].tasks == tasks != [] && DistinctNamed(tasks)
    requires s.pendingTaskIds == [] || s.pendingTaskIds == tasks
    requires d.Poll? && env.realProvider && Successful(d, tasks)
    ensures var clips := PollFrom(tasks, Indices(s.manifests), TaskIds(s.clips), d.answers).clips;
            var stored := s.(clips := s.clips + clips);
      && OneClipPerTask(clips) && HasUris(clips) && Tagged(clips, tasks)
      && TaskIds(clips) == (set t | t in tasks && t !in TaskIds(s.clips) && Ready(d.answers(t)))
      && (clips == [] <==> TaskIds(clips) == {})
      && Deliver(env, s, d) == if |stored.clips| >= Expected(s.manifests) then Released(env, stored, d.at) else stored
  {
    hide PollFrom, OnSoraPoll, Released;
    NamedKeepsNamed(tasks);
    ManifestsAgree(s.manifests);
    assert PendingTasks(s) == tasks;
    PolledClipsAreNew(tasks, Indices(s.manifests), TaskIds(s.clips), d.answers);
    PolledTasks(tasks, Indices(s.manifests), TaskIds(s.clips), d.answers);
    ReadyClipsAreStored(env, s, d.answers, d.at);
    TaggedCount(PollFrom(tasks, Indices(s.manifests), TaskIds(s.clips), d.answers).clips, tasks);
  }

  /** Once every task is stored a poll changes nothing. */
  lemma LatePollIsCanonical(env: Env, start: RunState, tasks: seq<string>, done: set<string>, s: RunState, d: Delivery)
    requires Waiting(env, start, tasks) && Canonical(env, start, tasks, done, s) && Successful(d, tasks) && d.Poll?
    requires Complete(start, tasks, done)
    ensures Canonical(env, start, tasks, done + Covered(env, d, tasks), Deliver(env, s, d))
  {
    hide Canonical, Collecting, Complete, Deliver, Successful, Covered, TaskIds, Tagged;
    HoldsTasks(env, start, tasks, done, s);
    AllStored(env, start, tasks, done, s);
    LatePollIsIdle(env, s, d, tasks);
    assert TaskIds(start.clips) + (done + Covered(env, d, tasks)) == TaskIds(start.clips) + done;
    SameFresh(env, start, tasks, done, done + Covered(env, d, tasks), s);
  }

  lemma LatePollIsIdle(env: Env, s: RunState, d: Delivery, tasks: seq<string>)
    requires d.Poll? && s.status == AwaitingRender
    ensures Deliver(env, s, d) == s && Covered(env, d, tasks) <= set t | t in tasks
  {
  }

  lemma AllStored(env: Env, start: RunState, tasks: seq<string>, done: set<string>, s: RunState)
    requires Waiting(env, start, tasks) && Canonical(env, start, tasks, done, s) && Complete(start, tasks, done)
    ensures TaskIds(s.clips) == (set t | t in tasks) && |s.clips| == |tasks|
  {
    HoldsTasks(env, start, tasks, done, s);
    TaggedCount(s.clips, tasks);
    DistinctSize(tasks);
    FullSubset(TaskIds(s.clips), set t | t in tasks);
  }

  /** Polls do not disturb the order: the provider is not real, or nothing but clips of the tasks is stored. */
  ghost predicate PollsAgree(env: Env, start: RunState, tasks: seq<string>) {
    !env.realProvider || (Tagged(start.clips, tasks) && |start.clips| < |tasks|)
  }

  ghost predicate OnlyWebhooks(ds: seq<Delivery>) {
    forall i | 0 <= i < |ds| :: ds[i].Webhook?
  }

  lemma StepIsCanonical(env: Env, start: RunState, tasks: seq<string>, done: set<string>, s: RunState, d: Delivery)
    requires Collecting(env, start, tasks) && Canonical(env, start, tasks, done, s) && Successful(d, tasks)
    requires PollsAgree(env, start, tasks) || d.Webhook?
    ensures Canonical(env, start, tasks, done + Covered(env, d, tasks), Deliver(env, s, d))
  {
    hide Canonical;
    if d.Webhook? {
      WebhookStepIsCanonical(env, start, tasks, done, s, d);
    } else if !env.realProvider {
      assert done + Covered(env, d, tasks) == done;
    } else if Complete(start, tasks, done) {
      LatePollIsCanonical(env, start, tasks, done, s, d);
    } else {
      PollStepIsCanonical(env, start, tasks, done, s, d);
    }
  }

  lemma StartIsCanonical(env: Env, start: RunState, tasks: seq<string>)
    requires Collecting(env, start, tasks)
    ensures Canonical(env, start, tasks, {}, start)
  {
  }

  lemma {:induction false} DeliveriesAreCanonical(env: Env, start: RunState, tasks: seq<string>, ds: seq<Delivery>)
    requires Collecting(env, start, tasks) && AllSuccessful(ds, tasks)
    requires PollsAgree(env, start, tasks) || OnlyWebhooks(ds)
    ensures Canonical(env, start, tasks, CoveredBy(env, ds, tasks), DeliverAll(env, start, ds))
  {
    hide Canonical, Deliver, Collecting, PollsAgree;
    if ds != [] {
      var n := |ds| - 1;
      DeliveriesAreCanonical(env, start, tasks, ds[..n]);
      StepIsCanonical(env, start, tasks, CoveredBy(env, ds[..n], tasks), DeliverAll(env, start, ds[..n]), ds[n]);
    } else {
      StartIsCanonical(env, start, tasks);
    }
  }

  predicate SameJob(a: Job, b: Job) {
    b.(availableAt := a.availableAt, createdAt := a.createdAt) == a
  }

  ghost predicate SameJobs(a: seq<Job>, b: seq<Job>) {
    |a| == |b| && forall i | 0 <= i < |a| :: SameJob(a[i], b[i])
  }

  /** The same clips up to their order and origin, the same status, and the same jobs up to their time stamps. */
  ghost predicate Agree(s: RunState, t: RunState) {
    && TaskIds(s.clips) == TaskIds(t.clips) && |s.clips| == |t.clips| && s.status == t.status && SameJobs(s.jobs, t.jobs)
  }

  lemma CanonicalAgree(env: Env, start: RunState, tasks: seq<string>, done: set<string>, s: RunState, t: RunState)
    requires Canonical(env, start, tasks, done, s) && Canonical(env, start, tasks, done, t)
    ensures Agree(s, t)
  {
    forall i | 0 <= i < |s.jobs| ensures |s.jobs| == |t.jobs| && SameJob(s.jobs[i], t.jobs[i]) {
      if i < |start.jobs| {
        assert s.jobs[i] == start.jobs[i] && t.jobs[i] == start.jobs[i] by {
          assert s.jobs[..|start.jobs|] == start.jobs && t.jobs[..|start.jobs|] == start.jobs;
        }
      }
    }
  }

  /** Two sequences of successful deliveries that cover the same tasks. */
  ghost predicate Matching(env: Env, tasks: seq<string>, ds: seq<Delivery>, es: seq<Delivery>) {
    AllSuccessful(ds, tasks) && AllSuccessful(es, tasks) && CoveredBy(env, ds, tasks) == CoveredBy(env, es, tasks)
  }

  /** Confluence: two sequences of successful deliveries that cover the same tasks, in any order, by either handler and
      with any duplicates, leave one clip for each of those tasks besides what was stored, the same run status, and the
      same jobs up to the time stamps of the resume job. The run is released when no task is left. */
  lemma Confluence(env: Env, start: RunState, tasks: seq<string>, ds: seq<Delivery>, es: seq<Delivery>)
    requires Waiting(env, start, tasks) && Matching(env, tasks, ds, es)
    ensures var s, t := DeliverAll(env, start, ds), DeliverAll(env, start, es);
      && Agree(s, t) && OneClipPerTask(s.clips) && OneClipPerTask(t.clips)
      && TaskIds(s.clips) == TaskIds(start.clips) + CoveredBy(env, ds, tasks)
      && (s.status == AwaitingRender <==> forall x | x in tasks :: x in TaskIds(start.clips) + CoveredBy(env, ds, tasks))
  {
    var done := CoveredBy(env, ds, tasks);
    var s, t := DeliverAll(env, start, ds), DeliverAll(env, start, es);
    DeliveriesAreCanonical(env, start, tasks, ds);
    DeliveriesAreCanonical(env, start, tasks, es);
    CanonicalAgree(env, start, tasks, done, s, t);
    ReleasedWhenAllStored(env, start, tasks, done, s);
  }

  lemma ReleasedWhenAllStored(env: Env, start: RunState, tasks: seq<string>, done: set<string>, s: RunState)
    requires Waiting(env, start, tasks) && Canonical(env, start, tasks, done, s)
    ensures Complete(start, tasks, done) <==> forall x | x in tasks :: x in TaskIds(start.clips) + done
    ensures s.status == AwaitingRender <==> Complete(start, tasks, done)
  {
    if Complete(start, tasks, done) {
      AllStored(env, start, tasks, done, s);
    } else if forall x | x in tasks :: x in TaskIds(start.clips) + done {
      TaggedCount(s.clips, tasks);
      DistinctSize(tasks);
      SubsetSize((set x | x in tasks), TaskIds(s.clips));
    }
  }

  // ---- exactly when ----

  ghost predicate Confluent(env: Env, start: RunState, tasks: seq<string>) {
    forall ds: seq<Delivery>, es: seq<Delivery> | Matching(env, tasks, ds, es) ::
      Agree(DeliverAll(env, start, ds), DeliverAll(env, start, es))
  }

  /** Polls that find nothing finished, and polls that find everything finished. */
  function AllRunning(task: string): Answer {
    StillRunning
  }

  function AllFinished(task: string): Answer {
    Delivered(ANY_URL)
  }

  const IDLE_POLL := Poll(AllRunning, 0.0)
  const FULL_POLL := Poll(AllFinished, 0.0)

  lemma PollsSucceed(env: Env, tasks: seq<string>)
    requires env.realProvider
    ensures Successful(IDLE_POLL, tasks) && Covered(env, IDLE_POLL, tasks) == {}
    ensures Successful(FULL_POLL, tasks) && Covered(env, FULL_POLL, tasks) == set t | t in tasks
  {
  }

  /** With enough clips from the start, a poll that finds nothing new releases the run. */
  lemma IdlePollDisagrees(env: Env, start: RunState, tasks: seq<string>)
    requires Collecting(env, start, tasks) && env.realProvider && |start.clips| >= |tasks|
    ensures !Confluent(env, start, tasks)
  {
    PollsSucceed(env, tasks);
    PollBringsReady(env, tasks, start, IDLE_POLL);
    var s, t := DeliverAll(env, start, []), DeliverAll(env, start, [IDLE_POLL]);
    OneDelivery(env, start, tasks, IDLE_POLL);
    assert Matching(env, tasks, [], [IDLE_POLL]);
    assert s.status != t.status;
  }

  lemma OneDelivery(env: Env, start: RunState, tasks: seq<string>, d: Delivery)
    ensures DeliverAll(env, start, [d]) == Deliver(env, start, d) && DeliverAll(env, start, []) == start
    ensures CoveredBy(env, [d], tasks) == Covered(env, d, tasks)
  {
    hide Deliver;
    assert [d][..0] == [];
  }

  /** The tasks without a clip, in the manifest's order. */
  function Without(tasks: seq<string>, have: set<string>): (rest: seq<string>)
    ensures forall t :: t in rest <==> t in tasks && t !in have
  {
    if tasks == [] then []
    else if tasks[0] in have then Without(tasks[1..], have)
    else [tasks[0]] + Without(tasks[1..], have)
  }

  lemma {:induction false} WithoutSize(tasks: seq<string>, have: set<string>)
    requires DistinctNamed(tasks)
    ensures DistinctNamed(Without(tasks, have))
    ensures |Without(tasks, have)| + |have * set t | t in tasks| == |tasks|
  {
    if tasks != [] {
      var rest := tasks[1..];
      WithoutSize(rest, have);
      assert tasks[0] !in rest;
      assert DistinctNamed(rest);
      SharedWithFirst(tasks, have);
    }
  }

  lemma SharedWithFirst(tasks: seq<string>, have: set<string>)
    requires tasks != [] && tasks[0] !in tasks[1..]
    ensures |have * set t | t in tasks| == |have * set t | t in tasks[1..]| + if tasks[0] in have then 1 else 0
  {
    var rest := have * set t | t in tasks[1..];
    assert (have * set t | t in tasks) == if tasks[0] in have then rest + {tasks[0]} else rest;
  }

  function Completions(tasks: seq<string>): seq<Delivery> {
    seq(|tasks|, i requires 0 <= i < |tasks| => Arrival(tasks[i], 0))
  }

  lemma {:induction false} CompletionsCover(env: Env, some: seq<string>, tasks: seq<string>)
    requires forall t | t in some :: t in tasks && t != ""
    ensures AllSuccessful(Completions(some), tasks) && OnlyWebhooks(Completions(some))
    ensures CoveredBy(env, Completions(some), tasks) == set t | t in some
  {
    if some != [] {
      var n := |some| - 1;
      CompletionsCover(env, some[..n], tasks);
      assert Completions(some)[..n] == Completions(some[..n]);
      assert (set t | t in some) == (set t | t in some[..n]) + {some[n]};
      ArrivalCovers(env, some[n], tasks);
    }
  }

  lemma ArrivalCovers(env: Env, task: string, tasks: seq<string>)
    requires task in tasks && task != ""
    ensures Successful(Arrival(task, 0), tasks) && Arrival(task, 0).Webhook?
    ensures Covered(env, Arrival(task, 0), tasks) == {task}
  {
  }

  /** Clips of other tasks make a run complete while some task is missing. Just enough completions release it, and a
      poll that comes after them finds it released; the same poll alone brings every clip. */
  lemma StrayClipDisagrees(env: Env, start: RunState, tasks: seq<string>)
    requires Collecting(env, start, tasks) && env.realProvider && |start.clips| < |tasks| && !Tagged(start.clips, tasks)
    ensures !Confluent(env, start, tasks)
  {
    var missing := Without(tasks, TaskIds(start.clips));
    WithoutSize(tasks, TaskIds(start.clips));
    StraysTakeRoom(start.clips, tasks);
    EnoughThenPoll(env, start, tasks, missing, |tasks| - |start.clips|);
  }

  /** Some of the missing tasks arrive and release the run; the poll for the others comes too late. */
  lemma EnoughThenPoll(env: Env, start: RunState, tasks: seq<string>, missing: seq<string>, enough: nat)
    requires Collecting(env, start, tasks) && env.realProvider && DistinctNamed(missing)
    requires |start.clips| + enough == |tasks| && 0 < enough < |missing|
    requires forall t | t in missing :: t in tasks && t !in TaskIds(start.clips)
    ensures !Confluent(env, start, tasks)
  {
    hide Collecting, Deliver, Successful, Agree, TaskIds;
    var some, last := missing[..enough], missing[enough];
    var ds := Completions(some);
    DistinctPrefix(missing, enough);
    JustEnoughReleases(env, start, tasks, some);
    CompletionsCover(env, some, tasks);
    PollsSucceed(env, tasks);
    LastDelivery(env, start, tasks, ds, FULL_POLL);
    OneDelivery(env, start, tasks, FULL_POLL);
    FullPollBringsAll(env, start, tasks);
    assert last in missing;
    assert CoveredBy(env, ds, tasks) + (set t | t in tasks) == set t | t in tasks;
    assert Matching(env, tasks, ds + [FULL_POLL], [FULL_POLL]) by { OneIsSuccessful(FULL_POLL, tasks); }
    Differ(DeliverAll(env, start, ds + [FULL_POLL]), DeliverAll(env, start, [FULL_POLL]), last);
  }

  lemma OneIsSuccessful(d: Delivery, tasks: seq<string>)
    requires Successful(d, tasks)
    ensures AllSuccessful([d], tasks)
  {
  }

  lemma Differ(s: RunState, t: RunState, task: string)
    requires task !in TaskIds(s.clips) && task in TaskIds(t.clips)
    ensures !Agree(s, t)
  {
  }

  lemma DistinctPrefix(missing: seq<string>, n: nat)
    requires DistinctNamed(missing) && n < |missing|
    ensures DistinctNamed(missing[..n]) && missing[n] !in missing[..n]
  {
  }

  lemma StraysTakeRoom(clips: seq<Clip>, tasks: seq<string>)
    requires OneClipPerTask(clips) && !Tagged(clips, tasks)
    ensures |TaskIds(clips) * set t | t in tasks| < |clips|
  {
    var odd :| 0 <= odd < |clips| && !(Truthy(clips[odd].taskId) && clips[odd].taskId.value in tasks);
    var others := clips[..odd] + clips[odd + 1..];
    var shared := TaskIds(clips) * set t | t in tasks;
    forall t | t in shared ensures t in TaskIds(others) {
      var i :| 0 <= i < |clips| && Truthy(clips[i].taskId) && clips[i].taskId.value == t;
      assert others[if i < odd then i else i - 1] == clips[i];
    }
    AtMostOnePerClip(others);
    SubsetSize(shared, TaskIds(others));
  }

  lemma JustEnoughReleases(env: Env, start: RunState, tasks: seq<string>, some: seq<string>)
    requires Collecting(env, start, tasks) && DistinctNamed(some) && |start.clips| + |some| == |tasks| > |start.clips|
    requires forall t | t in some :: t in tasks && t !in TaskIds(start.clips)
    ensures var s := DeliverAll(env, start, Completions(some));
      s.status == AwaitingRender && TaskIds(s.clips) == TaskIds(start.clips) + set t | t in some
  {
    hide Canonical, Collecting;
    var s, done := DeliverAll(env, start, Completions(some)), set t | t in some;
    CompletionsCover(env, some, tasks);
    DeliveriesAreCanonical(env, start, tasks, Completions(some));
    HoldsTasks(env, start, tasks, done, s);
    DistinctSize(some);
    assert Fresh(start, done) == done;
    assert some[0] in done;
  }

  lemma LastDelivery(env: Env, start: RunState, tasks: seq<string>, ds: seq<Delivery>, d: Delivery)
    requires AllSuccessful(ds, tasks) && Successful(d, tasks)
    ensures AllSuccessful(ds + [d], tasks) && DeliverAll(env, start, ds + [d]) == Deliver(env, DeliverAll(env, start, ds), d)
    ensures CoveredBy(env, ds + [d], tasks) == CoveredBy(env, ds, tasks) + Covered(env, d, tasks)
    ensures d.Poll? && DeliverAll(env, start, ds).status == AwaitingRender ==>
              DeliverAll(env, start, ds + [d]) == DeliverAll(env, start, ds)
  {
    assert (ds + [d])[..|ds|] == ds;
  }

  lemma FullPollBringsAll(env: Env, start: RunState, tasks: seq<string>)
    requires Collecting(env, start, tasks) && env.realProvider
    ensures forall t | t in tasks :: t in TaskIds(DeliverAll(env, start, [FULL_POLL]).clips)
  {
    hide Released;
    PollsSucceed(env, tasks);
    OneDelivery(env, start, tasks, FULL_POLL);
    PollBringsReady(env, tasks, start, FULL_POLL);
    var polled := PollFrom(tasks, Indices(start.manifests), TaskIds(start.clips), AllFinished).clips;
    TaskIdsConcat(start.clips, polled);
    ReleaseKeepsClips(env, start.(clips := start.clips + polled), 0.0);
  }

  lemma ReleaseKeepsClips(env: Env, s: RunState, now: Time)
    ensures Released(env, s, now).clips == s.clips
  {
  }

  /** Confluence, exactly: the order of successful deliveries never matters iff the provider is not real, or every clip
      stored at the start is of one of the tasks and some task is still missing. */
  lemma ConfluenceExactly(env: Env, start: RunState, tasks: seq<string>)
    requires Collecting(env, start, tasks)
    ensures Confluent(env, start, tasks) <==> PollsAgree(env, start, tasks)
  {
    if PollsAgree(env, start, tasks) {
      forall ds: seq<Delivery>, es: seq<Delivery> | Matching(env, tasks, ds, es)
        ensures Agree(DeliverAll(env, start, ds), DeliverAll(env, start, es))
      {
        DeliveriesAreCanonical(env, start, tasks, ds);
        DeliveriesAreCanonical(env, start, tasks, es);
        CanonicalAgree(env, start, tasks, CoveredBy(env, ds, tasks), DeliverAll(env, start, ds), DeliverAll(env, start, es));
      }
    } else if |start.clips| >= |tasks| {
      IdlePollDisagrees(env, start, tasks);
    } else {
      StrayClipDisagrees(env, start, tasks);
    }
  }

  // ---- a repaired run ----

  lemma RepairedRunCollects(env: Env, s: RunState, order: RepairOrder)
    requires Sound(s) && RepairApplies(s, order) && !HasResume(env, s.jobs)
    ensures Collecting(env, OnRepair(s, order), RepairTasks(s, order))
  {
    var tasks := RepairTasks(s, order);
    forall i | 0 <= i < |tasks| ensures tasks[i] != "" {
      PlannedIsNamed(s, order, i);
    }
    forall i, k | 0 <= i < k < |tasks| ensures tasks[i] != tasks[k] {
      assert i in RepairPlan(s, order) && k in RepairPlan(s, order);
    }
  }

  lemma PlannedIsNamed(s: RunState, order: RepairOrder, i: int)
    requires |order.newIds| == |MissingIndices(s, order)| && i in RepairPlan(s, order)
    requires forall k | 0 <= k < |order.newIds| :: order.newIds[k] != ""
    ensures RepairPlan(s, order)[i] != ""
  {
    hide MissingIndices;
  }

  /** A repair of everything, on a run that has a clip of index 0, leaves a run in which the order matters. */
  lemma RepairedRunIsNotConfluent(env: Env, s: RunState, order: RepairOrder, c: nat)
    requires Sound(s) && RepairApplies(s, order) && !HasResume(env, s.jobs) && env.realProvider
    requires order.requested.None? && c < |s.clips| && s.clips[c].videoIndex == 0
    requires Truthy(s.clips[c].taskId) ==> s.clips[c].taskId.value !in order.newIds
    ensures !Confluent(env, OnRepair(s, order), RepairTasks(s, order))
  {
    hide RepairApplies, RepairTasks, OnRepair, Collecting, Confluent;
    RepairedRunCollects(env, s, order);
    RepairUntagsIndexZero(s, order, c);
    ConfluenceExactly(env, OnRepair(s, order), RepairTasks(s, order));
  }
}
