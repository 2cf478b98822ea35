/** The webhook.sora and sora.poll branches of handle_job, for one run: clips arrive in any order, by either
    handler, and the run is released once. Handlers of one run are executed one after another. */
module FanIn {
  import opened Wrappers
  import opened JobTypes
  import opened JobQueue

  datatype RunStatus =
    | NotStarted | InProgress | AwaitingIdeationApproval | AwaitingVideoGeneration | AwaitingRender
    | AwaitingPublish | AwaitingPublishApproval | Completed | RunFailed | Rejected

  datatype Clip = Clip(taskId: Option<string>, uri: string, videoIndex: int, source: string)

  /** A CLIP_MANIFEST artifact: whether it has content, the task ids that content maps (none when it cannot be
      parsed), the video index of each, and task_count. */
  datatype Manifest = Manifest(hasContent: bool, tasks: seq<string>, indices: map<string, int>, taskCount: int)

  datatype RunState = RunState(
    status: RunStatus, clips: seq<Clip>, manifests: seq<Manifest>, pendingTaskIds: seq<string>, jobs: seq<Job>)

  /** Settings and identity that do not change during a run. */
  datatype Env = Env(
    runId: Uuid, backgroundDisabled: bool, realProvider: bool, jobMaxAttempts: int, pollInterval: Time)

  datatype SoraEvent = SoraEvent(
    code: Option<int>, state: string, eventType: Option<string>, taskId: Option<string>,
    videoIndex: int, videoUrls: seq<string>)

  /** What fetching and transcoding did: the call raised, or gave a url ("" when there is none). */
  type Fetched = Result<string, string>

  datatype Answer = StillRunning | TaskFailed | Unreachable | Delivered(transcoded: Fetched)

  /** How a handler ends; a rescheduled job names the wait it wants. */
  datatype Ending = Returned | Raised | Rescheduled(delay: Time)

  datatype Step = Step(state: RunState, ending: Ending)

  predicate IsFailure(ev: SoraEvent) {
    (ev.code.Some? && ev.code.value != 200) || ev.state == "fail" || ev.eventType == Some("video.failed")
  }

  predicate IsCompletion(ev: SoraEvent) {
    ev.videoUrls != [] || ev.eventType == Some("video.completed")
  }

  predicate Truthy(s: Option<string>) {
    s.Some? && s.value != ""
  }

  predicate HasClip(clips: seq<Clip>, task: string) {
    exists i | 0 <= i < |clips| :: clips[i].taskId == Some(task)
  }

  function TaskIds(clips: seq<Clip>): set<string> {
    set i | 0 <= i < |clips| && Truthy(clips[i].taskId) :: clips[i].taskId.value
  }

  /** task_count of the latest manifest, where 0 and "no manifest" both mean 1. */
  function Expected(manifests: seq<Manifest>): int {
    if manifests == [] || manifests[|manifests| - 1].taskCount == 0 then 1
    else manifests[|manifests| - 1].taskCount
  }

  /** The poll handler considers only manifests that have content. */
  function WithContent(manifests: seq<Manifest>): seq<Manifest> {
    if manifests == [] then []
    else
      var last := manifests[|manifests| - 1];
      WithContent(manifests[..|manifests| - 1]) + if last.hasContent then [last] else []
  }

  function UsableClips(clips: seq<Clip>): nat {
    if clips == [] then 0
    else UsableClips(clips[..|clips| - 1]) + if clips[|clips| - 1].uri == "" then 0 else 1
  }

  function ResumeSpec(env: Env): JobSpec {
    JobSpec(ResumeVideos, Some(ResumeVideosKey(env.runId)), Some(env.runId), "", env.jobMaxAttempts, None)
  }

  function EnqueueResume(env: Env, jobs: seq<Job>, now: Time): seq<Job> {
    if env.backgroundDisabled || AlreadyEnqueued(jobs, ResumeSpec(env)) then jobs
    else jobs + [NewJob(ResumeSpec(env), now)]
  }

  /** The url a completion event leads to: its first url, or else a download of the finished video. */
  function Original(ev: SoraEvent, download: Fetched): Fetched {
    if ev.videoUrls != [] && ev.videoUrls[0] != "" then Success(ev.videoUrls[0])
    else if ev.eventType == Some("video.completed") then download
    else Success("")
  }

  function OnSoraWebhook(env: Env, s: RunState, ev: SoraEvent, download: Fetched, transcode: Fetched, now: Time): Step {
    if IsFailure(ev) then Step(s.(status := RunFailed), Returned)
    else if !IsCompletion(ev) then Step(s, Returned)
    else if Truthy(ev.taskId) && HasClip(s.clips, ev.taskId.value) then Step(s, Returned)
    else
      var original := Original(ev, download);
      if original.Failure? then Step(s, Raised)
      else if original.value == "" then Step(s.(status := RunFailed), Returned)
      else if transcode.Failure? then Step(s, Raised)
      else if transcode.value == "" then Step(s.(status := RunFailed), Returned)
      else
        var clips := s.clips + [Clip(ev.taskId, transcode.value, ev.videoIndex, "sora")];
        var stored := s.(clips := clips);
        if |clips| < Expected(s.manifests) || s.status == RunFailed then Step(stored, Returned)
        else Step(Released(env, stored, now), Returned)
  }

  function Released(env: Env, s: RunState, now: Time): RunState {
    s.(status := if s.status == AwaitingVideoGeneration then AwaitingRender else s.status,
       jobs := EnqueueResume(env, s.jobs, now))
  }

  function PolledClip(task: string, url: string, indices: map<string, int>): Clip {
    Clip(Some(task), url, if task in indices then indices[task] else 0, "sora_poll")
  }

  function Indices(manifests: seq<Manifest>): map<string, int> {
    if manifests == [] then map[] else manifests[|manifests| - 1].indices
  }

  /** One pass of the poll over the pending tasks, in order. */
  datatype Polled = Polled(clips: seq<Clip>, failed: bool, raised: bool)

  function PollFrom(pending: seq<string>, indices: map<string, int>, seen: set<string>, answers: string -> Answer): Polled {
    if pending == [] then Polled([], false, false)
    else
      var task, rest := pending[0], pending[1..];
      if task in seen then PollFrom(rest, indices, seen, answers)
      else
        match answers(task)
        case Unreachable => Polled([], false, true)
        case TaskFailed => Polled([], true, false)
        case StillRunning => PollFrom(rest, indices, seen, answers)
        case Delivered(url) =>
          if url.Failure? then Polled([], false, true)
          else if url.value == "" then Polled([], true, false)
          else
            var more := PollFrom(rest, indices, seen + {task}, answers);
            more.(clips := [PolledClip(task, url.value, indices)] + more.clips)
  }

  /** Empty task ids are dropped wherever they are read. */
  function Named(tasks: seq<string>): (named: seq<string>)
    ensures forall t :: t in named <==> t in tasks && t != ""
  {
    if tasks == [] then []
    else if tasks[0] == "" then Named(tasks[1..])
    else [tasks[0]] + Named(tasks[1..])
  }

  /** The run's own list of pending tasks, or else the tasks of its latest manifest. */
  function PendingTasks(s: RunState): seq<string> {
    if Named(s.pendingTaskIds) != [] then Named(s.pendingTaskIds)
    else
      var manifests := WithContent(s.manifests);
      if manifests == [] then [] else Named(manifests[|manifests| - 1].tasks)
  }

  function OnSoraPoll(env: Env, s: RunState, answers: string -> Answer, now: Time): Step {
    if !env.realProvider || s.status != AwaitingVideoGeneration then Step(s, Returned)
    else if PendingTasks(s) == [] then Step(s, Raised)
    else
      var polled := PollFrom(PendingTasks(s), Indices(WithContent(s.manifests)), TaskIds(s.clips), answers);
      if polled.raised then Step(s, Raised)
      else
        var stored := s.(clips := s.clips + polled.clips);
        if polled.failed then Step(stored.(status := RunFailed), Returned)
        else if UsableClips(s.clips) + |polled.clips| >= Expected(WithContent(s.manifests))
        then Step(Released(env, stored, now), Returned)
        else Step(stored, Rescheduled(env.pollInterval + 10.0))
  }

  /** The video index the latest manifest gives a task. */
  function LookUp(manifests: seq<Manifest>, task: string): Option<int> {
    var active := WithContent(manifests);
    if active == [] || task !in active[|active| - 1].indices then None else Some(active[|active| - 1].indices[task])
  }

  /** The webhook route with background jobs on: an event of a task that is not in the latest manifest is acknowledged
      and dropped; otherwise it is enqueued with the index of its own metadata if it has any, else with the one looked
      up. */
  function Routed(manifests: seq<Manifest>, ev: SoraEvent, own: Option<int>): Option<SoraEvent> {
    if !Truthy(ev.taskId) then Some(ev.(videoIndex := if own.Some? then own.value else 0))
    else if LookUp(manifests, ev.taskId.value).None? then None
    else Some(ev.(videoIndex := if own.Some? then own.value else LookUp(manifests, ev.taskId.value).value))
  }

  /** A submission stores a manifest of its own tasks, while the run goes on. */
  function OnSubmission(s: RunState, tasks: seq<string>, indices: map<string, int>): RunState {
    s.(manifests := s.manifests + [Manifest(true, tasks, indices, |tasks|)])
  }

  /** What an operator asks of a repair: which indices (all when None, else sorted and distinct), whether clips that
      are there are made again, whether the prompts are still stored, and the ids of the tasks the provider accepts. */
  datatype RepairOrder = RepairOrder(requested: Option<seq<int>>, force: bool, promptsStored: bool, newIds: seq<string>)

  /** The number of tasks a repair must end up with: that of the manifest it replaces, at least 1. */
  function RepairCount(manifests: seq<Manifest>): int {
    var expected := Expected(WithContent(manifests));
    if expected <= 0 then 1 else expected
  }

  /** The newest usable clip of each video index. An index of 0 reads as absent, so such a clip is never found. */
  function ByIndex(clips: seq<Clip>): (newest: map<int, Clip>)
    ensures forall i | i in newest :: newest[i] in clips && newest[i].videoIndex == i != 0
  {
    if clips == [] then map[]
    else
      var front, last := ByIndex(clips[..|clips| - 1]), clips[|clips| - 1];
      if last.uri == "" || last.videoIndex == 0 then front else front[last.videoIndex := last]
  }

  function Upto(count: int): (all: seq<int>)
    ensures forall i :: i in all <==> 0 <= i < count
  {
    if count <= 0 then [] else Upto(count - 1) + [count - 1]
  }

  function Lacking(indices: seq<int>, have: set<int>, force: bool): (lacking: seq<int>)
    ensures forall i :: i in lacking <==> i in indices && (force || i !in have)
  {
    if indices == [] then []
    else if force || indices[0] !in have then [indices[0]] + Lacking(indices[1..], have, force)
    else Lacking(indices[1..], have, force)
  }

  function MissingIndices(s: RunState, order: RepairOrder): seq<int> {
    Lacking(if order.requested.Some? then order.requested.value else Upto(RepairCount(s.manifests)),
            ByIndex(s.clips).Keys, order.force)
  }

  function Resubmitted(missing: seq<int>, newIds: seq<string>): (plan: map<int, string>)
    requires |missing| == |newIds|
    ensures forall i :: i in plan <==> i in missing
    ensures forall i | i in plan :: plan[i] in newIds
  {
    if missing == [] then map[]
    else
      var n := |missing| - 1;
      assert missing == missing[..n] + [missing[n]];
      Resubmitted(missing[..n], newIds[..n])[missing[n] := newIds[n]]
  }

  /** One task for each index: of the clip that is kept, or the newly submitted one. */
  function RepairPlan(s: RunState, order: RepairOrder): map<int, string>
    requires |order.newIds| == |MissingIndices(s, order)|
  {
    var newest, missing := ByIndex(s.clips), MissingIndices(s, order);
    (map i | i in newest && i !in missing && Truthy(newest[i].taskId) :: newest[i].taskId.value) + Resubmitted(missing, order.newIds)
  }

  predicate OneTaskPerIndex(plan: map<int, string>, count: int) {
    && plan.Keys == (set i | i in Upto(count))
    && (forall i, k | i in plan && k in plan && plan[i] == plan[k] :: i == k)
  }

  /** A repair raises, and changes nothing, unless all of this holds. */
  predicate RepairApplies(s: RunState, order: RepairOrder) {
    && s.status in {RunFailed, AwaitingVideoGeneration} && WithContent(s.manifests) != []
    && MissingIndices(s, order) != [] && order.promptsStored
    && |order.newIds| == |MissingIndices(s, order)| && (forall k | 0 <= k < |order.newIds| :: order.newIds[k] != "")
    && OneTaskPerIndex(RepairPlan(s, order), RepairCount(s.manifests))
  }

  /** The tasks of the new manifest, listed by video index. */
  function RepairTasks(s: RunState, order: RepairOrder): (tasks: seq<string>)
    requires RepairApplies(s, order)
    ensures |tasks| == RepairCount(s.manifests)
    ensures forall i | 0 <= i < |tasks| :: i in RepairPlan(s, order) && tasks[i] == RepairPlan(s, order)[i]
  {
    var plan := RepairPlan(s, order);
    seq(RepairCount(s.manifests), i requires 0 <= i < RepairCount(s.manifests) => plan[i])
  }

  function NumberedFromZero(tasks: seq<string>): map<string, int> {
    if tasks == [] then map[]
    else var n := |tasks| - 1; NumberedFromZero(tasks[..n])[tasks[n] := n]
  }

  /** repair_sora_clips replaces the manifest, keeps every stored clip, and puts the run back to waiting. */
  function OnRepair(s: RunState, order: RepairOrder): RunState {
    if !RepairApplies(s, order) then s
    else
      var tasks := RepairTasks(s, order);
      s.(manifests := s.manifests + [Manifest(true, tasks, NumberedFromZero(tasks), |tasks|)],
         pendingTaskIds := tasks, status := AwaitingVideoGeneration)
  }

  /** The rows of one run as the handlers update them; a handler that raises is rolled back. */
  class RunRecord {
    var status: RunStatus
    var clips: seq<Clip>
    var manifests: seq<Manifest>
    var pendingTaskIds: seq<string>
    var jobs: seq<Job>

    constructor (s: RunState)
      ensures State() == s
    {
      status, clips, manifests, pendingTaskIds, jobs := s.status, s.clips, s.manifests, s.pendingTaskIds, s.jobs;
    }

    function State(): RunState
      reads this
    {
      RunState(status, clips, manifests, pendingTaskIds, jobs)
    }

    method StoreTaskMetadata(tasks: seq<string>, indices: map<string, int>)
      modifies this
      ensures State() == OnSubmission(old(State()), tasks, indices)
    {
      manifests := manifests + [Manifest(true, tasks, indices, |tasks|)];
    }

    /** First loop of a repair: later clips replace earlier ones of the same index. */
    method NewestByIndex() returns (newest: map<int, Clip>)
      ensures newest == ByIndex(clips)
    {
      newest := map[];
      for n := 0 to |clips|
        invariant newest == ByIndex(clips[..n])
      {
        assert clips[..n + 1][..n] == clips[..n];
        if clips[n].uri != "" && clips[n].videoIndex != 0 {
          newest := newest[clips[n].videoIndex := clips[n]];
        }
      }
      assert clips[..|clips|] == clips;
    }

    method RepairSoraClips(order: RepairOrder) returns (ok: bool)
      modifies this
      ensures State() == OnRepair(old(State()), order) && ok == old(RepairApplies(State(), order))
    {
      if status !in {RunFailed, AwaitingVideoGeneration} || WithContent(manifests) == [] {
        return false;
      }
      hide RepairPlan, OneTaskPerIndex, NumberedFromZero, Lacking, Upto, WithContent, Resubmitted;
      var count := RepairCount(manifests);
      var newest := NewestByIndex();
      var missing := Lacking(if order.requested.Some? then order.requested.value else Upto(count), newest.Keys, order.force);
      assert missing == MissingIndices(State(), order);
      if missing == [] || !order.promptsStored {
        return false;
      }
      if |order.newIds| != |missing| || !forall k | 0 <= k < |order.newIds| :: order.newIds[k] != "" {
        return false;
      }
      var plan := RepairPlan(State(), order);
      if !OneTaskPerIndex(plan, count) {
        return false;
      }
      var tasks := RepairTasks(State(), order);
      manifests := manifests + [Manifest(true, tasks, NumberedFromZero(tasks), count)];
      pendingTaskIds := tasks;
      status := AwaitingVideoGeneration;
      return true;
    }

    method HandleSoraWebhook(env: Env, ev: SoraEvent, download: Fetched, transcode: Fetched, now: Time)
      returns (ending: Ending)
      modifies this
      ensures Step(State(), ending) == OnSoraWebhook(env, old(State()), ev, download, transcode, now)
    {
      if (ev.code.Some? && ev.code.value != 200) || ev.state == "fail" || ev.eventType == Some("video.failed") {
        status := RunFailed;
        return Returned;
      }
      if ev.videoUrls == [] && ev.eventType != Some("video.completed") {
        return Returned;
      }
      if Truthy(ev.taskId) {
        var i := 0;
        while i < |clips|
          invariant 0 <= i <= |clips| && State() == old(State())
          invariant forall k | 0 <= k < i :: clips[k].taskId != ev.taskId
        {
          if clips[i].taskId == ev.taskId {
            return Returned;
          }
          i := i + 1;
        }
      }
      var original := if ev.videoUrls != [] then ev.videoUrls[0] else "";
      if original == "" && ev.eventType == Some("video.completed") {
        if download.Failure? {
          return Raised;
        }
        original := download.value;
      }
      if original == "" {
        status := RunFailed;
        return Returned;
      }
      if transcode.Failure? {
        return Raised;
      }
      if transcode.value == "" {
        status := RunFailed;
        return Returned;
      }
      clips := clips + [Clip(ev.taskId, transcode.value, ev.videoIndex, "sora")];
      if |clips| >= Expected(manifests) {
        if status == RunFailed {
          return Returned;
        }
        if status == AwaitingVideoGeneration {
          status := AwaitingRender;
        }
        jobs := EnqueueResume(env, jobs, now);
      }
      return Returned;
    }

    method HandleSoraPoll(env: Env, answers: string -> Answer, now: Time) returns (ending: Ending)
      modifies this
      ensures Step(State(), ending) == OnSoraPoll(env, old(State()), answers, now)
    {
      if !env.realProvider || status != AwaitingVideoGeneration {
        return Returned;
      }
      var pending := PendingTasks(State());
      if pending == [] {
        return Raised;
      }
      var polled := PollPending(pending, Indices(WithContent(manifests)), TaskIds(clips), answers);
      if polled.raised {
        return Raised;
      }
      var count := UsableClips(clips) + |polled.clips|;
      clips := clips + polled.clips;
      if polled.failed {
        status := RunFailed;
        return Returned;
      }
      if count >= Expected(WithContent(manifests)) {
        status := AwaitingRender;
        jobs := EnqueueResume(env, jobs, now);
        return Returned;
      }
      return Rescheduled(env.pollInterval + 10.0);
    }
  }

  /** The polling loop: it adds each finished task once, skips the ones already stored, and stops at the first
      failure. */
  method PollPending(pending: seq<string>, indices: map<string, int>, seen: set<string>, answers: string -> Answer)
    returns (polled: Polled)
    ensures polled == PollFrom(pending, indices, seen, answers)
  {
    var existing, added, i := seen, [], 0;
    ghost var whole := PollFrom(pending, indices, seen, answers);
    while i < |pending|
      invariant 0 <= i <= |pending|
      invariant var rest := PollFrom(pending[i..], indices, existing, answers);
                whole == rest.(clips := added + rest.clips)
    {
      var task := pending[i];
      assert pending[i..][0] == task && pending[i..][1..] == pending[i + 1..];
      if task !in existing {
        match answers(task)
        case Unreachable => return Polled(added, false, true);
        case TaskFailed => return Polled(added, true, false);
        case StillRunning =>
        case Delivered(url) =>
          if url.Failure? {
            return Polled(added, false, true);
          }
          if url.value == "" {
            return Polled(added, true, false);
          }
          ghost var rest := PollFrom(pending[i + 1..], indices, existing + {task}, answers);
          var clip := PolledClip(task, url.value, indices);
          assert added + ([clip] + rest.clips) == (added + [clip]) + rest.clips;
          added := added + [clip];
          existing := existing + {task};
      }
      i := i + 1;
    }
    return Polled(added, false, false);
  }
}
