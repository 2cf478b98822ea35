/** From a paid submission to the release of its run: the manifest one component stores is the one the other reads. */
module SubmissionToRelease {
  import opened Wrappers
  import opened SetFacts
  import opened JobTypes
  import opened JobQueue
  import opened FanIn
  import opened FanInTheorems
  import opened FanInTasks
  import opened FanInConfluence
  import PollEndings
  import Sora = SoraSubmission

  /** A stored clip manifest as the handlers read it: its content is the task metadata, its task_count their number. */
  function AsRead(m: Sora.Manifest): Manifest {
    Manifest(true, m.taskIds, IndicesOf(m.meta), |m.taskIds|)
  }

  function IndicesOf(meta: map<string, Sora.TaskMeta>): map<string, int> {
    map t | t in meta :: meta[t].videoIndex
  }

  /** The manifest that a first request of its key leaves. */
  function StoredBy(r: Sora.Request): Sora.Manifest {
    var ids := Sora.TaskIds(r.key, r.responses);
    Sora.Manifest(r.key, Sora.Keys(ids), Sora.MetaOf(r.key, ids))
  }

  /** The manifests of one run, as the handlers read them. */
  function ReadManifests(stored: seq<Sora.Manifest>, runId: string): (read: seq<Manifest>)
    ensures forall i | 0 <= i < |read| :: read[i].hasContent && read[i].taskCount == |read[i].tasks|
  {
    if stored == [] then []
    else
      var last := stored[|stored| - 1];
      ReadManifests(stored[..|stored| - 1], runId) + if last.key.runId == runId then [AsRead(last)] else []
  }

  /** A request of another run changes nothing about this run's manifests; one of this run leaves at most one more. */
  lemma RequestsOfOtherRuns(requests: seq<Sora.Request>, r: Sora.Request, runId: string)
    ensures var before := ReadManifests(Sora.ManifestsAfter(requests), runId);
            var after := ReadManifests(Sora.ManifestsAfter(requests + [r]), runId);
      && (r.key.runId != runId ==> after == before)
      && (r.key.runId == runId ==> after == before || after == before + [AsRead(StoredBy(r))])
  {
    var stored := Sora.ManifestsAfter(requests);
    assert (requests + [r])[..|requests|] == requests;
    assert (stored + [StoredBy(r)])[..|stored|] == stored;
    assert ReadManifests(stored + [StoredBy(r)], runId) ==
           ReadManifests(stored, runId) + if r.key.runId == runId then [AsRead(StoredBy(r))] else [];
    hide ReadManifests;
  }

  // ---- the producer node ----

  /** The tool's replies in one turn of the producer, one for each request it made. */
  function Replies(before: seq<Sora.Request>, turn: seq<Sora.Request>): seq<Sora.Reply> {
    seq(|turn|, i requires 0 <= i < |turn| => Sora.LastReply(before + turn[..i + 1]))
  }

  /** The node reads the replies in order: an error is remembered and reading goes on, task ids end it. */
  datatype Reading = Reading(error: bool, taskIds: Option<seq<string>>)

  function Read(replies: seq<Sora.Reply>): Reading {
    if replies == [] then Reading(false, None)
    else if replies[0].Stopped? then Read(replies[1..]).(error := true)
    else Reading(false, Some(replies[0].taskIds))
  }

  /** A turn fails its run exactly when its first reply is an error, whatever later replies in it say. */
  lemma TurnFailsExactly(replies: seq<Sora.Reply>)
    requires replies != []
    ensures Read(replies).error <==> replies[0].Stopped?
    ensures !Read(replies).error ==> Read(replies).taskIds == Some(replies[0].taskIds)
  {
  }

  /** What the producer node leaves. Without any reply it falls back on the run's first manifest. No delivery is handled
      between the tool's own commits and this one. */
  function AfterTurn(run: RunState, before: seq<Sora.Request>, turn: seq<Sora.Request>, runId: string): RunState {
    var manifests := ReadManifests(Sora.ManifestsAfter(before + turn), runId);
    var reading := Read(Replies(before, turn));
    var known := run.(manifests := manifests);
    if reading.error then known.(status := RunFailed)
    else if reading.taskIds.Some? then known.(status := AwaitingVideoGeneration, pendingTaskIds := reading.taskIds.value)
    else if manifests != [] && manifests[0].tasks != [] then
      known.(status := AwaitingVideoGeneration, pendingTaskIds := manifests[0].tasks)
    else known.(status := RunFailed)
  }

  /** The provider accepted at least one video and never gave the same id twice. */
  ghost predicate Accepted(r: Sora.Request) {
    Sora.Keeps(r) && Sora.TaskIds(r.key, r.responses) != [] && Sora.Distinct(Sora.TaskIds(r.key, r.responses))
  }

  /** The latest manifest of the run is the one that r left. */
  predicate IsLatest(r: Sora.Request, requests: seq<Sora.Request>) {
    var read := ReadManifests(Sora.ManifestsAfter(requests), r.key.runId);
    read != [] && read[|read| - 1] == AsRead(StoredBy(r))
  }

  /** A turn whose first request is that of r, or a retry of it: `later` is what came after r, up to that request. */
  ghost predicate TurnOf(before: seq<Sora.Request>, turn: seq<Sora.Request>, earlier: seq<Sora.Request>, r: Sora.Request,
                         later: seq<Sora.Request>) {
    && turn != [] && before + [turn[0]] == earlier + [r] + later && turn[0].key == r.key
    && Accepted(r) && !Sora.Stored(Sora.ManifestsAfter(earlier), r.key) && IsLatest(r, before + turn)
  }

  /** A run with no resume job yet whose clips, if any, are of these tasks and not of all of them. */
  ghost predicate Short(env: Env, run: RunState, tasks: seq<string>) {
    && OneClipPerTask(run.clips) && HasUris(run.clips) && Tagged(run.clips, tasks) && |run.clips| < |tasks|
    && UniqueKeys(run.jobs) && !HasResume(env, run.jobs)
  }

  lemma FirstReplyOfTurn(before: seq<Sora.Request>, turn: seq<Sora.Request>, earlier: seq<Sora.Request>, r: Sora.Request,
                         later: seq<Sora.Request>)
    requires TurnOf(before, turn, earlier, r, later)
    ensures Replies(before, turn)[0] == Sora.LastReply(earlier + [r] + later)
    ensures later != [] ==> later[|later| - 1].key == r.key
  {
    assert turn[..1] == [turn[0]];
    var all := earlier + [r] + later;
    assert all[|all| - 1] == turn[0];
    if later != [] {
      assert all[|all| - 1] == later[|later| - 1];
    }
  }

  /** The run a turn leaves: FAILED when its first reply is an error, else waiting for the tasks of that reply; without any
      reply it waits for those of its oldest manifest, whatever was submitted since, and fails when there are none. */
  lemma TurnLeavesExactly(run: RunState, before: seq<Sora.Request>, turn: seq<Sora.Request>, runId: string)
    ensures var after, read := AfterTurn(run, before, turn, runId), ReadManifests(Sora.ManifestsAfter(before + turn), runId);
      && after == run.(status := after.status, pendingTaskIds := after.pendingTaskIds, manifests := read)
      && (after.status != AwaitingVideoGeneration ==> after.status == RunFailed && after.pendingTaskIds == run.pendingTaskIds)
      && (turn != [] ==>
            && (after.status == RunFailed <==> Sora.LastReply(before + [turn[0]]).Stopped?)
            && (after.status != RunFailed ==> after.pendingTaskIds == Sora.LastReply(before + [turn[0]]).taskIds))
      && (turn == [] ==>
            && (after.status == RunFailed <==> read == [] || read[0].tasks == [])
            && (after.status != RunFailed ==> after.pendingTaskIds == read[0].tasks))
  {
    if turn != [] {
      assert turn[..1] == [turn[0]];
      TurnFailsExactly(Replies(before, turn));
    }
    hide Sora.LastReply, Read;
    assert turn == [] ==> Replies(before, turn) == [];
    NothingRead();
  }

  lemma NothingRead()
    ensures Read([]) == Reading(false, None)
  {
  }

  /** A turn leaves a run that has failed, or that waits for exactly the tasks the provider accepted. */
  lemma SubmissionLeavesWaitingRun(env: Env, run: RunState, before: seq<Sora.Request>, turn: seq<Sora.Request>,
                                   earlier: seq<Sora.Request>, r: Sora.Request, later: seq<Sora.Request>)
    requires TurnOf(before, turn, earlier, r, later) && Short(env, run, Sora.TaskIds(r.key, r.responses))
    ensures var after := AfterTurn(run, before, turn, r.key.runId);
      if Sora.LastReply(earlier + [r]).Stopped? && later == [] then after.status == RunFailed
      else Waiting(env, after, Sora.TaskIds(r.key, r.responses))
  {
    var ids := Sora.TaskIds(r.key, r.responses);
    FirstReplyOfTurn(before, turn, earlier, r, later);
    TurnFailsExactly(Replies(before, turn));
    StoppedExactly(earlier, r, later);
    ReplyNamesAccepted(earlier, r, later);
    Sora.DistinctKeys(ids);
    NamesAreDistinct(r);
    hide Sora.Served, Sora.FirstStored, Sora.MetaOf, Sora.ManifestsAfter, Sora.LastReply, Replies, Read;
  }

  lemma ReplyNamesAccepted(earlier: seq<Sora.Request>, r: Sora.Request, later: seq<Sora.Request>)
    requires Accepted(r) && !Sora.Stored(Sora.ManifestsAfter(earlier), r.key)
    requires later != [] ==> later[|later| - 1].key == r.key
    ensures var reply := Sora.LastReply(earlier + [r] + later);
      reply.Reply? ==> reply.taskIds == Sora.TaskIds(r.key, r.responses)
  {
    hide Sora.TaskIds, Sora.MetaOf, Sora.Distinct, Sora.Served, Sora.LastReply, Sora.ManifestsAfter;
    if later == [] {
      assert earlier + [r] + later == earlier + [r];
      FirstReplyNames(earlier, r);
    } else {
      Sora.LaterRequestsReplay(earlier, r, later);
    }
  }

  lemma FirstReplyNames(earlier: seq<Sora.Request>, r: Sora.Request)
    requires !Sora.Stored(Sora.ManifestsAfter(earlier), r.key)
    ensures var reply := Sora.LastReply(earlier + [r]);
      reply.Reply? ==> reply.taskIds == Sora.TaskIds(r.key, r.responses)
  {
    hide Sora.TaskIds, Sora.MetaOf, Sora.Stored, Sora.ManifestsAfter;
    assert (earlier + [r])[..|earlier|] == earlier;
  }

  lemma NamesAreDistinct(r: Sora.Request)
    requires Accepted(r)
    ensures DistinctNamed(Sora.TaskIds(r.key, r.responses))
  {
    var ids := Sora.TaskIds(r.key, r.responses);
    forall i | 0 <= i < |ids| ensures ids[i] != "" {
      assert ids[i] == r.responses[i].value;
    }
  }

  lemma StoppedExactly(earlier: seq<Sora.Request>, r: Sora.Request, later: seq<Sora.Request>)
    requires Accepted(r) && !Sora.Stored(Sora.ManifestsAfter(earlier), r.key)
    requires later != [] ==> later[|later| - 1].key == r.key
    ensures |Sora.TaskIds(r.key, r.responses)| < |r.key.videos| <==> Sora.LastReply(earlier + [r]).Stopped?
    ensures Sora.LastReply(earlier + [r] + later).Stopped? <==> Sora.LastReply(earlier + [r]).Stopped? && later == []
  {
    assert (earlier + [r])[..|earlier|] == earlier;
    if later == [] {
      assert earlier + [r] + later == earlier + [r];
    } else {
      Sora.LaterRequestsReplay(earlier, r, later);
    }
  }

  // ---- to the release ----

  lemma ReleasedRunIsFull(env: Env, start: RunState, tasks: seq<string>, ds: seq<Delivery>)
    requires Waiting(env, start, tasks) && AllSuccessful(ds, tasks)
    ensures var run := DeliverAll(env, start, ds);
      && (run.status == AwaitingRender <==>
            forall i | 0 <= i < |tasks| :: tasks[i] in TaskIds(start.clips) + CoveredBy(env, ds, tasks))
      && (run.status == AwaitingRender ==> |run.clips| == |tasks| && TaskIds(run.clips) == set t | t in tasks)
  {
    hide Canonical, Collecting;
    var done, run := CoveredBy(env, ds, tasks), DeliverAll(env, start, ds);
    DeliveriesAreCanonical(env, start, tasks, ds);
    ReleasedWhenAllStored(env, start, tasks, done, run);
    hide Waiting, TaskIds;
    if Complete(start, tasks, done) {
      AllStored(env, start, tasks, done, run);
    }
  }

  lemma FailedRunIsNotReleased(env: Env, start: RunState, tasks: seq<string>, ds: seq<Delivery>)
    requires start.status == RunFailed && AllSuccessful(ds, tasks)
    ensures DeliverAll(env, start, ds).status == RunFailed && DeliverAll(env, start, ds).jobs == start.jobs
  {
    forall k: nat | k < |ds| ensures !ds[k].Repaired? {
      assert Successful(ds[k], tasks);
    }
    FailedUntil(env, start, ds, |ds|);
    assert ds[..|ds|] == ds;
  }

  /** End to end, over a submission, its retries and one turn of the producer: a turn that begins with a submission that
      stops part-way fails its run, which no delivery releases, even if the turn goes on to retry it. Any other turn that
      begins with the request leaves a run that is released exactly when every accepted submission has a clip, one for
      each. It is then short of the videos asked for exactly when the first submission had stopped. */
  lemma ReleasedExactly(env: Env, run: RunState, before: seq<Sora.Request>, turn: seq<Sora.Request>,
                        earlier: seq<Sora.Request>, r: Sora.Request, later: seq<Sora.Request>, ds: seq<Delivery>)
    requires TurnOf(before, turn, earlier, r, later) && Short(env, run, Sora.TaskIds(r.key, r.responses))
    requires AllSuccessful(ds, Sora.TaskIds(r.key, r.responses))
    ensures var ids := Sora.TaskIds(r.key, r.responses);
            var last := DeliverAll(env, AfterTurn(run, before, turn, r.key.runId), ds);
      if Sora.LastReply(earlier + [r]).Stopped? && later == [] then last.status == RunFailed && last.jobs == run.jobs
      else
        && (last.status == AwaitingRender <==>
              forall i | 0 <= i < |ids| :: ids[i] in TaskIds(run.clips) + CoveredBy(env, ds, ids))
        && (last.status == AwaitingRender ==> |last.clips| == |ids| && TaskIds(last.clips) == set t | t in ids)
    ensures |Sora.TaskIds(r.key, r.responses)| < |r.key.videos| <==> Sora.LastReply(earlier + [r]).Stopped?
  {
    var ids := Sora.TaskIds(r.key, r.responses);
    var after := AfterTurn(run, before, turn, r.key.runId);
    SubmissionLeavesWaitingRun(env, run, before, turn, earlier, r, later);
    FirstReplyOfTurn(before, turn, earlier, r, later);
    StoppedExactly(earlier, r, later);
    TurnKeepsRest(run, before, turn, r.key.runId);
    hide AfterTurn, Waiting, Replies, Read, TurnOf, Sora.LastReply;
    if after.status == RunFailed {
      FailedRunIsNotReleased(env, after, ids, ds);
    } else {
      ReleasedRunIsFull(env, after, ids, ds);
    }
  }

  lemma TurnKeepsRest(run: RunState, before: seq<Sora.Request>, turn: seq<Sora.Request>, runId: string)
    ensures AfterTurn(run, before, turn, runId).clips == run.clips && AfterTurn(run, before, turn, runId).jobs == run.jobs
    ensures AfterTurn(run, before, turn, runId).manifests == ReadManifests(Sora.ManifestsAfter(before + turn), runId)
    ensures AfterTurn(run, before, turn, runId).status in {RunFailed, AwaitingVideoGeneration}
  {
  }

  /** An operator's repair of the failed run does not ask for the missing videos either: it ends up with only as many
      tasks as had been accepted. */
  lemma RepairStaysShort(run: RunState, before: seq<Sora.Request>, turn: seq<Sora.Request>, r: Sora.Request,
                         order: RepairOrder)
    requires Accepted(r) && IsLatest(r, before + turn)
    ensures var failed := AfterTurn(run, before, turn, r.key.runId);
      RepairApplies(failed, order) ==> |RepairTasks(failed, order)| == |Sora.TaskIds(r.key, r.responses)|
  {
    Sora.DistinctKeys(Sora.TaskIds(r.key, r.responses));
    var failed := AfterTurn(run, before, turn, r.key.runId);
    TurnKeepsRest(run, before, turn, r.key.runId);
    hide AfterTurn, RepairApplies;
    ManifestsAgree(failed.manifests);
  }

  // ---- video indices ----

  /** The index the latest manifest gives each task. */
  function Active(s: RunState): map<string, int> {
    if s.manifests == [] then map[] else s.manifests[|s.manifests| - 1].indices
  }

  ghost predicate ClipsIndexed(clips: seq<Clip>, indices: map<string, int>) {
    forall i | 0 <= i < |clips| && Truthy(clips[i].taskId) && clips[i].taskId.value in indices ::
      clips[i].videoIndex == indices[clips[i].taskId.value]
  }

  lemma {:induction false} PollIndexes(pending: seq<string>, indices: map<string, int>, seen: set<string>,
                                       answers: string -> Answer)
    ensures ClipsIndexed(PollFrom(pending, indices, seen, answers).clips, indices)
  {
    if pending != [] {
      PollIndexes(pending[1..], indices, seen, answers);
      PollIndexes(pending[1..], indices, seen + {pending[0]}, answers);
    }
  }

  /** A webhook event that came through the route while the run had these manifests, without metadata of its own. */
  ghost predicate CameThrough(manifests: seq<Manifest>, ev: SoraEvent) {
    exists raw: SoraEvent :: Routed(manifests, raw, None) == Some(ev)
  }

  /** Deliveries proper: polls, and events that came through the route. */
  ghost predicate FromOutside(manifests: seq<Manifest>, ds: seq<Delivery>) {
    forall i | 0 <= i < |ds| :: ds[i].Poll? || (ds[i].Webhook? && CameThrough(manifests, ds[i].ev))
  }

  /** The route lets an event through exactly when it names no task or one of the latest manifest with content, and gives
      it the index of its own metadata, else that of its task, else 0. */
  lemma RoutedExactly(manifests: seq<Manifest>, ev: SoraEvent, own: Option<int>)
    ensures var out := Routed(manifests, ev, own);
      && (out.Some? <==> !Truthy(ev.taskId)
                         || exists m: nat :: PollEndings.IsActive(manifests, m) && ev.taskId.value in manifests[m].indices)
      && (out.Some? ==> out.value == ev.(videoIndex := out.value.videoIndex))
      && (out.Some? && own.Some? ==> out.value.videoIndex == own.value)
      && (out.Some? && own.None? && !Truthy(ev.taskId) ==> out.value.videoIndex == 0)
      && (out.Some? && own.None? && Truthy(ev.taskId) ==>
            forall m: nat | PollEndings.IsActive(manifests, m) ::
              ev.taskId.value in manifests[m].indices && out.value.videoIndex == manifests[m].indices[ev.taskId.value])
  {
    PollEndings.ActiveIsLast(manifests);
    if WithContent(manifests) != [] {
      var m := PollEndings.LastWithContent(manifests);
      assert PollEndings.IsActive(manifests, m);
    }
    hide WithContent;
  }

  /** The route gives every event the index of its task. */
  lemma RoutedIsIndexed(manifests: seq<Manifest>, ev: SoraEvent)
    requires HaveContent(manifests) && CameThrough(manifests, ev) && Truthy(ev.taskId)
    ensures manifests != [] && ev.taskId.value in manifests[|manifests| - 1].indices
    ensures ev.videoIndex == manifests[|manifests| - 1].indices[ev.taskId.value]
  {
    ManifestsAgree(manifests);
    var raw: SoraEvent :| Routed(manifests, raw, None) == Some(ev);
    hide WithContent, HaveContent;
    assert ev == raw.(videoIndex := ev.videoIndex);
  }

  lemma PollStepIndexes(env: Env, before: RunState, d: Delivery)
    requires d.Poll? && HaveContent(before.manifests) && ClipsIndexed(before.clips, Active(before))
    ensures Deliver(env, before, d).manifests == before.manifests
    ensures ClipsIndexed(Deliver(env, before, d).clips, Active(before))
  {
    ManifestsAgree(before.manifests);
    var polled := PollFrom(PendingTasks(before), Active(before), TaskIds(before.clips), d.answers).clips;
    PollIndexes(PendingTasks(before), Active(before), TaskIds(before.clips), d.answers);
    TogetherIndexed(before.clips, polled, Active(before));
    hide PollFrom, PendingTasks, WithContent, TaskIds, HaveContent, ClipsIndexed;
    assert Indices(before.manifests) == Active(before);
    assert Deliver(env, before, d).clips == before.clips || Deliver(env, before, d).clips == before.clips + polled;
  }

  lemma TogetherIndexed(older: seq<Clip>, newer: seq<Clip>, indices: map<string, int>)
    requires ClipsIndexed(older, indices) && ClipsIndexed(newer, indices)
    ensures ClipsIndexed(older + newer, indices)
  {
  }

  lemma WebhookStepIndexes(env: Env, before: RunState, d: Delivery)
    requires d.Webhook? && CameThrough(before.manifests, d.ev)
    requires HaveContent(before.manifests) && ClipsIndexed(before.clips, Active(before))
    ensures Deliver(env, before, d).manifests == before.manifests
    ensures ClipsIndexed(Deliver(env, before, d).clips, Active(before))
  {
    hide HaveContent, CameThrough;
    if Truthy(d.ev.taskId) {
      RoutedIsIndexed(before.manifests, d.ev);
    }
  }

  lemma ClipStepIndexes(env: Env, before: RunState, d: Delivery)
    requires HaveContent(before.manifests) && ClipsIndexed(before.clips, Active(before))
    requires d.Poll? || (d.Webhook? && CameThrough(before.manifests, d.ev))
    ensures Deliver(env, before, d).manifests == before.manifests
    ensures ClipsIndexed(Deliver(env, before, d).clips, Active(before))
  {
    hide *;
    if d.Poll? {
      PollStepIndexes(env, before, d);
    } else {
      WebhookStepIndexes(env, before, d);
    }
  }

  /** Whatever is delivered, in any order and by either handler, clips keep the index of their task. */
  lemma {:induction false} DeliveriesKeepIndices(env: Env, start: RunState, ds: seq<Delivery>)
    requires HaveContent(start.manifests) && FromOutside(start.manifests, ds) && ClipsIndexed(start.clips, Active(start))
    ensures DeliverAll(env, start, ds).manifests == start.manifests
    ensures ClipsIndexed(DeliverAll(env, start, ds).clips, Active(start))
  {
    if ds != [] {
      hide Deliver, ClipsIndexed, HaveContent;
      var n := |ds| - 1;
      DeliveriesKeepIndices(env, start, ds[..n]);
      ClipStepIndexes(env, DeliverAll(env, start, ds[..n]), ds[n]);
    }
  }

  /** So each clip of the run carries the index of the very video it was paid for. */
  lemma ClipsCarrySubmittedIndex(env: Env, start: RunState, requests: seq<Sora.Request>, r: Sora.Request,
                                 ds: seq<Delivery>, c: nat, i: nat)
    requires Accepted(r) && IsLatest(r, requests)
    requires start.manifests == ReadManifests(Sora.ManifestsAfter(requests), r.key.runId)
    requires FromOutside(start.manifests, ds) && ClipsIndexed(start.clips, Active(start))
    requires i < |Sora.TaskIds(r.key, r.responses)| && c < |DeliverAll(env, start, ds).clips|
    requires DeliverAll(env, start, ds).clips[c].taskId == Some(Sora.TaskIds(r.key, r.responses)[i])
    ensures var v, index := r.key.videos[i], DeliverAll(env, start, ds).clips[c].videoIndex;
      && index == Sora.CoerceVideoIndex(v, i)
      && (v.videoIndex.Some? && v.videoIndex.value != 0 ==> index == v.videoIndex.value)
      && ((forall k | 0 <= k < 4 :: Sora.IndexFields(v)[k] in {None, Some(0)}) ==> index == i)
  {
    var ids := Sora.TaskIds(r.key, r.responses);
    Sora.MetaOfDistinct(r.key, ids, i);
    DeliveriesKeepIndices(env, start, ds);
    assert ids[i] == r.responses[i].value != "";
    Sora.IndexExactly(r.key.videos[i], i, Sora.CoerceVideoIndex(r.key.videos[i], i));
  }
}
