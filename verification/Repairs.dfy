/** What an operator's repair does to a run, told from its clips and manifests, and exactly when it is refused. */
module Repairs {
  import opened Wrappers
  import opened JobTypes
  import opened JobQueue
  import opened FanIn
  import opened FanInTheorems
  import opened PollEndings

  /** Clip c is the newest usable one of index i; a clip of index 0 is never found. */
  ghost predicate IsNewestAt(clips: seq<Clip>, i: int, c: int) {
    && 0 <= c < |clips| && clips[c].uri != "" && clips[c].videoIndex == i != 0
    && forall k | c < k < |clips| :: clips[k].uri == "" || clips[k].videoIndex != i
  }

  lemma ByIndexSnoc(front: seq<Clip>, last: Clip)
    ensures ByIndex(front + [last]) ==
            if last.uri == "" || last.videoIndex == 0 then ByIndex(front) else ByIndex(front)[last.videoIndex := last]
  {
    assert (front + [last])[..|front|] == front;
  }

  lemma {:induction false} NewestIsFound(clips: seq<Clip>, i: int, c: int)
    requires IsNewestAt(clips, i, c)
    ensures 0 <= c < |clips| && i in ByIndex(clips) && ByIndex(clips)[i] == clips[c]
  {
    hide ByIndex;
    var n := |clips| - 1;
    var front, last := clips[..n], clips[n];
    assert clips == front + [last];
    ByIndexSnoc(front, last);
    if c < n {
      assert IsNewestAt(front, i, c);
      NewestIsFound(front, i, c);
    }
  }

  lemma {:induction false} FoundIsNewest(clips: seq<Clip>, i: int) returns (c: int)
    requires i in ByIndex(clips)
    ensures IsNewestAt(clips, i, c)
  {
    assert clips != [];
    hide ByIndex;
    var n := |clips| - 1;
    var front, last := clips[..n], clips[n];
    assert clips == front + [last];
    ByIndexSnoc(front, last);
    if last.uri != "" && last.videoIndex == i {
      c := n;
    } else {
      c := FoundIsNewest(front, i);
      assert forall k | 0 <= k < n :: clips[k] == front[k];
    }
  }

  lemma ByIndexExactly(clips: seq<Clip>, i: int)
    ensures i in ByIndex(clips) <==> exists c :: IsNewestAt(clips, i, c)
    ensures forall c | IsNewestAt(clips, i, c) :: 0 <= c < |clips| && i in ByIndex(clips) && ByIndex(clips)[i] == clips[c]
  {
    hide ByIndex, IsNewestAt;
    forall c | IsNewestAt(clips, i, c) ensures 0 <= c < |clips| && i in ByIndex(clips) && ByIndex(clips)[i] == clips[c] {
      NewestIsFound(clips, i, c);
    }
    if i in ByIndex(clips) {
      var c := FoundIsNewest(clips, i);
    }
  }

  /** The index is asked for, and its clip is made again because there is none or because the operator insists. */
  ghost predicate MadeAgain(s: RunState, order: RepairOrder, count: int, i: int) {
    && (if order.requested.Some? then i in order.requested.value else 0 <= i < count)
    && (order.force || !exists c :: IsNewestAt(s.clips, i, c))
  }

  lemma MissingExactly(s: RunState, order: RepairOrder, i: int)
    ensures i in MissingIndices(s, order) <==> MadeAgain(s, order, RepairCount(s.manifests), i)
  {
    ByIndexExactly(s.clips, i);
  }

  /** The number of tasks the latest manifest with content asks for, where anything below 1 means 1. */
  ghost predicate AsksFor(manifests: seq<Manifest>, count: int) {
    exists m: nat :: IsActive(manifests, m) && count == if manifests[m].taskCount < 1 then 1 else manifests[m].taskCount
  }

  lemma CountExactly(manifests: seq<Manifest>)
    ensures WithContent(manifests) != [] <==> AsksFor(manifests, RepairCount(manifests))
  {
    ActiveIsLast(manifests);
    if WithContent(manifests) != [] {
      var m := LastWithContent(manifests);
      assert IsActive(manifests, m);
    }
    hide WithContent;
  }

  /** What a repair leaves: the clips and jobs as they were, the run waiting, and one more manifest with one task for each
      index: the task of the newest clip, or a newly accepted one where the clip is made again. */
  lemma RepairLeaves(s: RunState, order: RepairOrder)
    requires RepairApplies(s, order)
    ensures var t, count := OnRepair(s, order), RepairCount(s.manifests);
            var tasks := t.pendingTaskIds;
      && AsksFor(s.manifests, count) && |tasks| == count
      && t == s.(status := AwaitingVideoGeneration, pendingTaskIds := tasks, manifests := t.manifests)
      && (forall i | 0 <= i < count && MadeAgain(s, order, count, i) :: tasks[i] in order.newIds)
      && (forall i, c | 0 <= i < count && !MadeAgain(s, order, count, i) && IsNewestAt(s.clips, i, c) ::
            s.clips[c].taskId == Some(tasks[i]))
      && (forall i | 0 <= i < count && !MadeAgain(s, order, count, i) :: exists c :: IsNewestAt(s.clips, i, c))
      && (forall i, k | 0 <= i < k < count :: tasks[i] != tasks[k])
    ensures var t := OnRepair(s, order);
      && |t.manifests| == |s.manifests| + 1 && t.manifests[..|s.manifests|] == s.manifests
      && var latest := t.manifests[|s.manifests|];
         && latest.hasContent && latest.tasks == t.pendingTaskIds && latest.taskCount == |latest.tasks|
         && forall i | 0 <= i < |latest.tasks| :: latest.tasks[i] in latest.indices && latest.indices[latest.tasks[i]] == i
  {
    var count, tasks, plan := RepairCount(s.manifests), RepairTasks(s, order), RepairPlan(s, order);
    CountExactly(s.manifests);
    forall i | 0 <= i < count ensures i in plan && tasks[i] == plan[i] {
    }
    forall i, k | 0 <= i < k < count ensures tasks[i] != tasks[k] {
      assert i in plan && k in plan && plan[i] == tasks[i] && plan[k] == tasks[k];
    }
    NumberedInOrder(tasks);
    forall i | 0 <= i < count
      ensures MadeAgain(s, order, count, i) ==> tasks[i] in order.newIds
      ensures !MadeAgain(s, order, count, i) ==> exists c :: IsNewestAt(s.clips, i, c)
      ensures forall c | !MadeAgain(s, order, count, i) && IsNewestAt(s.clips, i, c) :: s.clips[c].taskId == Some(tasks[i])
    {
      PlanAt(s, order, i);
    }
  }

  lemma PlanAt(s: RunState, order: RepairOrder, i: int)
    requires |order.newIds| == |MissingIndices(s, order)| && i in RepairPlan(s, order)
    ensures MadeAgain(s, order, RepairCount(s.manifests), i) ==> RepairPlan(s, order)[i] in order.newIds
    ensures !MadeAgain(s, order, RepairCount(s.manifests), i) ==> exists c :: IsNewestAt(s.clips, i, c)
    ensures forall c | !MadeAgain(s, order, RepairCount(s.manifests), i) && IsNewestAt(s.clips, i, c) ::
              s.clips[c].taskId == Some(RepairPlan(s, order)[i])
  {
    MissingExactly(s, order, i);
    ByIndexExactly(s.clips, i);
    hide MissingIndices, MadeAgain;
  }

  lemma {:induction false} NumberedInOrder(tasks: seq<string>)
    requires forall i, k | 0 <= i < k < |tasks| :: tasks[i] != tasks[k]
    ensures forall i | 0 <= i < |tasks| :: tasks[i] in NumberedFromZero(tasks) && NumberedFromZero(tasks)[tasks[i]] == i
  {
    if tasks != [] {
      var n := |tasks| - 1;
      NumberedInOrder(tasks[..n]);
      forall i | 0 <= i < n ensures tasks[i] in NumberedFromZero(tasks) && NumberedFromZero(tasks)[tasks[i]] == i {
        assert tasks[..n][i] == tasks[i] != tasks[n];
      }
    }
  }

  /** New tasks go to the indices made again in the order in which these were asked for. */
  lemma NewTasksInOrder(s: RunState, order: RepairOrder, n: nat)
    requires RepairApplies(s, order) && n < |order.newIds|
    requires order.requested.Some? ==> Increasing(order.requested.value)
    ensures var missing := MissingIndices(s, order);
      && 0 <= missing[n] < |OnRepair(s, order).pendingTaskIds|
      && OnRepair(s, order).pendingTaskIds[missing[n]] == order.newIds[n]
      && forall k | 0 <= k < n :: missing[k] < missing[n]
  {
    var missing := MissingIndices(s, order);
    MissingIncreases(s, order);
    ResubmittedAt(missing, order.newIds, n);
    assert missing[n] in missing && missing[n] in RepairPlan(s, order);
    hide MissingIndices;
  }

  ghost predicate Increasing(xs: seq<int>) {
    forall i, k | 0 <= i < k < |xs| :: xs[i] < xs[k]
  }

  lemma {:induction false} UptoIncreases(count: int)
    ensures Increasing(Upto(count))
  {
    if count > 0 {
      UptoIncreases(count - 1);
      var front := Upto(count - 1);
      forall i | 0 <= i < |front| ensures front[i] < count - 1 {
        assert front[i] in front;
      }
    }
  }

  lemma {:induction false} LackingIncreases(indices: seq<int>, have: set<int>, force: bool)
    requires Increasing(indices)
    ensures Increasing(Lacking(indices, have, force))
  {
    if indices != [] {
      var rest := Lacking(indices[1..], have, force);
      LackingIncreases(indices[1..], have, force);
      forall i | 0 <= i < |rest| ensures indices[0] < rest[i] {
        assert rest[i] in rest && rest[i] in indices[1..];
      }
    }
  }

  lemma {:induction false} ResubmittedAt(missing: seq<int>, newIds: seq<string>, n: nat)
    requires |missing| == |newIds| && Increasing(missing) && n < |missing|
    ensures missing[n] in Resubmitted(missing, newIds) && Resubmitted(missing, newIds)[missing[n]] == newIds[n]
  {
    var last := |missing| - 1;
    if n < last {
      ResubmittedAt(missing[..last], newIds[..last], n);
      assert missing[n] < missing[last];
    }
  }

  // ---- when a repair is refused ----

  /** The index keeps the clip it has, whose task is named in the new manifest. */
  ghost predicate Keeps(s: RunState, order: RepairOrder, count: int, i: int, task: string) {
    !MadeAgain(s, order, count, i) && task != "" && exists c :: IsNewestAt(s.clips, i, c) && s.clips[c].taskId == Some(task)
  }

  lemma KeepsExactly(s: RunState, order: RepairOrder, i: int, task: string)
    requires |order.newIds| == |MissingIndices(s, order)|
    ensures Keeps(s, order, RepairCount(s.manifests), i, task) <==>
            i in RepairPlan(s, order) && i !in MissingIndices(s, order) && RepairPlan(s, order)[i] == task
  {
    MissingExactly(s, order, i);
    ByIndexExactly(s.clips, i);
    hide MissingIndices, MadeAgain;
  }

  /** The index gets a task. */
  ghost predicate Covered(s: RunState, order: RepairOrder, count: int, i: int) {
    MadeAgain(s, order, count, i) || exists task :: Keeps(s, order, count, i, task)
  }

  /** Exactly the indices below the count get one. */
  ghost predicate CoversIndices(s: RunState, order: RepairOrder, count: int) {
    forall i :: 0 <= i < count <==> Covered(s, order, count, i)
  }

  /** No task is named twice. */
  ghost predicate TasksDiffer(s: RunState, order: RepairOrder, count: int) {
    && (forall a, b | 0 <= a < b < |order.newIds| :: order.newIds[a] != order.newIds[b])
    && (forall i, task | Keeps(s, order, count, i, task) :: task !in order.newIds)
    && (forall i, k, task | Keeps(s, order, count, i, task) && Keeps(s, order, count, k, task) :: i == k)
  }

  lemma PlanCovers(s: RunState, order: RepairOrder)
    requires |order.newIds| == |MissingIndices(s, order)|
    ensures var count := RepairCount(s.manifests);
      CoversIndices(s, order, count) <==> RepairPlan(s, order).Keys == set i | i in Upto(count)
  {
    var plan, count := RepairPlan(s, order), RepairCount(s.manifests);
    forall i: int ensures i in plan <==> Covered(s, order, count, i) {
      MissingExactly(s, order, i);
      InPlan(s, order, i);
      if i in plan {
        KeepsExactly(s, order, i, plan[i]);
      }
      forall task | Keeps(s, order, count, i, task) ensures i in plan {
        KeepsExactly(s, order, i, task);
      }
    }
    hide RepairPlan, Covered;
    if CoversIndices(s, order, count) {
      assert plan.Keys == set i | i in Upto(count);
    } else {
      var i :| !(0 <= i < count <==> Covered(s, order, count, i));
      assert !(i in plan.Keys <==> i in Upto(count));
    }
  }

  lemma InPlan(s: RunState, order: RepairOrder, i: int)
    requires |order.newIds| == |MissingIndices(s, order)|
    ensures i in MissingIndices(s, order) ==> i in RepairPlan(s, order)
  {
    hide MissingIndices;
  }

  lemma PlannedAgain(s: RunState, order: RepairOrder, n: nat)
    requires |order.newIds| == |MissingIndices(s, order)| && n < |order.newIds| && Increasing(MissingIndices(s, order))
    ensures MissingIndices(s, order)[n] in RepairPlan(s, order)
    ensures RepairPlan(s, order)[MissingIndices(s, order)[n]] == order.newIds[n]
  {
    ResubmittedAt(MissingIndices(s, order), order.newIds, n);
    hide MissingIndices;
  }

  lemma MissingIncreases(s: RunState, order: RepairOrder)
    requires order.requested.Some? ==> Increasing(order.requested.value)
    ensures Increasing(MissingIndices(s, order))
  {
    UptoIncreases(RepairCount(s.manifests));
    LackingIncreases(if order.requested.Some? then order.requested.value else Upto(RepairCount(s.manifests)),
                     ByIndex(s.clips).Keys, order.force);
  }

  /** The same of any plan: new tasks differ, and kept ones from them and from one another. */
  ghost predicate EntriesDiffer(plan: map<int, string>, missing: seq<int>, newIds: seq<string>) {
    && (forall a, b | 0 <= a < b < |newIds| :: newIds[a] != newIds[b])
    && (forall i | i in plan && i !in missing :: plan[i] !in newIds)
    && (forall i, k | i in plan && i !in missing && k in plan && k !in missing && plan[i] == plan[k] :: i == k)
  }

  ghost predicate Injective(plan: map<int, string>) {
    forall i, k | i in plan && k in plan && plan[i] == plan[k] :: i == k
  }

  lemma DifferMeansInjective(plan: map<int, string>, missing: seq<int>, newIds: seq<string>)
    requires |missing| == |newIds| && Increasing(missing)
    requires forall n | 0 <= n < |missing| :: missing[n] in plan && plan[missing[n]] == newIds[n]
    ensures EntriesDiffer(plan, missing, newIds) <==> Injective(plan)
  {
    if EntriesDiffer(plan, missing, newIds) {
      forall i, k | i in plan && k in plan && plan[i] == plan[k] ensures i == k {
        if i in missing && k in missing {
          var a :| 0 <= a < |missing| && missing[a] == i;
          var b :| 0 <= b < |missing| && missing[b] == k;
          assert newIds[a] == newIds[b];
        }
      }
    }
    if Injective(plan) {
      forall a, b | 0 <= a < b < |newIds| ensures newIds[a] != newIds[b] {
        assert missing[a] < missing[b];
      }
      forall i | i in plan && i !in missing ensures plan[i] !in newIds {
        forall n | 0 <= n < |newIds| ensures newIds[n] != plan[i] {
          assert missing[n] in plan && missing[n] in missing && plan[missing[n]] == newIds[n];
        }
      }
    }
  }

  lemma TasksDifferAsEntries(s: RunState, order: RepairOrder)
    requires |order.newIds| == |MissingIndices(s, order)|
    ensures TasksDiffer(s, order, RepairCount(s.manifests)) <==>
            EntriesDiffer(RepairPlan(s, order), MissingIndices(s, order), order.newIds)
  {
    var plan, missing, count := RepairPlan(s, order), MissingIndices(s, order), RepairCount(s.manifests);
    forall i, task ensures Keeps(s, order, count, i, task) <==> i in plan && i !in missing && plan[i] == task {
      KeepsExactly(s, order, i, task);
    }
    hide RepairPlan, MissingIndices, Keeps;
    if TasksDiffer(s, order, count) {
      forall i | i in plan && i !in missing ensures plan[i] !in order.newIds {
        assert Keeps(s, order, count, i, plan[i]);
      }
      forall i, k | i in plan && i !in missing && k in plan && k !in missing && plan[i] == plan[k] ensures i == k {
        assert Keeps(s, order, count, i, plan[i]) && Keeps(s, order, count, k, plan[i]);
      }
    }
  }

  lemma PlanDiffers(s: RunState, order: RepairOrder)
    requires |order.newIds| == |MissingIndices(s, order)| && Increasing(MissingIndices(s, order))
    ensures TasksDiffer(s, order, RepairCount(s.manifests)) <==> Injective(RepairPlan(s, order))
  {
    var missing := MissingIndices(s, order);
    hide RepairPlan, MissingIndices, TasksDiffer, EntriesDiffer, Injective;
    forall n | 0 <= n < |missing|
      ensures missing[n] in RepairPlan(s, order) && RepairPlan(s, order)[missing[n]] == order.newIds[n]
    {
      PlannedAgain(s, order, n);
    }
    TasksDifferAsEntries(s, order);
    DifferMeansInjective(RepairPlan(s, order), missing, order.newIds);
  }

  lemma LacksSomething(s: RunState, order: RepairOrder)
    ensures MissingIndices(s, order) != [] <==> exists i :: MadeAgain(s, order, RepairCount(s.manifests), i)
  {
    var missing, count := MissingIndices(s, order), RepairCount(s.manifests);
    forall i: int ensures i in missing <==> MadeAgain(s, order, count, i) {
      MissingExactly(s, order, i);
    }
    hide MissingIndices, MadeAgain;
    if missing != [] {
      assert missing[0] in missing;
      assert MadeAgain(s, order, count, missing[0]);
    }
  }

  /** A repair is refused, and changes nothing, unless the run has failed or waits, has a manifest with content and its
      prompts, lacks something, gets a task for each clip to be made, and then has one task of its own for each index. */
  lemma RepairAppliesExactly(s: RunState, order: RepairOrder)
    requires order.requested.Some? ==> Increasing(order.requested.value)
    ensures var count := RepairCount(s.manifests);
      RepairApplies(s, order) <==>
      && s.status in {RunFailed, AwaitingVideoGeneration} && AsksFor(s.manifests, count) && order.promptsStored
      && (exists i :: MadeAgain(s, order, count, i))
      && |order.newIds| == |MissingIndices(s, order)| && "" !in order.newIds
      && CoversIndices(s, order, count) && TasksDiffer(s, order, count)
    ensures !RepairApplies(s, order) ==> OnRepair(s, order) == s
  {
    CountExactly(s.manifests);
    LacksSomething(s, order);
    MissingIncreases(s, order);
    if |order.newIds| == |MissingIndices(s, order)| {
      PlanCovers(s, order);
      PlanDiffers(s, order);
    }
    hide MissingIndices, MadeAgain, CoversIndices, TasksDiffer, RepairPlan, AsksFor, Upto, WithContent, RepairCount,
      Increasing, RepairTasks, NumberedFromZero;
  }
}
