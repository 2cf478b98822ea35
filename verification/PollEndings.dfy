/** How a poll ends, told from the run and the provider's answers, and what becomes of the job that polls. */
module PollEndings {
  import opened Wrappers
  import opened SetFacts
  import opened JobTypes
  import opened JobQueue
  import opened FanIn
  import opened FanInTheorems
  import opened FanInConfluence

  /** The provider cannot be reached, or fetching or transcoding a finished clip raises. */
  predicate Raises(a: Answer) {
    a.Unreachable? || (a.Delivered? && a.transcoded.Failure?)
  }

  /** The task has failed, or its clip transcodes to nothing. */
  predicate Fails(a: Answer) {
    a.TaskFailed? || (a.Delivered? && a.transcoded == Success(""))
  }

  /** The first task without a clip whose answer stops the poll. */
  ghost predicate StopsAt(pending: seq<string>, stored: set<string>, answers: string -> Answer, i: nat) {
    && i < |pending| && pending[i] !in stored && (Raises(answers(pending[i])) || Fails(answers(pending[i])))
    && forall k | 0 <= k < i && pending[k] !in stored :: !Raises(answers(pending[k])) && !Fails(answers(pending[k]))
  }

  ghost predicate StopsRaising(pending: seq<string>, stored: set<string>, answers: string -> Answer) {
    exists i: nat :: StopsAt(pending, stored, answers, i) && Raises(answers(pending[i]))
  }

  ghost predicate StopsFailing(pending: seq<string>, stored: set<string>, answers: string -> Answer) {
    exists i: nat :: StopsAt(pending, stored, answers, i) && Fails(answers(pending[i]))
  }

  /** The tasks that have no clip yet and whose clip is ready. */
  function ReadyTasks(pending: seq<string>, stored: set<string>, answers: string -> Answer): set<string> {
    set t | t in pending && t !in stored && Ready(answers(t))
  }

  lemma StopsLater(pending: seq<string>, stored: set<string>, more: set<string>, answers: string -> Answer)
    requires pending != [] && (pending[0] in stored || !(Raises(answers(pending[0])) || Fails(answers(pending[0]))))
    requires forall t | t in more :: !Raises(answers(t)) && !Fails(answers(t))
    ensures StopsRaising(pending, stored, answers) <==> StopsRaising(pending[1..], stored + more, answers)
    ensures StopsFailing(pending, stored, answers) <==> StopsFailing(pending[1..], stored + more, answers)
  {
    var rest := pending[1..];
    forall i: nat | StopsAt(rest, stored + more, answers, i) ensures StopsAt(pending, stored, answers, i + 1) {
      forall k | 0 <= k < i + 1 && pending[k] !in stored ensures !Raises(answers(pending[k])) && !Fails(answers(pending[k])) {
        if k > 0 && pending[k] !in more {
          assert rest[k - 1] == pending[k];
        }
      }
    }
    forall i: nat | StopsAt(pending, stored, answers, i) ensures i > 0 && StopsAt(rest, stored + more, answers, i - 1) {
      forall k | 0 <= k < i - 1 && rest[k] !in stored + more ensures !Raises(answers(rest[k])) && !Fails(answers(rest[k])) {
        assert rest[k] == pending[k + 1];
      }
    }
  }

  lemma StopsAtOnce(pending: seq<string>, stored: set<string>, answers: string -> Answer)
    requires pending != [] && pending[0] !in stored && (Raises(answers(pending[0])) || Fails(answers(pending[0])))
    ensures StopsRaising(pending, stored, answers) <==> Raises(answers(pending[0]))
    ensures StopsFailing(pending, stored, answers) <==> Fails(answers(pending[0]))
  {
    assert StopsAt(pending, stored, answers, 0);
  }

  lemma StoredFirst(pending: seq<string>, indices: map<string, int>, stored: set<string>, answers: string -> Answer)
    requires pending != [] && (pending[0] in stored || !(Raises(answers(pending[0])) || Fails(answers(pending[0]))))
    ensures var rest, task := pending[1..], pending[0];
            var first := task !in stored && Ready(answers(task));
            var more := PollFrom(rest, indices, if first then stored + {task} else stored, answers);
            var polled := PollFrom(pending, indices, stored, answers);
      && polled.raised == more.raised && polled.failed == more.failed
      && |polled.clips| == |more.clips| + (if first then 1 else 0)
      && (first ==> HasClip(polled.clips, task))
      && forall t | HasClip(more.clips, t) :: HasClip(polled.clips, t)
  {
    var rest, task := pending[1..], pending[0];
    var first := task !in stored && Ready(answers(task));
    var more := PollFrom(rest, indices, if first then stored + {task} else stored, answers);
    var polled := PollFrom(pending, indices, stored, answers);
    var skipped := if first then 1 else 0;
    assert polled.clips[skipped..] == more.clips;
    forall t | HasClip(more.clips, t) ensures HasClip(polled.clips, t) {
      var i :| 0 <= i < |more.clips| && more.clips[i].taskId == Some(t);
      assert polled.clips[i + skipped] == more.clips[i];
    }
    if first {
      assert polled.clips[0].taskId == Some(task);
    }
  }

  lemma PassAtOnce(pending: seq<string>, indices: map<string, int>, stored: set<string>, answers: string -> Answer)
    requires pending == [] || (pending[0] !in stored && (Raises(answers(pending[0])) || Fails(answers(pending[0]))))
    ensures PollFrom(pending, indices, stored, answers) ==
            Polled([], pending != [] && Fails(answers(pending[0])), pending != [] && Raises(answers(pending[0])))
  {
  }

  lemma ReadyLater(pending: seq<string>, stored: set<string>, now: set<string>, answers: string -> Answer)
    requires pending != [] && now == if pending[0] !in stored && Ready(answers(pending[0])) then {pending[0]} else {}
    ensures ReadyTasks(pending, stored, answers) == ReadyTasks(pending[1..], stored + now, answers) + now
    ensures |ReadyTasks(pending, stored, answers)| == |ReadyTasks(pending[1..], stored + now, answers)| + |now|
  {
    var task, rest := pending[0], pending[1..];
    assert pending == [task] + rest;
    assert ReadyTasks(pending, stored, answers) == ReadyTasks(rest, stored + now, answers) + now;
    assert ReadyTasks(rest, stored + now, answers) !! now;
  }

  /** The pass over the pending tasks raises or fails as its first stopping task does; otherwise it stores one clip for
      each ready task. */
  lemma {:induction false} PassExactly(pending: seq<string>, indices: map<string, int>, stored: set<string>,
                                       answers: string -> Answer)
    ensures var polled := PollFrom(pending, indices, stored, answers);
      && (polled.raised <==> StopsRaising(pending, stored, answers))
      && (polled.failed <==> StopsFailing(pending, stored, answers))
      && (!polled.raised && !polled.failed ==> |polled.clips| == |ReadyTasks(pending, stored, answers)|)
  {
    hide PollFrom;
    if pending == [] {
      PassAtOnce(pending, indices, stored, answers);
      assert ReadyTasks(pending, stored, answers) == {};
    } else {
      hide StopsRaising, StopsFailing, ReadyTasks;
      var task, rest := pending[0], pending[1..];
      if task !in stored && (Raises(answers(task)) || Fails(answers(task))) {
        StopsAtOnce(pending, stored, answers);
        PassAtOnce(pending, indices, stored, answers);
      } else {
        var now := if task !in stored && Ready(answers(task)) then {task} else {};
        StopsLater(pending, stored, now, answers);
        ReadyLater(pending, stored, now, answers);
        StoredFirst(pending, indices, stored, answers);
        hide HasClip, Raises, Fails, Ready;
        assert stored + {} == stored;
        PassExactly(rest, indices, stored + now, answers);
      }
    }
  }

  /** The pass gets as far as position n: nothing before it stops it, and it is the end or is where the pass stops. */
  ghost predicate GetsTo(pending: seq<string>, stored: set<string>, answers: string -> Answer, n: nat) {
    && n <= |pending| && (n == |pending| || StopsAt(pending, stored, answers, n))
    && forall k | 0 <= k < n && pending[k] !in stored :: !Raises(answers(pending[k])) && !Fails(answers(pending[k]))
  }

  lemma GetsFurther(pending: seq<string>, stored: set<string>, now: set<string>, answers: string -> Answer, n: nat)
    requires GetsTo(pending, stored, answers, n) && n > 0
    requires now == if pending[0] !in stored && Ready(answers(pending[0])) then {pending[0]} else {}
    ensures GetsTo(pending[1..], stored + now, answers, n - 1)
    ensures pending[0] in stored || !(Raises(answers(pending[0])) || Fails(answers(pending[0])))
  {
    assert forall k | 0 <= k < |pending[1..]| :: pending[1..][k] == pending[k + 1];
  }

  /** Of the tasks before the one that stops it, or of all when none does, a pass that does not raise stores one clip for
      each ready one, even when it then fails. */
  lemma {:induction false} PassStores(pending: seq<string>, indices: map<string, int>, stored: set<string>,
                                      answers: string -> Answer, n: nat)
    requires GetsTo(pending, stored, answers, n)
    ensures var clips, ready := PollFrom(pending, indices, stored, answers).clips, ReadyTasks(pending[..n], stored, answers);
      !PollFrom(pending, indices, stored, answers).raised ==> |clips| == |ready| && forall t | t in ready :: HasClip(clips, t)
  {
    hide PollFrom;
    if n == 0 {
      PassAtOnce(pending, indices, stored, answers);
      assert ReadyTasks(pending[..0], stored, answers) == {};
    } else {
      var task, rest := pending[0], pending[1..];
      var now := if task !in stored && Ready(answers(task)) then {task} else {};
      GetsFurther(pending, stored, now, answers, n);
      StoredFirst(pending, indices, stored, answers);
      assert pending[..n][0] == task && pending[..n][1..] == rest[..n - 1];
      ReadyLater(pending[..n], stored, now, answers);
      hide GetsTo, ReadyTasks, HasClip, Raises, Fails, Ready;
      assert stored + {} == stored;
      PassStores(rest, indices, stored + now, answers, n - 1);
    }
  }

  /** The latest manifest that has content. */
  ghost predicate IsActive(manifests: seq<Manifest>, m: nat) {
    m < |manifests| && manifests[m].hasContent && forall k | m < k < |manifests| :: !manifests[k].hasContent
  }

  lemma WithContentSnoc(front: seq<Manifest>, last: Manifest)
    ensures WithContent(front + [last]) == WithContent(front) + if last.hasContent then [last] else []
  {
    assert (front + [last])[..|front|] == front;
  }

  lemma {:induction false} ActiveIsAt(manifests: seq<Manifest>, m: nat)
    requires IsActive(manifests, m)
    ensures WithContent(manifests) != [] && WithContent(manifests)[|WithContent(manifests)| - 1] == manifests[m]
  {
    hide WithContent;
    var n := |manifests| - 1;
    assert manifests == manifests[..n] + [manifests[n]];
    WithContentSnoc(manifests[..n], manifests[n]);
    if m < n {
      ActiveIsAt(manifests[..n], m);
    }
  }

  lemma {:induction false} NoneHasContent(manifests: seq<Manifest>)
    ensures WithContent(manifests) == [] <==> forall k | 0 <= k < |manifests| :: !manifests[k].hasContent
  {
    if manifests != [] {
      hide WithContent;
      var n := |manifests| - 1;
      assert manifests == manifests[..n] + [manifests[n]];
      WithContentSnoc(manifests[..n], manifests[n]);
      NoneHasContent(manifests[..n]);
    }
  }

  lemma ActiveIsLast(manifests: seq<Manifest>)
    ensures WithContent(manifests) == [] <==> forall k | 0 <= k < |manifests| :: !manifests[k].hasContent
    ensures forall m: nat | IsActive(manifests, m) ::
              WithContent(manifests) != [] && WithContent(manifests)[|WithContent(manifests)| - 1] == manifests[m]
  {
    hide WithContent;
    NoneHasContent(manifests);
    forall m: nat | IsActive(manifests, m)
      ensures WithContent(manifests) != [] && WithContent(manifests)[|WithContent(manifests)| - 1] == manifests[m]
    {
      ActiveIsAt(manifests, m);
    }
  }

  /** The tasks polled for: the run's own list if it names any, else those of the latest manifest with content. */
  lemma PendingExactly(s: RunState, t: string)
    ensures t in PendingTasks(s) <==>
            t != "" && if exists p | p in s.pendingTaskIds :: p != "" then t in s.pendingTaskIds
                       else exists m: nat :: IsActive(s.manifests, m) && t in s.manifests[m].tasks
  {
    if forall p | p in s.pendingTaskIds :: p == "" {
      NoneNamed(s.pendingTaskIds);
      ActiveIsLast(s.manifests);
      if WithContent(s.manifests) != [] {
        var m := LastWithContent(s.manifests);
        assert IsActive(s.manifests, m);
        hide WithContent, Named, IsActive;
      }
    } else {
      var p :| p in s.pendingTaskIds && p != "";
      assert p in Named(s.pendingTaskIds);
    }
  }

  lemma {:induction false} LastWithContent(manifests: seq<Manifest>) returns (m: nat)
    requires WithContent(manifests) != []
    ensures IsActive(manifests, m)
  {
    var n := |manifests| - 1;
    if manifests[n].hasContent {
      m := n;
    } else {
      m := LastWithContent(manifests[..n]);
    }
  }

  lemma {:induction false} NoneNamed(tasks: seq<string>)
    requires forall t | t in tasks :: t == ""
    ensures Named(tasks) == []
  {
    if tasks != [] {
      assert tasks[0] in tasks && forall t | t in tasks[1..] :: t in tasks;
      NoneNamed(tasks[1..]);
    }
  }

  /** Where the usable clips are. */
  function UsableAt(clips: seq<Clip>): set<int> {
    set i | 0 <= i < |clips| && clips[i].uri != ""
  }

  lemma {:induction false} UsableExactly(clips: seq<Clip>)
    ensures UsableClips(clips) == |UsableAt(clips)|
  {
    if clips == [] {
      assert UsableAt(clips) == {};
    } else {
      var n := |clips| - 1;
      UsableExactly(clips[..n]);
      var below := UsableAt(clips[..n]);
      assert n !in below;
      assert UsableAt(clips) == if clips[n].uri == "" then below else below + {n};
    }
  }

  /** A poll that fails keeps the clips it had collected before. */
  lemma FailingPollKeepsClips(env: Env, s: RunState, answers: string -> Answer, now: Time, i: nat)
    requires env.realProvider && s.status == AwaitingVideoGeneration
    requires StopsAt(PendingTasks(s), TaskIds(s.clips), answers, i) && Fails(answers(PendingTasks(s)[i]))
    ensures var ready, t := ReadyTasks(PendingTasks(s)[..i], TaskIds(s.clips), answers), OnSoraPoll(env, s, answers, now).state;
      && t.status == RunFailed && t.jobs == s.jobs
      && |s.clips| <= |t.clips| == |s.clips| + |ready| && t.clips[..|s.clips|] == s.clips
      && forall task | task in ready :: HasClip(t.clips, task)
  {
    var pending, stored := PendingTasks(s), TaskIds(s.clips);
    var indices := Indices(WithContent(s.manifests));
    PassExactly(pending, indices, stored, answers);
    NotBoth(pending, stored, answers);
    PassStores(pending, indices, stored, answers, i);
    hide PollFrom, PendingTasks, WithContent;
    var clips := PollFrom(pending, indices, stored, answers).clips;
    forall task | HasClip(clips, task) ensures HasClip(s.clips + clips, task) {
      var k :| 0 <= k < |clips| && clips[k].taskId == Some(task);
      assert (s.clips + clips)[|s.clips| + k] == clips[k];
    }
  }

  /** How a poll ends: it raises, and changes nothing, when it has no tasks or is stopped by an error; it fails the run
      when it is stopped by a failed task; and otherwise it asks to be run again, ten seconds beyond the polling interval
      later, exactly as long as the usable clips and the new ones are too few. */
  lemma PollEndsExactly(env: Env, s: RunState, answers: string -> Answer, now: Time)
    requires env.realProvider && s.status == AwaitingVideoGeneration
    ensures var step, pending, stored := OnSoraPoll(env, s, answers, now), PendingTasks(s), TaskIds(s.clips);
            var stops := pending == [] || StopsRaising(pending, stored, answers) || StopsFailing(pending, stored, answers);
            var ready := |ReadyTasks(pending, stored, answers)|;
            var few := |UsableAt(s.clips)| + ready < Expected(WithContent(s.manifests));
      && (step.ending.Raised? <==> pending == [] || StopsRaising(pending, stored, answers))
      && (step.ending.Raised? ==> step.state == s)
      && (step.state.status == RunFailed <==> pending != [] && StopsFailing(pending, stored, answers))
      && (step.ending.Rescheduled? <==> !stops && few)
      && (step.ending.Rescheduled? ==>
            && step.ending.delay == env.pollInterval + 10.0 && |step.state.clips| == |s.clips| + ready
            && step.state == s.(clips := step.state.clips))
      && (step.state.status == AwaitingRender <==> !stops && !few)
      && (step.state.status == AwaitingVideoGeneration <==> step.ending.Raised? || step.ending.Rescheduled?)
  {
    var pending, stored := PendingTasks(s), TaskIds(s.clips);
    PassExactly(pending, Indices(WithContent(s.manifests)), stored, answers);
    NotBoth(pending, stored, answers);
    UsableExactly(s.clips);
    hide PollFrom, PendingTasks, StopsRaising, StopsFailing;
  }

  lemma NotBoth(pending: seq<string>, stored: set<string>, answers: string -> Answer)
    ensures !(StopsRaising(pending, stored, answers) && StopsFailing(pending, stored, answers))
  {
    forall i: nat, k: nat | StopsAt(pending, stored, answers, i) && StopsAt(pending, stored, answers, k) ensures i == k {
      assert i < k ==> false;
      assert k < i ==> false;
    }
  }
}
