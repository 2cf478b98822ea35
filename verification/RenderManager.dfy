/** The render service's job map: a bounded, insertion-ordered Map with eviction of finished jobs. */
module RenderManager {
  import opened Wrappers

  datatype JobStatus = Queued | Rendering | Done | Errored

  datatype RenderJob = RenderJob(id: string, status: JobStatus, progress: real, createdAt: int, error: Option<string>)

  predicate Finished(j: RenderJob) {
    j.status.Done? || j.status.Errored?
  }

  predicate Expired(j: RenderJob, cutoff: int) {
    Finished(j) && j.createdAt < cutoff
  }

  /** The entries of the Map in insertion order. */
  type Jobs = seq<RenderJob>

  ghost predicate UniqueIds(jobs: Jobs) {
    forall i, k | 0 <= i < k < |jobs| :: jobs[i].id != jobs[k].id
  }

  predicate HasId(jobs: Jobs, id: string) {
    exists i | 0 <= i < |jobs| :: jobs[i].id == id
  }

  function Without(jobs: Jobs, id: string): Jobs {
    if jobs == [] then []
    else Without(jobs[..|jobs| - 1], id) + if jobs[|jobs| - 1].id == id then [] else [jobs[|jobs| - 1]]
  }

  function Unexpired(jobs: Jobs, cutoff: int): Jobs {
    if jobs == [] then []
    else
      var last := jobs[|jobs| - 1];
      Unexpired(jobs[..|jobs| - 1], cutoff) + if Expired(last, cutoff) then [] else [last]
  }

  function FinishedOf(jobs: Jobs): Jobs {
    if jobs == [] then []
    else
      var last := jobs[|jobs| - 1];
      FinishedOf(jobs[..|jobs| - 1]) + if Finished(last) then [last] else []
  }

  /** Array.prototype.sort by createdAt: stable, so equal times keep insertion order. */
  function SortedByAge(jobs: Jobs): Jobs {
    if jobs == [] then [] else Insert(SortedByAge(jobs[..|jobs| - 1]), jobs[|jobs| - 1])
  }

  function Insert(sorted: Jobs, j: RenderJob): Jobs {
    if sorted == [] || sorted[|sorted| - 1].createdAt <= j.createdAt then sorted + [j]
    else Insert(sorted[..|sorted| - 1], j) + [sorted[|sorted| - 1]]
  }

  /** Deletes the first n of the victims, one by one. */
  function Deleted(jobs: Jobs, victims: Jobs, n: nat): Jobs
    requires n <= |victims|
  {
    if n == 0 then jobs else Without(Deleted(jobs, victims, n - 1), victims[n - 1].id)
  }

  /** How many finished jobs must go: just enough to reach the cap, or all there are. */
  function Excess(size: nat, maxJobs: nat, finished: nat): nat {
    if size <= maxJobs then 0 else if size - maxJobs <= finished then size - maxJobs else finished
  }

  /** Evicts finished jobs, oldest first, until the map fits or none is left. */
  function Evicted(jobs: Jobs, maxJobs: nat): Jobs {
    var candidates := SortedByAge(FinishedOf(jobs));
    AgedOut(jobs, candidates, Excess(|jobs|, maxJobs, |candidates|))
  }

  function Pruned(jobs: Jobs, cutoff: int, maxJobs: nat): Jobs {
    Evicted(Unexpired(jobs, cutoff), maxJobs)
  }

  function AgedOut(jobs: Jobs, candidates: Jobs, n: nat): Jobs {
    if n <= |candidates| then Deleted(jobs, candidates, n) else jobs
  }

  // ---- facts about the list functions ----

  lemma {:induction false} WithoutMembers(jobs: Jobs, id: string)
    ensures forall j :: j in Without(jobs, id) <==> j in jobs && j.id != id
  {
    if jobs != [] {
      var n := |jobs| - 1;
      WithoutMembers(jobs[..n], id);
      assert jobs == jobs[..n] + [jobs[n]];
    }
  }

  lemma WithoutSnoc(front: Jobs, last: RenderJob, id: string)
    ensures Without(front + [last], id) == Without(front, id) + if last.id == id then [] else [last]
  {
    assert (front + [last])[..|front|] == front;
  }

  lemma UnexpiredSnoc(front: Jobs, last: RenderJob, cutoff: int)
    ensures Unexpired(front + [last], cutoff) == Unexpired(front, cutoff) + if Expired(last, cutoff) then [] else [last]
  {
    assert (front + [last])[..|front|] == front;
  }

  lemma {:induction false} WithoutAbsent(jobs: Jobs, id: string)
    requires !HasId(jobs, id)
    ensures Without(jobs, id) == jobs
  {
    if jobs != [] {
      hide Without;
      var front, last := jobs[..|jobs| - 1], jobs[|jobs| - 1];
      assert jobs == front + [last];
      HasIdSnoc(front, last, id);
      WithoutAbsent(front, id);
      WithoutSnoc(front, last, id);
    }
  }

  lemma HasIdSnoc(front: Jobs, last: RenderJob, id: string)
    ensures HasId(front + [last], id) <==> HasId(front, id) || last.id == id
  {
    var jobs := front + [last];
    if HasId(front, id) {
      var i :| 0 <= i < |front| && front[i].id == id;
      assert jobs[i].id == id;
    }
    assert jobs[|front|] == last;
  }

  lemma UniqueFront(front: Jobs, last: RenderJob)
    requires UniqueIds(front + [last])
    ensures UniqueIds(front) && !HasId(front, last.id)
  {
    var jobs := front + [last];
    assert jobs[..|front|] == front && jobs[|front|] == last;
    assert forall i | 0 <= i < |front| :: front[i] == jobs[i];
  }

  lemma {:induction false} WithoutShrinks(jobs: Jobs, id: string)
    requires UniqueIds(jobs)
    ensures UniqueIds(Without(jobs, id))
    ensures |Without(jobs, id)| == |jobs| - if HasId(jobs, id) then 1 else 0
  {
    if jobs != [] {
      var n := |jobs| - 1;
      var front, last := jobs[..n], jobs[n];
      assert jobs == front + [last];
      UniqueFront(front, last);
      HasIdSnoc(front, last, id);
      WithoutShrinks(front, id);
      if last.id == id {
        WithoutAbsent(front, id);
      } else {
        WithoutMembers(front, id);
        NotAmong(front, last.id);
        UniqueSnoc(Without(front, id), last);
      }
    }
  }

  lemma NotAmong(jobs: Jobs, id: string)
    requires !HasId(jobs, id)
    ensures forall j | j in jobs :: j.id != id
  {
  }

  lemma IdsIdentify(jobs: Jobs, a: RenderJob, b: RenderJob)
    requires UniqueIds(jobs) && a in jobs && b in jobs && a.id == b.id
    ensures a == b
  {
    var i :| 0 <= i < |jobs| && jobs[i] == a;
    var k :| 0 <= k < |jobs| && jobs[k] == b;
    assert i == k;
  }

  lemma UniqueSnoc(jobs: Jobs, j: RenderJob)
    requires UniqueIds(jobs) && forall x | x in jobs :: x.id != j.id
    ensures UniqueIds(jobs + [j])
  {
    forall i, k | 0 <= i < k < |jobs + [j]| ensures (jobs + [j])[i].id != (jobs + [j])[k].id {
      assert (jobs + [j])[i] == jobs[i] && jobs[i] in jobs;
    }
  }

  lemma {:induction false} UnexpiredFacts(jobs: Jobs, cutoff: int)
    requires UniqueIds(jobs)
    ensures UniqueIds(Unexpired(jobs, cutoff)) && |Unexpired(jobs, cutoff)| <= |jobs|
    ensures forall j :: j in Unexpired(jobs, cutoff) <==> j in jobs && !Expired(j, cutoff)
  {
    if jobs != [] {
      var n := |jobs| - 1;
      UnexpiredFacts(jobs[..n], cutoff);
      assert jobs == jobs[..n] + [jobs[n]];
      assert forall j | j in jobs[..n] :: j.id != jobs[n].id;
      UniqueSnoc(Unexpired(jobs[..n], cutoff), jobs[n]);
    }
  }

  lemma {:induction false} FinishedFacts(jobs: Jobs)
    requires UniqueIds(jobs)
    ensures UniqueIds(FinishedOf(jobs)) && |FinishedOf(jobs)| <= |jobs|
    ensures forall j :: j in FinishedOf(jobs) <==> j in jobs && Finished(j)
  {
    if jobs != [] {
      var n := |jobs| - 1;
      FinishedFacts(jobs[..n]);
      assert jobs == jobs[..n] + [jobs[n]];
      assert forall j | j in jobs[..n] :: j.id != jobs[n].id;
      UniqueSnoc(FinishedOf(jobs[..n]), jobs[n]);
    }
  }

  ghost predicate ByAge(jobs: Jobs) {
    forall i, k | 0 <= i < k < |jobs| :: jobs[i].createdAt <= jobs[k].createdAt
  }

  lemma AppendOldest(jobs: Jobs, last: RenderJob)
    requires ByAge(jobs) && forall x | x in jobs :: x.createdAt <= last.createdAt
    ensures ByAge(jobs + [last])
  {
  }

  lemma {:induction false} InsertFacts(sorted: Jobs, j: RenderJob)
    requires ByAge(sorted)
    ensures ByAge(Insert(sorted, j)) && |Insert(sorted, j)| == |sorted| + 1
    ensures multiset(Insert(sorted, j)) == multiset(sorted) + multiset{j}
  {
    if sorted != [] && sorted[|sorted| - 1].createdAt > j.createdAt {
      var n := |sorted| - 1;
      var front, last := sorted[..n], sorted[n];
      var rest := Insert(front, j);
      InsertFacts(front, j);
      assert Insert(sorted, j) == rest + [last];
      hide Insert;
      assert sorted == front + [last];
      forall x | x in rest ensures x.createdAt <= last.createdAt {
        assert x in multiset(rest);
        assert x == j || x in multiset(front);
        assert x == j || x in front;
      }
      AppendOldest(rest, last);
    }
  }

  lemma {:induction false} SortFacts(jobs: Jobs)
    ensures ByAge(SortedByAge(jobs)) && multiset(SortedByAge(jobs)) == multiset(jobs)
    ensures |SortedByAge(jobs)| == |jobs|
  {
    if jobs != [] {
      var n := |jobs| - 1;
      SortFacts(jobs[..n]);
      InsertFacts(SortedByAge(jobs[..n]), jobs[n]);
      SnocMembers(jobs);
    }
  }

  lemma SnocMembers(jobs: Jobs)
    requires jobs != []
    ensures multiset(jobs) == multiset(jobs[..|jobs| - 1]) + multiset{jobs[|jobs| - 1]}
  {
    assert jobs == jobs[..|jobs| - 1] + [jobs[|jobs| - 1]];
  }

  lemma {:induction false} InsertUnique(sorted: Jobs, j: RenderJob)
    requires ByAge(sorted) && UniqueIds(sorted) && forall x | x in sorted :: x.id != j.id
    ensures UniqueIds(Insert(sorted, j))
  {
    if sorted == [] || sorted[|sorted| - 1].createdAt <= j.createdAt {
      UniqueSnoc(sorted, j);
    } else {
      var n := |sorted| - 1;
      var front, last := sorted[..n], sorted[n];
      assert sorted == front + [last];
      UniqueFront(front, last);
      NotAmong(front, last.id);
      InsertUnique(front, j);
      InsertFacts(front, j);
      forall x | x in Insert(front, j) ensures x.id != last.id {
        assert x in multiset(Insert(front, j));
        assert x == j || x in multiset(front);
      }
      UniqueSnoc(Insert(front, j), last);
    }
  }

  lemma {:induction false} SortUnique(jobs: Jobs)
    requires UniqueIds(jobs)
    ensures UniqueIds(SortedByAge(jobs))
  {
    if jobs != [] {
      var n := |jobs| - 1;
      var front, last := jobs[..n], jobs[n];
      assert jobs == front + [last];
      UniqueFront(front, last);
      NotAmong(front, last.id);
      SortUnique(front);
      SortFacts(front);
      SameMembers(front, SortedByAge(front));
      InsertUnique(SortedByAge(front), last);
    }
  }

  lemma {:induction false} DeletedFacts(jobs: Jobs, victims: Jobs, n: nat)
    requires UniqueIds(jobs) && UniqueIds(victims) && n <= |victims| && forall v | v in victims :: v in jobs
    ensures UniqueIds(Deleted(jobs, victims, n)) && |Deleted(jobs, victims, n)| == |jobs| - n
    ensures forall j :: j in Deleted(jobs, victims, n) <==> j in jobs && j !in victims[..n]
  {
    if n > 0 {
      hide Without;
      var before, v := Deleted(jobs, victims, n - 1), victims[n - 1];
      DeletedFacts(jobs, victims, n - 1);
      assert victims[..n] == victims[..n - 1] + [v];
      assert v in jobs && v in before;
      DeleteOne(jobs, before, v);
    }
  }

  lemma DeleteOne(jobs: Jobs, before: Jobs, v: RenderJob)
    requires UniqueIds(jobs) && UniqueIds(before) && v in before && forall j | j in before :: j in jobs
    ensures UniqueIds(Without(before, v.id)) && |Without(before, v.id)| == |before| - 1
    ensures forall j :: j in Without(before, v.id) <==> j in before && j != v
  {
    WithoutShrinks(before, v.id);
    WithoutMembers(before, v.id);
    forall j | j in before && j.id == v.id ensures j == v {
      IdsIdentify(jobs, j, v);
    }
  }

  // ---- what pruning does to any map ----

  /** On any map pruneJobs drops the expired finished jobs, then the shortest oldest-first prefix of the other
      finished ones that reaches the cap, or all of them; it never drops a queued or rendering job. */
  lemma PruneExactly(jobs: Jobs, cutoff: int, maxJobs: nat)
    requires UniqueIds(jobs)
    ensures var after := Pruned(jobs, cutoff, maxJobs);
            var kept := Unexpired(jobs, cutoff);
            var candidates := SortedByAge(FinishedOf(kept));
            var n := Excess(|kept|, maxJobs, |candidates|);
      && UniqueIds(after) && n <= |candidates| && |after| == |kept| - n
      && (forall j :: j in after <==> j in jobs && !Expired(j, cutoff) && j !in candidates[..n])
      && (|after| <= maxJobs || forall j | j in after :: !Finished(j))
      && (n > 0 ==> |after| >= maxJobs)
      && (forall j | j in jobs && !Finished(j) :: j in after)
    ensures PruneIsOldestFirst(jobs, Pruned(jobs, cutoff, maxJobs), cutoff)
  {
    var after, kept := Pruned(jobs, cutoff, maxJobs), Unexpired(jobs, cutoff);
    var finished := FinishedOf(kept);
    var candidates := SortedByAge(finished);
    var n := Excess(|kept|, maxJobs, |candidates|);
    UnexpiredFacts(jobs, cutoff);
    FinishedFacts(kept);
    SortFacts(finished);
    SortUnique(finished);
    SameMembers(finished, candidates);
    DeletedFacts(kept, candidates, n);
    forall j | j in candidates[..n] ensures Finished(j) {
      assert j in candidates;
    }
    if n == |candidates| {
      assert candidates[..n] == candidates;
    }
    OldestFirst(after, candidates, n, jobs, cutoff);
  }

  lemma SameMembers(a: Jobs, b: Jobs)
    requires multiset(a) == multiset(b)
    ensures forall j :: j in a <==> j in b
  {
    forall j | true ensures j in a <==> j in b {
      assert j in a <==> j in multiset(a);
      assert j in b <==> j in multiset(b);
    }
  }

  /** Whatever finished job was dropped without having expired is no younger than any finished job kept. */
  ghost predicate PruneIsOldestFirst(before: Jobs, after: Jobs, cutoff: int) {
    forall gone, kept | gone in before && gone !in after && !Expired(gone, cutoff) && kept in after && Finished(kept) ::
      gone.createdAt <= kept.createdAt
  }

  lemma OldestFirst(after: Jobs, candidates: Jobs, n: nat, before: Jobs, cutoff: int)
    requires ByAge(candidates) && n <= |candidates|
    requires forall j :: j in after <==> j in before && !Expired(j, cutoff) && j !in candidates[..n]
    requires forall j | j in before && !Expired(j, cutoff) && Finished(j) :: j in candidates
    ensures PruneIsOldestFirst(before, after, cutoff)
  {
    forall gone, kept | gone in before && gone !in after && !Expired(gone, cutoff) && kept in after && Finished(kept)
      ensures gone.createdAt <= kept.createdAt
    {
      var i :| 0 <= i < n && candidates[i] == gone;
      var k :| 0 <= k < |candidates| && candidates[k] == kept;
      BeyondPrefix(candidates, n, k);
    }
  }

  lemma BeyondPrefix(s: Jobs, n: nat, k: nat)
    requires n <= |s| && k < |s| && s[k] !in s[..n]
    ensures k >= n
  {
  }

  lemma FittingIsKept(jobs: Jobs, maxJobs: nat)
    requires |jobs| <= maxJobs
    ensures Evicted(jobs, maxJobs) == jobs
  {
  }

  lemma PruneShape(jobs: Jobs, cutoff: int, maxJobs: nat)
    requires UniqueIds(jobs)
    ensures UniqueIds(Unexpired(jobs, cutoff))
    ensures UniqueIds(Pruned(jobs, cutoff, maxJobs)) && |Pruned(jobs, cutoff, maxJobs)| <= |jobs|
  {
    UnexpiredFacts(jobs, cutoff);
    PruneExactly(jobs, cutoff, maxJobs);
  }

  class RenderManager {
    const maxJobs: nat
    const jobTtlMs: int
    var jobs: Jobs

    /** Math.max(100, maxJobs) and Math.max(60_000, jobTtlSeconds * 1000). */
    constructor (maxJobs: int, jobTtlSeconds: int)
      ensures jobs == [] && this.maxJobs == (if maxJobs > 100 then maxJobs else 100)
      ensures this.jobTtlMs == if jobTtlSeconds * 1000 > 60000 then jobTtlSeconds * 1000 else 60000
    {
      this.maxJobs := if maxJobs > 100 then maxJobs else 100;
      this.jobTtlMs := if jobTtlSeconds * 1000 > 60000 then jobTtlSeconds * 1000 else 60000;
      jobs := [];
    }

    /** The part of enqueue before its first await: at the cap it throws, without pruning. */
    method Insert(id: string, now: int) returns (ok: bool)
      requires UniqueIds(jobs) && !HasId(jobs, id)
      modifies this`jobs
      ensures ok == (|old(jobs)| < maxJobs)
      ensures jobs == if ok then old(jobs) + [RenderJob(id, Queued, 0.0, now, None)] else old(jobs)
      ensures UniqueIds(jobs)
    {
      if |jobs| >= maxJobs {
        return false;
      }
      var job := RenderJob(id, Queued, 0.0, now, None);
      NotAmong(jobs, id);
      UniqueSnoc(jobs, job);
      jobs := jobs + [job];
      return true;
    }

    /** Drops what has expired; then, above the cap, drops finished jobs oldest first. */
    method PruneJobs(now: int)
      requires UniqueIds(jobs)
      modifies this`jobs
      ensures jobs == Pruned(old(jobs), now - jobTtlMs, maxJobs)
      ensures UniqueIds(jobs) && |jobs| <= |old(jobs)|
    {
      var cutoff := now - jobTtlMs;
      ghost var before := jobs;
      PruneShape(before, cutoff, maxJobs);
      DeleteExpired(cutoff);
      assert jobs == Unexpired(before, cutoff);
      if |jobs| > maxJobs {
        DeleteOldest();
      } else {
        FittingIsKept(jobs, maxJobs);
      }
      assert jobs == Pruned(before, cutoff, maxJobs);
    }

    method DeleteExpired(cutoff: int)
      requires UniqueIds(jobs)
      modifies this`jobs
      ensures jobs == Unexpired(old(jobs), cutoff)
    {
      var entries := jobs;
      for i := 0 to |entries|
        invariant jobs == Unexpired(entries[..i], cutoff) + entries[i..]
      {
        ExpireStep(entries, i, cutoff);
        if Finished(entries[i]) && entries[i].createdAt < cutoff {
          jobs := Without(jobs, entries[i].id);
        }
      }
      assert entries[..|entries|] == entries;
    }

    method DeleteOldest()
      requires UniqueIds(jobs) && |jobs| > maxJobs
      modifies this`jobs
      ensures jobs == Evicted(old(jobs), maxJobs)
    {
      var candidates := SortedByAge(FinishedOf(jobs));
      ghost var kept := jobs;
      CandidatesAreJobs(kept);
      hide Deleted, Without, SortedByAge, FinishedOf, Evicted, UniqueIds;
      NothingDeleted(kept, candidates);
      var n := 0;
      while n < |candidates|
        invariant 0 <= n <= |candidates| && jobs == Deleted(kept, candidates, n)
        invariant |jobs| == |kept| - n > maxJobs
      {
        DeleteNext(kept, candidates, n);
        jobs := Without(jobs, candidates[n].id);
        n := n + 1;
        if |jobs| <= maxJobs {
          EvictedPrefix(kept, maxJobs, n);
          return;
        }
      }
      EvictedPrefix(kept, maxJobs, n);
    }

    method StartRendering(id: string)
      modifies this`jobs
      ensures jobs == WithState(old(jobs), id, Rendering, 0.0, None)
    {
      jobs := WithState(jobs, id, Rendering, 0.0, None);
    }

    /** The end of processJob, before its callback: the job is done, or failed with a message. Stale jobs are
        pruned only after the callback has been sent. */
    method FinishRendering(id: string, failure: Option<string>)
      modifies this`jobs
      ensures jobs == Ended(old(jobs), id, failure)
      ensures forall i | 0 <= i < |jobs| && jobs[i].id == id ::
                jobs[i].error == failure && jobs[i].status == (if failure.Some? then Errored else Done)
    {
      if failure.None? {
        jobs := WithState(jobs, id, Done, 1.0, None);
      } else {
        jobs := WithState(jobs, id, Errored, 0.0, failure);
      }
    }
  }

  /** The shared job object changes in place; its position in the Map, its id and its age do not. */
  function WithState(jobs: Jobs, id: string, status: JobStatus, progress: real, error: Option<string>): (r: Jobs)
    ensures |r| == |jobs|
    ensures forall i | 0 <= i < |jobs| :: r[i].id == jobs[i].id && r[i].createdAt == jobs[i].createdAt
    ensures forall i | 0 <= i < |jobs| && jobs[i].id != id :: r[i] == jobs[i]
    ensures forall i | 0 <= i < |jobs| && jobs[i].id == id ::
              r[i].status == status && r[i].progress == progress && r[i].error == error
  {
    seq(|jobs|, i requires 0 <= i < |jobs| =>
      if jobs[i].id == id then jobs[i].(status := status, progress := progress, error := error) else jobs[i])
  }

  function Ended(jobs: Jobs, id: string, failure: Option<string>): Jobs {
    if failure.None? then WithState(jobs, id, Done, 1.0, None) else WithState(jobs, id, Errored, 0.0, failure)
  }

  lemma ApartFromOthers(entries: Jobs, i: nat, cutoff: int)
    requires UniqueIds(entries) && i < |entries|
    ensures !HasId(Unexpired(entries[..i], cutoff), entries[i].id) && !HasId(entries[i + 1..], entries[i].id)
  {
    UnexpiredFacts(entries[..i], cutoff);
    forall k | 0 <= k < |Unexpired(entries[..i], cutoff)| ensures Unexpired(entries[..i], cutoff)[k].id != entries[i].id {
      assert Unexpired(entries[..i], cutoff)[k] in entries[..i];
    }
  }

  lemma Regroup(front: Jobs, j: RenderJob, back: Jobs)
    ensures front + ([j] + back) == (front + [j]) + back && front + [] == front
  {
  }

  lemma ExpireStep(entries: Jobs, i: nat, cutoff: int)
    requires UniqueIds(entries) && i < |entries|
    ensures var before := Unexpired(entries[..i], cutoff) + entries[i..];
            var after := Unexpired(entries[..i + 1], cutoff) + entries[i + 1..];
      after == if Expired(entries[i], cutoff) then Without(before, entries[i].id) else before
  {
    hide Unexpired, Without, UniqueIds, HasId;
    var front, j, back := Unexpired(entries[..i], cutoff), entries[i], entries[i + 1..];
    assert entries[..i + 1] == entries[..i] + [j] && entries[i..] == [j] + back;
    UnexpiredSnoc(entries[..i], j, cutoff);
    Regroup(front, j, back);
    if Expired(j, cutoff) {
      ApartFromOthers(entries, i, cutoff);
      WithoutMiddle(front, j, back);
    }
  }

  lemma {:induction false} WithoutMiddle(front: Jobs, j: RenderJob, back: Jobs)
    requires !HasId(front, j.id) && !HasId(back, j.id)
    ensures Without(front + ([j] + back), j.id) == front + back
  {
    var whole := front + ([j] + back);
    var n := |whole| - 1;
    if back == [] {
      assert whole[..n] == front;
      WithoutAbsent(front, j.id);
      assert front + back == front;
    } else {
      var m := |back| - 1;
      assert whole[..n] == front + ([j] + back[..m]);
      WithoutMiddle(front, j, back[..m]);
      assert front + back == (front + back[..m]) + [back[m]];
    }
  }

  lemma NothingDeleted(jobs: Jobs, victims: Jobs)
    ensures Deleted(jobs, victims, 0) == jobs
  {
  }

  lemma DeleteNext(jobs: Jobs, victims: Jobs, n: nat)
    requires UniqueIds(jobs) && UniqueIds(victims) && n < |victims| && forall v | v in victims :: v in jobs
    ensures Deleted(jobs, victims, n + 1) == Without(Deleted(jobs, victims, n), victims[n].id)
    ensures |Deleted(jobs, victims, n + 1)| == |jobs| - (n + 1)
  {
    DeletedFacts(jobs, victims, n + 1);
  }

  lemma EvictedPrefix(jobs: Jobs, maxJobs: nat, n: nat)
    requires var candidates := SortedByAge(FinishedOf(jobs));
             n <= |candidates| && (|jobs| == maxJobs + n || (n == |candidates| && |jobs| > maxJobs + n))
    ensures Evicted(jobs, maxJobs) == Deleted(jobs, SortedByAge(FinishedOf(jobs)), n)
  {
    hide Deleted, SortedByAge, FinishedOf;
  }

  lemma CandidatesAreJobs(jobs: Jobs)
    requires UniqueIds(jobs)
    ensures var candidates := SortedByAge(FinishedOf(jobs));
      UniqueIds(candidates) && |candidates| <= |jobs| && forall c | c in candidates :: c in jobs
  {
    FinishedFacts(jobs);
    SortFacts(FinishedOf(jobs));
    SortUnique(FinishedOf(jobs));
    SameMembers(FinishedOf(jobs), SortedByAge(FinishedOf(jobs)));
  }

  // ---- whole runs of the service ----

  datatype Event =
    | Submit(id: string, at: int)
    | DirectoryReady(id: string, at: int)
    | Start(id: string)
    | Finish(id: string, failure: Option<string>)
    | Prune(at: int)

  /** The map, the jobs inserted whose output directory is still being made, and the jobs scheduled since that
      have not finished. A job whose directory cannot be made waits for ever. */
  datatype Service = Service(jobs: Jobs, waiting: set<string>, active: set<string>)

  function Moved(s: Service, id: string): Service {
    s.(waiting := s.waiting - {id}, active := s.active + {id})
  }

  function Handled(maxJobs: nat, ttl: int, s: Service, e: Event): Service {
    match e
    case Submit(id, at) =>
      if |s.jobs| >= maxJobs || HasId(s.jobs, id) || id in s.waiting + s.active then s
      else s.(jobs := s.jobs + [RenderJob(id, Queued, 0.0, at, None)], waiting := s.waiting + {id})
    case DirectoryReady(id, at) =>
      if id !in s.waiting then s
      else Moved(s.(jobs := Pruned(s.jobs, at - ttl, maxJobs)), id)
    case Start(id) =>
      if id in s.active then s.(jobs := WithState(s.jobs, id, Rendering, 0.0, None)) else s
    case Finish(id, failure) =>
      if id in s.active then Service(Ended(s.jobs, id, failure), s.waiting, s.active - {id}) else s
    case Prune(at) => s.(jobs := Pruned(s.jobs, at - ttl, maxJobs))
  }

  function Ran(maxJobs: nat, ttl: int, events: seq<Event>): Service {
    if events == [] then Service([], {}, {})
    else Handled(maxJobs, ttl, Ran(maxJobs, ttl, events[..|events| - 1]), events[|events| - 1])
  }

  /** Each of these jobs is in the map, queued or rendering. */
  ghost predicate AllPresent(jobs: Jobs, ids: set<string>) {
    forall id | id in ids :: Present(jobs, id)
  }

  ghost predicate Present(jobs: Jobs, id: string) {
    exists i | 0 <= i < |jobs| :: jobs[i].id == id && !Finished(jobs[i])
  }

  ghost predicate Bounded(maxJobs: nat, s: Service) {
    |s.jobs| <= maxJobs && UniqueIds(s.jobs) && s.waiting !! s.active && AllPresent(s.jobs, s.waiting + s.active)
  }

  lemma PruneKeepsPresent(jobs: Jobs, ids: set<string>, cutoff: int, maxJobs: nat)
    requires UniqueIds(jobs) && AllPresent(jobs, ids)
    ensures UniqueIds(Pruned(jobs, cutoff, maxJobs)) && AllPresent(Pruned(jobs, cutoff, maxJobs), ids)
    ensures |Pruned(jobs, cutoff, maxJobs)| <= |jobs|
  {
    var after := Pruned(jobs, cutoff, maxJobs);
    PruneExactly(jobs, cutoff, maxJobs);
    UnexpiredFacts(jobs, cutoff);
    forall id | id in ids ensures Present(after, id) {
      assert Present(jobs, id);
      var i :| 0 <= i < |jobs| && jobs[i].id == id && !Finished(jobs[i]);
      assert jobs[i] in jobs && jobs[i] in after;
    }
  }

  lemma InsertKeepsPresent(jobs: Jobs, ids: set<string>, id: string, at: int)
    requires UniqueIds(jobs) && AllPresent(jobs, ids) && !HasId(jobs, id)
    ensures UniqueIds(jobs + [RenderJob(id, Queued, 0.0, at, None)])
    ensures AllPresent(jobs + [RenderJob(id, Queued, 0.0, at, None)], ids + {id})
  {
    var job := RenderJob(id, Queued, 0.0, at, None);
    NotAmong(jobs, id);
    UniqueSnoc(jobs, job);
    assert (jobs + [job])[|jobs|] == job;
    forall x | x in ids + {id} ensures Present(jobs + [job], x) {
      if x != id {
        assert Present(jobs, x);
        var i :| 0 <= i < |jobs| && jobs[i].id == x && !Finished(jobs[i]);
        assert (jobs + [job])[i] == jobs[i];
      }
    }
  }

  lemma StateKeepsPresent(jobs: Jobs, ids: set<string>, id: string, status: JobStatus, progress: real,
                          error: Option<string>)
    requires UniqueIds(jobs) && AllPresent(jobs, ids) && (status == Rendering || id !in ids)
    ensures UniqueIds(WithState(jobs, id, status, progress, error))
    ensures AllPresent(WithState(jobs, id, status, progress, error), ids)
  {
    var after := WithState(jobs, id, status, progress, error);
    forall x | x in ids ensures Present(after, x) {
      assert Present(jobs, x);
      var i :| 0 <= i < |jobs| && jobs[i].id == x && !Finished(jobs[i]);
      assert after[i].id == x && !Finished(after[i]);
    }
  }

  /** Over every run the map stays within its cap, and every job accepted and not yet finished is in it. */
  lemma {:induction false} MapStaysBounded(maxJobs: nat, ttl: int, events: seq<Event>)
    ensures Bounded(maxJobs, Ran(maxJobs, ttl, events))
  {
    if events != [] {
      var s, e := Ran(maxJobs, ttl, events[..|events| - 1]), events[|events| - 1];
      MapStaysBounded(maxJobs, ttl, events[..|events| - 1]);
      EventKeepsBounded(maxJobs, ttl, s, e);
    }
  }

  lemma EventKeepsBounded(maxJobs: nat, ttl: int, s: Service, e: Event)
    requires Bounded(maxJobs, s)
    ensures Bounded(maxJobs, Handled(maxJobs, ttl, s, e))
  {
    hide Pruned;
    match e
    case Submit(_, _) => SubmitKeepsBounded(maxJobs, ttl, s, e);
    case DirectoryReady(id, at) => if id in s.waiting { ScheduleKeepsBounded(maxJobs, s, id, at - ttl); }
    case Start(_) => StartKeepsBounded(maxJobs, ttl, s, e);
    case Finish(_, _) => FinishKeepsBounded(maxJobs, ttl, s, e);
    case Prune(at) => var _ := PruneKeepsBounded(maxJobs, s, at - ttl);
  }

  lemma SubmitKeepsBounded(maxJobs: nat, ttl: int, s: Service, e: Event)
    requires Bounded(maxJobs, s) && e.Submit?
    ensures Bounded(maxJobs, Handled(maxJobs, ttl, s, e))
  {
    if |s.jobs| < maxJobs && !HasId(s.jobs, e.id) && e.id !in s.waiting + s.active {
      InsertKeepsPresent(s.jobs, s.waiting + s.active, e.id, e.at);
      assert (s.waiting + {e.id}) + s.active == s.waiting + s.active + {e.id};
    }
  }

  /** Moving a job from waiting to active concerns neither the map nor which jobs are unfinished. */
  lemma MoveIsBounded(maxJobs: nat, s: Service, id: string)
    requires Bounded(maxJobs, s) && id in s.waiting
    ensures Bounded(maxJobs, Moved(s, id))
  {
    assert (s.waiting - {id}) + (s.active + {id}) == s.waiting + s.active;
  }

  lemma PruneKeepsBounded(maxJobs: nat, s: Service, cutoff: int) returns (pruned: Service)
    requires Bounded(maxJobs, s)
    ensures pruned == s.(jobs := Pruned(s.jobs, cutoff, maxJobs)) && Bounded(maxJobs, pruned)
  {
    PruneKeepsPresent(s.jobs, s.waiting + s.active, cutoff, maxJobs);
    pruned := s.(jobs := Pruned(s.jobs, cutoff, maxJobs));
  }

  lemma ScheduleKeepsBounded(maxJobs: nat, s: Service, id: string, cutoff: int)
    requires Bounded(maxJobs, s) && id in s.waiting
    ensures Bounded(maxJobs, Moved(s.(jobs := Pruned(s.jobs, cutoff, maxJobs)), id))
  {
    var pruned := PruneKeepsBounded(maxJobs, s, cutoff);
    MoveIsBounded(maxJobs, pruned, id);
  }

  lemma StartKeepsBounded(maxJobs: nat, ttl: int, s: Service, e: Event)
    requires Bounded(maxJobs, s) && e.Start?
    ensures Bounded(maxJobs, Handled(maxJobs, ttl, s, e))
  {
    StateKeepsPresent(s.jobs, s.waiting + s.active, e.id, Rendering, 0.0, None);
  }

  lemma FinishKeepsBounded(maxJobs: nat, ttl: int, s: Service, e: Event)
    requires Bounded(maxJobs, s) && e.Finish?
    ensures Bounded(maxJobs, Handled(maxJobs, ttl, s, e))
  {
    if e.id in s.active {
      var left := s.waiting + (s.active - {e.id});
      if e.failure.None? {
        StateKeepsPresent(s.jobs, left, e.id, Done, 1.0, None);
      } else {
        StateKeepsPresent(s.jobs, left, e.id, Errored, 0.0, e.failure);
      }
    }
  }

  // ---- what a job's status tells ----

  /** How the latest processing of a job ended: None while it never has, else the message it failed with, if any. */
  function LastResult(maxJobs: nat, ttl: int, events: seq<Event>, id: string): Option<Option<string>> {
    if events == [] then None
    else
      var k := |events| - 1;
      var e := events[k];
      if e.Finish? && e.id == id && id in Ran(maxJobs, ttl, events[..k]).active then Some(e.failure)
      else LastResult(maxJobs, ttl, events[..k], id)
  }

  /** The jobs whose processing has begun and not ended. */
  function Begun(maxJobs: nat, ttl: int, events: seq<Event>): set<string> {
    if events == [] then {}
    else
      var k := |events| - 1;
      var before := Begun(maxJobs, ttl, events[..k]);
      match events[k]
      case Start(id) => if id in Ran(maxJobs, ttl, events[..k]).active then before + {id} else before
      case Finish(id, _) => before - {id}
      case Submit(_, _) => before
      case DirectoryReady(_, _) => before
      case Prune(_) => before
  }

  lemma {:induction false} BegunAreActive(maxJobs: nat, ttl: int, events: seq<Event>)
    ensures Begun(maxJobs, ttl, events) <= Ran(maxJobs, ttl, events).active
  {
    if events != [] {
      BegunAreActive(maxJobs, ttl, events[..|events| - 1]);
    }
  }

  /** A job is rendering exactly while it is processed, and finished exactly when it neither waits nor is active; then it is
      done, at full progress, if its processing succeeded, and else it is an error with the message of the failure. */
  ghost predicate Tells(s: Service, begun: set<string>, j: RenderJob, last: Option<Option<string>>) {
    && (j.status.Rendering? <==> j.id in begun) && (Finished(j) <==> j.id !in s.waiting + s.active)
    && (Finished(j) ==>
          && last.Some? && j.error == last.value
          && j.status == (if last.value.None? then Done else Errored) && j.progress == (if last.value.None? then 1.0 else 0.0))
  }

  lemma TellsStep(maxJobs: nat, ttl: int, events: seq<Event>, e: Event, i: nat)
    requires var s := Ran(maxJobs, ttl, events);
      && Bounded(maxJobs, s) && Begun(maxJobs, ttl, events) <= s.active
      && forall j | j in s.jobs :: Tells(s, Begun(maxJobs, ttl, events), j, LastResult(maxJobs, ttl, events, j.id))
    requires i < |Handled(maxJobs, ttl, Ran(maxJobs, ttl, events), e).jobs|
    ensures var t := Handled(maxJobs, ttl, Ran(maxJobs, ttl, events), e);
      Tells(t, Begun(maxJobs, ttl, events + [e]), t.jobs[i], LastResult(maxJobs, ttl, events + [e], t.jobs[i].id))
  {
    hide Pruned, Ran, UniqueIds, AllPresent;
    var s := Ran(maxJobs, ttl, events);
    var t := Handled(maxJobs, ttl, s, e);
    assert (events + [e])[..|events|] == events;
    match e
    case Submit(_, _) =>
      if i < |s.jobs| {
        assert t.jobs[i] in s.jobs;
      }
    case DirectoryReady(id, at) =>
      if id in s.waiting {
        PrunedAreJobs(s.jobs, at - ttl, maxJobs);
      }
      assert t.jobs[i] in s.jobs;
    case Start(_) =>
      assert s.jobs[i] in s.jobs;
    case Finish(_, _) =>
      assert s.jobs[i] in s.jobs;
    case Prune(at) =>
      PrunedAreJobs(s.jobs, at - ttl, maxJobs);
      assert t.jobs[i] in s.jobs;
  }

  lemma PrunedAreJobs(jobs: Jobs, cutoff: int, maxJobs: nat)
    requires UniqueIds(jobs)
    ensures forall j | j in Pruned(jobs, cutoff, maxJobs) :: j in jobs
  {
    PruneExactly(jobs, cutoff, maxJobs);
  }

  /** Over every run, the status of each job in the map tells how its latest processing ended. */
  lemma {:induction false} StatusTells(maxJobs: nat, ttl: int, events: seq<Event>)
    ensures var s := Ran(maxJobs, ttl, events);
      forall j | j in s.jobs :: Tells(s, Begun(maxJobs, ttl, events), j, LastResult(maxJobs, ttl, events, j.id))
  {
    if events != [] {
      hide Tells, Handled, LastResult, Begun, Bounded, Finished;
      var k := |events| - 1;
      StatusTells(maxJobs, ttl, events[..k]);
      MapStaysBounded(maxJobs, ttl, events[..k]);
      BegunAreActive(maxJobs, ttl, events[..k]);
      assert events[..k] + [events[k]] == events;
      var s := Ran(maxJobs, ttl, events);
      forall j | j in s.jobs ensures Tells(s, Begun(maxJobs, ttl, events), j, LastResult(maxJobs, ttl, events, j.id)) {
        var i :| 0 <= i < |s.jobs| && s.jobs[i] == j;
        TellsStep(maxJobs, ttl, events[..k], events[k], i);
      }
    }
  }

  // ---- what pruning drops in a run of the service ----

  lemma FittingDropsExpired(jobs: Jobs, cutoff: int, maxJobs: nat)
    requires UniqueIds(jobs) && |jobs| <= maxJobs
    ensures forall j :: j in Pruned(jobs, cutoff, maxJobs) <==> j in jobs && !Expired(j, cutoff)
  {
    UnexpiredFacts(jobs, cutoff);
    PruneExactly(jobs, cutoff, maxJobs);
    hide Pruned, Unexpired, SortedByAge, FinishedOf, Expired;
  }

  lemma PruningPrunes(maxJobs: nat, ttl: int, events: seq<Event>, e: Event)
    requires e.Prune? || (e.DirectoryReady? && e.id in Ran(maxJobs, ttl, events).waiting)
    ensures Ran(maxJobs, ttl, events + [e]).jobs == Pruned(Ran(maxJobs, ttl, events).jobs, e.at - ttl, maxJobs)
  {
    hide Pruned;
    assert (events + [e])[..|events|] == events;
  }

  /** Since a full map refuses jobs, the cap never evicts any: pruning, on its own or when a job is scheduled, drops exactly
      the finished jobs that are older than the time to live. */
  lemma PruningDropsExactly(maxJobs: nat, ttl: int, events: seq<Event>, e: Event)
    requires e.Prune? || (e.DirectoryReady? && e.id in Ran(maxJobs, ttl, events).waiting)
    ensures var s, t := Ran(maxJobs, ttl, events), Ran(maxJobs, ttl, events + [e]);
      forall j :: j in t.jobs <==> j in s.jobs && !(j.status in {Done, Errored} && e.at - j.createdAt > ttl)
  {
    hide Pruned, Ran, Handled;
    PruningPrunes(maxJobs, ttl, events, e);
    MapStaysBounded(maxJobs, ttl, events);
    FittingDropsExpired(Ran(maxJobs, ttl, events).jobs, e.at - ttl, maxJobs);
  }
}
