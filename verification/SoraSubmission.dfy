/** Paid submissions to the video provider, made at most once per request. */
module SoraSubmission {
  import opened Wrappers

  datatype Video = Video(
    prompt: string, voiceOver: string, topic: string, sign: string, objectName: string,
    videoIndex: Option<int>, videoIndexAlias: Option<int>, idx: Option<int>, index: Option<int>)

  /** The key data of a request stands for its sha256 digest; it contains the run ("" when there is none) and the
      videos in order. */
  datatype Key = Key(runId: string, videos: seq<Video>, aspectRatio: string, frames: string)

  /** What is recorded about a task; topic, sign and object name only when given. */
  datatype TaskMeta = TaskMeta(videoIndex: int, size: string, seconds: string, topic: string, sign: string, objectName: string)

  /** A stored clip manifest: its key and its task ids with metadata, in submission order. */
  datatype Manifest = Manifest(key: Key, taskIds: seq<string>, meta: map<string, TaskMeta>)

  /** One provider response per video tried; None is a refused or failed submission. */
  type Responses = seq<Option<string>>

  datatype Reply = Reply(taskIds: seq<string>, meta: map<string, TaskMeta>, replayed: bool) | Stopped(submitted: nat)

  function OrElse(raw: Option<int>, fallback: int): int {
    if raw.None? || raw.value == 0 then fallback else raw.value
  }

  function CoerceVideoIndex(v: Video, fallback: int): int {
    OrElse(v.videoIndex, OrElse(v.videoIndexAlias, OrElse(v.idx, OrElse(v.index, fallback))))
  }

  predicate Blank(raw: Option<int>) {
    raw.None? || raw.value == 0
  }

  /** An explicit index is honoured exactly when it is not 0, or nothing else says otherwise. */
  lemma ExplicitIndexExactly(v: Video, fallback: int)
    requires v.videoIndex.Some?
    ensures CoerceVideoIndex(v, fallback) == v.videoIndex.value <==>
            v.videoIndex.value != 0
            || (Blank(v.videoIndexAlias) && Blank(v.idx) && Blank(v.index) && fallback == 0)
  {
  }

  /** The fields that may carry an index, in the order in which they are asked. */
  function IndexFields(v: Video): seq<Option<int>> {
    [v.videoIndex, v.videoIndexAlias, v.idx, v.index]
  }

  /** A video gets the first index that one of its fields gives, where 0 counts as none, or else its position: so videos
      without an index are told apart by their positions. */
  lemma IndexExactly(v: Video, position: int, n: int)
    ensures CoerceVideoIndex(v, position) == n <==>
            if forall k | 0 <= k < 4 :: IndexFields(v)[k] in {None, Some(0)} then n == position
            else n != 0 && exists i | 0 <= i < 4 :: IndexFields(v)[i] == Some(n)
                                                     && forall k | 0 <= k < i :: IndexFields(v)[k] in {None, Some(0)}
  {
    var fields := IndexFields(v);
    assert fields[0] == v.videoIndex && fields[1] == v.videoIndexAlias && fields[2] == v.idx && fields[3] == v.index;
  }

  /** Re-submitting the first clip alone keeps index 0; re-submitting it in second place makes it clip 1. */
  lemma ExplicitZeroIsLost(v: Video)
    requires v.videoIndex == Some(0) && v.videoIndexAlias == v.idx == v.index == None
    ensures CoerceVideoIndex(v, 1) == 1
  {
  }

  /** str.lower() on the letters the size names are spelled with. */
  function Lower(text: string): (lower: string)
    ensures |lower| == |text|
  {
    seq(|text|, i requires 0 <= i < |text| =>
      if 'A' <= text[i] <= 'Z' then text[i] - 'A' + 'a' else text[i])
  }

  function SizeFor(aspectRatio: string): string {
    if Lower(aspectRatio) in {"landscape", "16:9", "16/9", "horizontal"} then "1280x720" else "720x1280"
  }

  function SecondsFor(frames: string): string {
    if frames in {"4", "8", "12"} then frames else "8"
  }

  function MetaFor(key: Key, i: nat): TaskMeta
    requires i < |key.videos|
  {
    var v := key.videos[i];
    TaskMeta(CoerceVideoIndex(v, i), SizeFor(key.aspectRatio), SecondsFor(key.frames), v.topic, v.sign, v.objectName)
  }

  /** How many leading videos the provider accepted; submission is fail-fast. */
  function Accepted(key: Key, responses: Responses): nat {
    AcceptedFrom(key, responses, 0)
  }

  function AcceptedFrom(key: Key, responses: Responses, i: nat): (n: nat)
    requires i <= |key.videos|
    ensures i <= n <= |key.videos| && (n > i ==> n <= |responses|)
    ensures forall k | i <= k < n :: responses[k].Some? && responses[k].value != ""
    decreases |key.videos| - i
  {
    if i < |key.videos| && i < |responses| && responses[i].Some? && responses[i].value != ""
    then AcceptedFrom(key, responses, i + 1)
    else i
  }

  function TaskIds(key: Key, responses: Responses): (ids: seq<string>)
    ensures |ids| == Accepted(key, responses)
  {
    seq(Accepted(key, responses), i requires 0 <= i < Accepted(key, responses) => responses[i].value)
  }

  /** The metadata dictionary built up along the accepted ids; a repeated id overwrites. */
  function MetaOf(key: Key, ids: seq<string>): map<string, TaskMeta>
    requires |ids| <= |key.videos|
  {
    if ids == [] then map[]
    else var n := |ids| - 1; MetaOf(key, ids[..n])[ids[n] := MetaFor(key, n)]
  }

  /** The dictionary's keys in insertion order: each id once, where it first occurred. */
  function Keys(ids: seq<string>): seq<string> {
    if ids == [] then []
    else
      var n := |ids| - 1;
      Keys(ids[..n]) + if ids[n] in ids[..n] then [] else [ids[n]]
  }

  ghost predicate Distinct(ids: seq<string>) {
    forall i, k | 0 <= i < k < |ids| :: ids[i] != ids[k]
  }

  lemma {:induction false} DistinctKeys(ids: seq<string>)
    requires Distinct(ids)
    ensures Keys(ids) == ids
  {
    if ids != [] {
      var n := |ids| - 1;
      var front := ids[..n];
      DistinctKeys(front);
      assert ids[n] !in front;
      assert ids == front + [ids[n]];
    }
  }

  lemma {:induction false} MetaOfDistinct(key: Key, ids: seq<string>, i: nat)
    requires Distinct(ids) && i < |ids| <= |key.videos|
    ensures ids[i] in MetaOf(key, ids) && MetaOf(key, ids)[ids[i]] == MetaFor(key, i)
  {
    if i < |ids| - 1 {
      MetaOfDistinct(key, ids[..|ids| - 1], i);
    }
  }

  predicate Stored(manifests: seq<Manifest>, key: Key) {
    exists i | 0 <= i < |manifests| :: manifests[i].key == key
  }

  function FirstStored(manifests: seq<Manifest>, key: Key): Manifest
    requires Stored(manifests, key)
  {
    if manifests[0].key == key then manifests[0] else FirstStored(manifests[1..], key)
  }

  /** A request with what the provider answers and whether the manifest store will commit. */
  datatype Request = Request(key: Key, responses: Responses, committed: bool)

  /** A tool without a run has nowhere to keep its manifest and no key to find it by. */
  predicate HasRun(key: Key) {
    key.runId != ""
  }

  predicate Keeps(r: Request) {
    HasRun(r.key) && r.committed
  }

  function Replay(m: Manifest): Reply {
    Reply(m.taskIds, m.meta, true)
  }

  /** The manifests and reply after one request, and how many submissions it paid for. */
  function Served(manifests: seq<Manifest>, r: Request): (seq<Manifest>, Reply, nat) {
    if HasRun(r.key) && Stored(manifests, r.key) then (manifests, Replay(FirstStored(manifests, r.key)), 0)
    else
      var ids := TaskIds(r.key, r.responses);
      var meta := MetaOf(r.key, ids);
      var after := if ids == [] || !Keeps(r) then manifests else manifests + [Manifest(r.key, Keys(ids), meta)];
      (after,
       if ids == [] || |ids| < |r.key.videos| || (HasRun(r.key) && !r.committed) then Stopped(|ids|)
       else Reply(ids, meta, false),
       |ids|)
  }

  class SoraTool {
    var manifests: seq<Manifest>
    var paid: nat

    constructor ()
      ensures manifests == [] && paid == 0
    {
      manifests, paid := [], 0;
    }

    /** The submission loop: it stops at the first failure and reports how far it got. */
    method SubmitOpenaiVideos(key: Key, responses: Responses)
      returns (taskIds: seq<string>, meta: map<string, TaskMeta>, stopped: bool)
      modifies this`paid
      ensures taskIds == TaskIds(key, responses) && meta == MetaOf(key, taskIds)
      ensures stopped == (|taskIds| < |key.videos|) && paid == old(paid) + |taskIds|
    {
      taskIds, meta, stopped := [], map[], false;
      var i := 0;
      while i < |key.videos|
        invariant 0 <= i <= |key.videos| && i <= Accepted(key, responses)
        invariant Accepted(key, responses) == AcceptedFrom(key, responses, i)
        invariant taskIds == TaskIds(key, responses)[..i] && |taskIds| == i && paid == old(paid) + i
        invariant meta == MetaOf(key, taskIds)
      {
        if i >= |responses| || responses[i].None? || responses[i].value == "" {
          stopped := true;
          break;
        }
        var task := responses[i].value;
        assert (taskIds + [task])[..i] == taskIds;
        paid := paid + 1;
        taskIds := taskIds + [task];
        meta := meta[task := MetaFor(key, i)];
        i := i + 1;
      }
    }

    /** A request: the stored manifest of the same key answers it, or else the videos are submitted and whatever
        was accepted is stored before any error is reported. */
    method RunReal(r: Request) returns (reply: Reply)
      modifies this
      ensures (manifests, reply, paid - old(paid)) == Served(old(manifests), r)
    {
      if r.key.runId != "" {
        var i := 0;
        while i < |manifests|
          invariant 0 <= i <= |manifests| && manifests == old(manifests) && paid == old(paid)
          invariant forall k | 0 <= k < i :: manifests[k].key != r.key
        {
          if manifests[i].key == r.key {
            FirstStoredIs(manifests, r.key, i);
            return Reply(manifests[i].taskIds, manifests[i].meta, true);
          }
          i := i + 1;
        }
      }
      var taskIds, meta, stopped := SubmitOpenaiVideos(r.key, r.responses);
      if r.key.runId != "" && taskIds != [] {
        if !r.committed {
          return Stopped(|taskIds|);
        }
        manifests := manifests + [Manifest(r.key, Keys(taskIds), meta)];
      }
      if stopped || taskIds == [] {
        return Stopped(|taskIds|);
      }
      return Reply(taskIds, meta, false);
    }
  }

  lemma {:induction false} FirstStoredIs(manifests: seq<Manifest>, key: Key, i: nat)
    requires i < |manifests| && manifests[i].key == key && forall k | 0 <= k < i :: manifests[k].key != key
    ensures Stored(manifests, key) && FirstStored(manifests, key) == manifests[i]
  {
    if i > 0 {
      FirstStoredIs(manifests[1..], key, i - 1);
    }
  }

  lemma {:induction false} FirstStoredStays(manifests: seq<Manifest>, more: Manifest, key: Key)
    requires Stored(manifests, key)
    ensures Stored(manifests + [more], key)
            && FirstStored(manifests + [more], key) == FirstStored(manifests, key)
  {
    assert (manifests + [more])[0] == manifests[0];
    if manifests[0].key != key {
      assert (manifests + [more])[1..] == manifests[1..] + [more];
      FirstStoredStays(manifests[1..], more, key);
    } else {
      assert Stored(manifests + [more], key);
    }
  }

  // ---- sequences of requests, of one or many keys ----

  function ManifestsAfter(requests: seq<Request>): seq<Manifest> {
    if requests == [] then []
    else var k := |requests| - 1; Served(ManifestsAfter(requests[..k]), requests[k]).0
  }

  /** The reply to the last request of a sequence. */
  function LastReply(requests: seq<Request>): Reply
    requires requests != []
  {
    var k := |requests| - 1;
    Served(ManifestsAfter(requests[..k]), requests[k]).1
  }

  /** How many submissions the requests of one key have paid for. */
  function Paid(key: Key, requests: seq<Request>): nat {
    if requests == [] then 0
    else
      var k := |requests| - 1;
      Paid(key, requests[..k])
      + if requests[k].key == key then Served(ManifestsAfter(requests[..k]), requests[k]).2 else 0
  }

  /** How many of them were forgotten because their manifest was not committed, or there was no run to keep it. */
  function Lost(key: Key, requests: seq<Request>): nat {
    if requests == [] then 0
    else
      var k := |requests| - 1;
      Lost(key, requests[..k])
      + if requests[k].key == key && !Keeps(requests[k])
        then Served(ManifestsAfter(requests[..k]), requests[k]).2 else 0
  }

  /** How many videos the provider accepted for the first request of the key whose manifest was kept. */
  function FirstKept(key: Key, requests: seq<Request>): nat {
    if requests == [] then 0
    else
      var k := |requests| - 1;
      var before := FirstKept(key, requests[..k]);
      if before > 0 then before
      else if requests[k].key == key && Keeps(requests[k]) then Accepted(key, requests[k].responses)
      else 0
  }

  lemma StoringAdds(before: seq<Manifest>, more: Manifest, key: Key)
    ensures Stored(before + [more], key) <==> Stored(before, key) || more.key == key
  {
    var after := before + [more];
    if Stored(before, key) {
      var i :| 0 <= i < |before| && before[i].key == key;
      assert after[i].key == key;
    }
    assert after[|before|] == more;
  }

  lemma ServedStores(before: seq<Manifest>, r: Request, key: Key)
    requires Stored(before, r.key) ==> HasRun(r.key)
    ensures var (after, _, paid) := Served(before, r);
      && (Stored(after, key) <==> Stored(before, key) || (r.key == key && Keeps(r) && Accepted(key, r.responses) > 0))
      && paid == if Stored(before, r.key) then 0 else Accepted(r.key, r.responses)
  {
    var ids := TaskIds(r.key, r.responses);
    StoringAdds(before, Manifest(r.key, Keys(ids), MetaOf(r.key, ids)), key);
  }

  lemma {:induction false} StoredHaveRuns(requests: seq<Request>, key: Key)
    ensures Stored(ManifestsAfter(requests), key) ==> HasRun(key)
  {
    if requests != [] {
      var k := |requests| - 1;
      StoredHaveRuns(requests[..k], key);
      StoredHaveRuns(requests[..k], requests[k].key);
      ServedStores(ManifestsAfter(requests[..k]), requests[k], key);
    }
  }

  /** Exactly what a key has cost: its lost submissions, and those of the first request whose manifest was kept. */
  lemma {:induction false} PaidExactly(key: Key, requests: seq<Request>)
    ensures Paid(key, requests) == Lost(key, requests) + FirstKept(key, requests)
    ensures Stored(ManifestsAfter(requests), key) <==> FirstKept(key, requests) > 0
    ensures Stored(ManifestsAfter(requests), key) ==> HasRun(key)
  {
    StoredHaveRuns(requests, key);
    if requests != [] {
      hide Served, Stored;
      var k := |requests| - 1;
      PaidExactly(key, requests[..k]);
      StoredHaveRuns(requests[..k], requests[k].key);
      ServedStores(ManifestsAfter(requests[..k]), requests[k], key);
    } else {
      NothingStored(key);
    }
  }

  lemma NothingStored(key: Key)
    ensures !Stored([], key)
  {
  }

  lemma {:induction false} FirstKeptFits(key: Key, requests: seq<Request>)
    ensures FirstKept(key, requests) <= |key.videos|
  {
    if requests != [] {
      FirstKeptFits(key, requests[..|requests| - 1]);
    }
  }

  /** At most once, exactly: the requests of a key pay for more videos than the key names iff the lost submissions
      exceed what the kept request left out. With nothing lost they never do. */
  lemma AtMostOncePaid(key: Key, requests: seq<Request>)
    ensures Paid(key, requests) > |key.videos| <==> Lost(key, requests) > |key.videos| - FirstKept(key, requests)
    ensures Lost(key, requests) == 0 ==> Paid(key, requests) <= |key.videos|
  {
    PaidExactly(key, requests);
    FirstKeptFits(key, requests);
  }

  /** A request leaves every stored record as it was, and a request of a recorded key is free. */
  lemma ServedKeepsRecord(before: seq<Manifest>, r: Request, key: Key)
    requires Stored(before, key) && HasRun(key)
    ensures var (after, _, paid) := Served(before, r);
      && Stored(after, key) && FirstStored(after, key) == FirstStored(before, key)
      && (r.key == key ==> paid == 0)
  {
    var after := Served(before, r).0;
    if after != before {
      FirstStoredStays(before, after[|before|], key);
    }
  }

  lemma {:induction false} RecordStays(key: Key, requests: seq<Request>, m: nat)
    requires m <= |requests| && Stored(ManifestsAfter(requests[..m]), key)
    ensures Stored(ManifestsAfter(requests), key)
    ensures FirstStored(ManifestsAfter(requests), key) == FirstStored(ManifestsAfter(requests[..m]), key)
    ensures Paid(key, requests) == Paid(key, requests[..m])
  {
    hide Served, FirstStored;
    if m < |requests| {
      var k := |requests| - 1;
      assert requests[..k][..m] == requests[..m];
      RecordStays(key, requests[..k], m);
      PaidExactly(key, requests[..k]);
      ServedKeepsRecord(ManifestsAfter(requests[..k]), requests[k], key);
    } else {
      assert requests[..m] == requests;
    }
  }

  lemma StoringRecords(before: seq<Manifest>, r: Request)
    requires !Stored(before, r.key) && Keeps(r) && TaskIds(r.key, r.responses) != []
    ensures var after, ids := Served(before, r).0, TaskIds(r.key, r.responses);
      Stored(after, r.key) && FirstStored(after, r.key) == Manifest(r.key, Keys(ids), MetaOf(r.key, ids))
  {
    FirstStoredIs(Served(before, r).0, r.key, |before|);
  }

  lemma ServedReplays(before: seq<Manifest>, r: Request)
    requires Stored(before, r.key) && HasRun(r.key)
    ensures Served(before, r).1 == Replay(FirstStored(before, r.key))
  {
  }

  /** Once a key has a stored manifest, a request of that key is answered from it and costs nothing. */
  lemma RecordAnswers(key: Key, requests: seq<Request>, m: nat)
    requires m < |requests| && Stored(ManifestsAfter(requests[..m]), key) && requests[|requests| - 1].key == key
    ensures LastReply(requests) == Replay(FirstStored(ManifestsAfter(requests[..m]), key))
    ensures Paid(key, requests) == Paid(key, requests[..m])
  {
    var k := |requests| - 1;
    assert requests[..k][..m] == requests[..m];
    hide Served, FirstStored, Stored, Replay;
    PaidExactly(key, requests[..m]);
    RecordStays(key, requests[..k], m);
    RecordStays(key, requests, m);
    ServedReplays(ManifestsAfter(requests[..k]), requests[k]);
  }

  /** The first submission of a key that is stored, complete or not, fixes every later reply of that key: its
      task ids in order, at no further cost. */
  lemma LaterRequestsReplay(earlier: seq<Request>, first: Request, later: seq<Request>)
    requires !Stored(ManifestsAfter(earlier), first.key) && Keeps(first)
    requires TaskIds(first.key, first.responses) != [] && Distinct(TaskIds(first.key, first.responses))
    requires later != [] && later[|later| - 1].key == first.key
    ensures var ids := TaskIds(first.key, first.responses);
            LastReply(earlier + [first] + later) == Reply(ids, MetaOf(first.key, ids), true)
    ensures Paid(first.key, earlier + [first] + later) == Paid(first.key, earlier + [first])
  {
    var start, all := earlier + [first], earlier + [first] + later;
    assert start[..|earlier|] == earlier && all[..|start|] == start;
    StoringRecords(ManifestsAfter(earlier), first);
    DistinctKeys(TaskIds(first.key, first.responses));
    RecordAnswers(first.key, all, |start|);
  }

  /** A retry after a partial submission is reported as a success, so the reply carries fewer videos than were
      asked for exactly when the first stored submission stopped part-way. */
  lemma PartialIsReplayedAsSuccess(earlier: seq<Request>, first: Request, later: seq<Request>)
    requires !Stored(ManifestsAfter(earlier), first.key) && Keeps(first)
    requires TaskIds(first.key, first.responses) != [] && Distinct(TaskIds(first.key, first.responses))
    requires later != [] && later[|later| - 1].key == first.key
    ensures LastReply(earlier + [first] + later).Reply?
    ensures |LastReply(earlier + [first] + later).taskIds| < |first.key.videos| <==> LastReply(earlier + [first]).Stopped?
  {
    LaterRequestsReplay(earlier, first, later);
    assert (earlier + [first])[..|earlier|] == earlier;
  }

  /** A request of a run is reported as a success exactly when its key is stored afterwards and either was stored before
      or has all its videos accepted: whatever a success names will be found again. */
  lemma {:induction false} SuccessExactly(requests: seq<Request>)
    requires requests != [] && HasRun(requests[|requests| - 1].key)
    ensures var k := |requests| - 1;
            var r := requests[k];
      LastReply(requests).Reply? <==>
      && Stored(ManifestsAfter(requests), r.key)
      && (Stored(ManifestsAfter(requests[..k]), r.key) || |TaskIds(r.key, r.responses)| == |r.key.videos|)
  {
    var k := |requests| - 1;
    ServedStores(ManifestsAfter(requests[..k]), requests[k], requests[k].key);
    hide Stored;
  }

  /** A request that stops says how many videos it has paid for, unless it is its manifest that could not be stored. */
  lemma {:induction false} StoppedTellsPaid(requests: seq<Request>)
    requires requests != [] && LastReply(requests).Stopped?
    requires HasRun(requests[|requests| - 1].key) ==> requests[|requests| - 1].committed
    ensures var k := |requests| - 1;
      LastReply(requests).submitted == Paid(requests[k].key, requests) - Paid(requests[k].key, requests[..k])
  {
  }

  /** A manifest lists each task it describes once, even when the provider repeats an id. */
  ghost predicate ListsOnce(m: Manifest) {
    Distinct(m.taskIds) && forall t :: t in m.taskIds <==> t in m.meta
  }

  lemma {:induction false} KeysListOnce(key: Key, ids: seq<string>)
    requires |ids| <= |key.videos|
    ensures Distinct(Keys(ids)) && (forall t :: t in Keys(ids) <==> t in ids) && MetaOf(key, ids).Keys == set t | t in ids
  {
    if ids != [] {
      var n := |ids| - 1;
      KeysListOnce(key, ids[..n]);
      assert ids == ids[..n] + [ids[n]];
    }
  }

  lemma {:induction false} ManifestsListOnce(requests: seq<Request>)
    ensures forall i | 0 <= i < |ManifestsAfter(requests)| :: ListsOnce(ManifestsAfter(requests)[i])
  {
    if requests != [] {
      hide ListsOnce, Keys, MetaOf;
      var k := |requests| - 1;
      ManifestsListOnce(requests[..k]);
      StoredListsOnce(requests[k]);
    }
  }

  lemma StoredListsOnce(r: Request)
    ensures var ids := TaskIds(r.key, r.responses); ListsOnce(Manifest(r.key, Keys(ids), MetaOf(r.key, ids)))
  {
    KeysListOnce(r.key, TaskIds(r.key, r.responses));
  }

  /** The two texts differ at most in the case of letters. */
  predicate SameIgnoringCase(text: string, lower: string) {
    |text| == |lower| && forall i | 0 <= i < |text| ::
      lower[i] == if 'A' <= text[i] <= 'Z' then text[i] - 'A' + 'a' else text[i]
  }

  lemma LowerExactly(text: string, lower: string)
    ensures Lower(text) == lower <==> SameIgnoringCase(text, lower)
  {
    if SameIgnoringCase(text, lower) {
      assert Lower(text) == lower;
    }
  }

  const LANDSCAPE := {"landscape", "16:9", "16/9", "horizontal"}

  /** The i-th recorded task describes the i-th video of the request, in the format that was asked for. */
  ghost predicate Describes(meta: TaskMeta, key: Key, i: nat)
    requires i < |key.videos|
  {
    var v := key.videos[i];
    && meta.topic == v.topic && meta.sign == v.sign && meta.objectName == v.objectName
    && meta.videoIndex == CoerceVideoIndex(v, i)
    && (meta.size == "1280x720" <==> exists name | name in LANDSCAPE :: SameIgnoringCase(key.aspectRatio, name))
    && meta.size in {"1280x720", "720x1280"}
    && meta.seconds in {"4", "8", "12"} && (key.frames in {"4", "8", "12"} ==> meta.seconds == key.frames)
    && (key.frames !in {"4", "8", "12"} ==> meta.seconds == "8")
  }

  lemma MetaDescribes(key: Key, i: nat)
    requires i < |key.videos|
    ensures Describes(MetaFor(key, i), key, i)
  {
    forall name | name in LANDSCAPE ensures Lower(key.aspectRatio) == name <==> SameIgnoringCase(key.aspectRatio, name) {
      LowerExactly(key.aspectRatio, name);
    }
    hide Lower, SameIgnoringCase;
    assert "1280x720"[0] != "720x1280"[0];
  }

  /** What a reply records about the tasks of a key, the first time and whenever it is replayed, describes the videos asked
      for, task by task. */
  lemma RepliesDescribeVideos(earlier: seq<Request>, first: Request, later: seq<Request>, i: nat)
    requires !Stored(ManifestsAfter(earlier), first.key) && Keeps(first)
    requires TaskIds(first.key, first.responses) != [] && Distinct(TaskIds(first.key, first.responses))
    requires later != [] ==> later[|later| - 1].key == first.key
    requires i < |TaskIds(first.key, first.responses)|
    ensures var reply, id := LastReply(earlier + [first] + later), TaskIds(first.key, first.responses)[i];
      reply.Reply? ==> id in reply.meta && Describes(reply.meta[id], first.key, i)
  {
    var ids := TaskIds(first.key, first.responses);
    MetaOfDistinct(first.key, ids, i);
    MetaDescribes(first.key, i);
    if later == [] {
      assert earlier + [first] + later == earlier + [first] && (earlier + [first])[..|earlier|] == earlier;
    } else {
      LaterRequestsReplay(earlier, first, later);
    }
  }

  /** One video, accepted twice because the first manifest was not committed. */
  lemma PaidTwice(v: Video)
    ensures var key := Key("run", [v], "9:16", "8");
      Paid(key, [Request(key, [Some("a")], false)] + [Request(key, [Some("b")], true)]) == 2 > |key.videos|
  {
    var key := Key("run", [v], "9:16", "8");
    var lost, kept := Request(key, [Some("a")], false), Request(key, [Some("b")], true);
    assert Accepted(key, lost.responses) == 1 == Accepted(key, kept.responses);
    assert ([lost] + [kept])[..1] == [lost] && [lost][..0] == [];
    PaidExactly(key, [lost] + [kept]);
    hide AcceptedFrom, Accepted;
    NothingStored(key);
    ServedStores([], lost, key);
    assert Lost(key, []) == 0 && FirstKept(key, []) == 0;
  }
}
