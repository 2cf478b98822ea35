/** The video cache: one pass over all clips builds an index, and the hits are repeated to fill a list. */
module ClipCache {
  import opened Wrappers

  /** A stored clip that has a uri column; topics are already lower-cased, and "" means the key is missing. */
  datatype Clip = Clip(topic: string, sign: string, uri: string)

  // ---- specification ----

  /** The newest clip of a topic and sign; `clips` lists the newest first. */
  function Newest(clips: seq<Clip>, topic: string, sign: string): Option<Clip> {
    if clips == [] || sign == "" then None
    else if clips[0].topic == topic && clips[0].sign == sign then Some(clips[0])
    else Newest(clips[1..], topic, sign)
  }

  function OfTopic(clips: seq<Clip>, topic: string): seq<Clip> {
    if clips == [] then []
    else
      var last := clips[|clips| - 1];
      OfTopic(clips[..|clips| - 1], topic) + if last.topic == topic then [last] else []
  }

  /** The newest clip of each sign that has one, in the order of the signs. */
  function PerSign(clips: seq<Clip>, topic: string, signs: seq<string>): seq<Clip> {
    if signs == [] then []
    else
      var hit := Newest(clips, topic, signs[|signs| - 1]);
      PerSign(clips, topic, signs[..|signs| - 1]) + if hit.Some? then [hit.value] else []
  }

  function Take<T>(s: seq<T>, n: int): seq<T> {
    if n < 0 then [] else if n < |s| then s[..n] else s
  }

  /** A limit below one still yields the first hit without signs, and the first sign's hit with them. */
  function Found(clips: seq<Clip>, topic: string, signs: Option<seq<string>>, limit: int): seq<Clip> {
    match signs
    case None => Take(OfTopic(clips, topic), if limit < 1 then 1 else limit)
    case Some(ss) => if limit < 1 then PerSign(clips, topic, Take(ss, 1)) else Take(PerSign(clips, topic, ss), limit)
  }

  function Uris(clips: seq<Clip>): seq<string> {
    if clips == [] then []
    else
      var last := clips[|clips| - 1];
      Uris(clips[..|clips| - 1]) + if last.uri == "" then [] else [last.uri]
  }

  function SignsOf(clips: seq<Clip>): set<string> {
    set i | 0 <= i < |clips| && clips[i].uri != "" && clips[i].sign != "" :: clips[i].sign
  }

  function Except(signs: seq<string>, present: set<string>): seq<string> {
    if signs == [] then []
    else
      var last := signs[|signs| - 1];
      Except(signs[..|signs| - 1], present) + if last in present then [] else [last]
  }

  function Cycled(urls: seq<string>, required: int): (r: seq<string>)
    ensures urls != [] ==> |r| == if required > |urls| then required else |urls|
    ensures urls != [] ==> forall i | 0 <= i < |r| :: r[i] == urls[i % |urls|]
    ensures urls == [] ==> r == []
  {
    if urls == [] || required <= |urls| then urls
    else seq(required, i requires 0 <= i => urls[i % |urls|])
  }

  // ---- the two functions of the program ----

  method FindCachedVideos(clips: seq<Clip>, topic: string, signs: Option<seq<string>>, limit: int)
    returns (results: seq<Clip>)
    ensures results == Found(clips, topic, signs, limit)
  {
    hide OfTopic, Newest, Indexed;
    var index: map<string, Clip> := map[];
    var topicClips: seq<Clip> := [];
    NothingIndexed(topic, SignsOrNone(signs));
    for i := 0 to |clips|
      invariant signs.None? ==> topicClips == OfTopic(clips[..i], topic) && (i > 0 && topicClips != [] ==> |topicClips| < limit)
      invariant signs.Some? ==> Indexed(clips[..i], topic, signs.value, index)
    {
      var clip := clips[i];
      assert clips[..i + 1] == clips[..i] + [clip];
      OfTopicSnoc(clips[..i], clip, topic);
      if signs.Some? {
        IndexStep(clips[..i], clip, topic, signs.value, index);
      }
      if clip.topic == topic {
        if signs.None? {
          topicClips := topicClips + [clip];
          if |topicClips| >= limit {
            OfTopicPrefix(clips, topic, i + 1);
            return topicClips;
          }
        } else if clip.sign != "" && clip.sign in signs.value && clip.sign !in index {
          index := index[clip.sign := clip];
        }
      }
    }
    assert clips[..|clips|] == clips;
    if signs.None? {
      return topicClips;
    }
    results := InSignOrder(clips, topic, signs.value, index, limit);
  }

  /** The index after one pass over `clips`: the newest clip of every sign asked for that has one. */
  ghost predicate Indexed(clips: seq<Clip>, topic: string, signs: seq<string>, index: map<string, Clip>) {
    && (forall s :: s in index <==> s in signs && Newest(clips, topic, s).Some?)
    && (forall s | s in index :: Newest(clips, topic, s) == Some(index[s]))
  }

  lemma NothingIndexed(topic: string, signs: seq<string>)
    ensures Indexed([], topic, signs, map[]) && OfTopic([], topic) == []
  {
  }

  lemma IndexStep(clips: seq<Clip>, clip: Clip, topic: string, signs: seq<string>, index: map<string, Clip>)
    requires Indexed(clips, topic, signs, index)
    ensures Indexed(clips + [clip], topic, signs,
                    if clip.topic == topic && clip.sign != "" && clip.sign in signs && clip.sign !in index
                    then index[clip.sign := clip] else index)
  {
    NewestSnocAll(clips, clip, topic);
  }

  lemma OfTopicSnoc(clips: seq<Clip>, clip: Clip, topic: string)
    ensures OfTopic(clips + [clip], topic) == OfTopic(clips, topic) + if clip.topic == topic then [clip] else []
  {
    assert (clips + [clip])[..|clips|] == clips;
  }

  /** Second loop: read the index in sign order, stopping once the limit is reached. */
  method InSignOrder(ghost clips: seq<Clip>, ghost topic: string, signs: seq<string>, index: map<string, Clip>, limit: int)
    returns (results: seq<Clip>)
    requires Indexed(clips, topic, signs, index)
    ensures results == Found(clips, topic, Some(signs), limit)
  {
    hide PerSign, Newest;
    results := [];
    NoSigns(clips, topic);
    for i := 0 to |signs|
      invariant results == PerSign(clips, topic, signs[..i]) && (i > 0 ==> |results| < limit)
    {
      assert signs[..i + 1] == signs[..i] + [signs[i]];
      PerSignSnoc(clips, topic, signs[..i], signs[i]);
      if signs[i] in index {
        results := results + [index[signs[i]]];
      }
      if |results| >= limit {
        PerSignPrefix(clips, topic, signs, i + 1);
        if limit < 1 {
          assert signs[..1] == Take(signs, 1);
        }
        return;
      }
    }
    assert signs[..|signs|] == signs;
  }

  lemma NoSigns(clips: seq<Clip>, topic: string)
    ensures PerSign(clips, topic, []) == []
  {
  }

  lemma PerSignSnoc(clips: seq<Clip>, topic: string, signs: seq<string>, sign: string)
    ensures var hit := Newest(clips, topic, sign);
      PerSign(clips, topic, signs + [sign]) == PerSign(clips, topic, signs) + if hit.Some? then [hit.value] else []
  {
    assert (signs + [sign])[..|signs|] == signs;
  }

  method CheckVideoCache(clips: seq<Clip>, topic: string, signs: Option<seq<string>>, required: int, useCache: bool)
    returns (urls: seq<string>, missing: seq<string>)
    ensures !useCache ==> urls == [] && missing == SignsOrNone(signs)
    ensures useCache ==> urls == Cycled(Uris(Found(clips, topic, signs, required)), required)
    ensures useCache ==> missing == Except(SignsOrNone(signs), SignsOf(Found(clips, topic, signs, required)))
  {
    if !useCache {
      return [], SignsOrNone(signs);
    }
    var found := FindCachedVideos(clips, topic, signs, required);
    var hits, cachedSigns := CollectHits(found);
    missing := MissingSigns(SignsOrNone(signs), cachedSigns);
    urls := Fill(hits, required);
  }

  /** First loop: the uris of the hits, and the signs they cover. */
  method CollectHits(found: seq<Clip>) returns (urls: seq<string>, cachedSigns: set<string>)
    ensures urls == Uris(found) && cachedSigns == SignsOf(found)
  {
    hide Uris, SignsOf;
    urls, cachedSigns := [], {};
    NothingFound();
    for i := 0 to |found|
      invariant urls == Uris(found[..i]) && cachedSigns == SignsOf(found[..i])
    {
      assert found[..i + 1] == found[..i] + [found[i]];
      SignsOfSnoc(found[..i], found[i]);
      UrisSnoc(found[..i], found[i]);
      if found[i].uri != "" {
        urls := urls + [found[i].uri];
        if found[i].sign != "" {
          cachedSigns := cachedSigns + {found[i].sign};
        }
      }
    }
    assert found[..|found|] == found;
  }

  lemma NothingFound()
    ensures Uris([]) == [] && SignsOf([]) == {}
  {
  }

  lemma UrisSnoc(clips: seq<Clip>, clip: Clip)
    ensures Uris(clips + [clip]) == Uris(clips) + if clip.uri == "" then [] else [clip.uri]
  {
    assert (clips + [clip])[..|clips|] == clips;
  }

  method MissingSigns(signs: seq<string>, cachedSigns: set<string>) returns (missing: seq<string>)
    ensures missing == Except(signs, cachedSigns)
  {
    missing := [];
    for i := 0 to |signs|
      invariant missing == Except(signs[..i], cachedSigns)
    {
      assert signs[..i + 1][..i] == signs[..i];
      if signs[i] !in cachedSigns {
        missing := missing + [signs[i]];
      }
    }
    assert signs[..|signs|] == signs;
  }

  /** Last loop: repeat the hits from the front until enough slots are filled. */
  method Fill(original: seq<string>, required: int) returns (urls: seq<string>)
    ensures urls == Cycled(original, required)
  {
    urls := original;
    if |urls| >= required || urls == [] {
      return;
    }
    var count := |original|;
    while |urls| < required
      invariant 0 < count == |original| <= |urls| <= required
      invariant urls == Cycled(original, |urls|)
    {
      CycleStep(original, |urls|);
      urls := urls + [urls[|urls| % count]];
    }
  }

  /** The next slot repeats the url one whole cycle earlier. */
  lemma CycleStep(original: seq<string>, n: nat)
    requires 0 < |original| <= n
    ensures |Cycled(original, n)| == n && Cycled(original, n + 1) == Cycled(original, n) + [original[n % |original|]]
    ensures Cycled(original, n)[n % |original|] == original[n % |original|]
  {
    hide Cycled;
    var slot := n % |original|;
    SmallMod(slot, |original|);
    var shorter, longer := Cycled(original, n), Cycled(original, n + 1);
    assert |shorter| == n && |longer| == n + 1;
    assert shorter[slot] == original[slot];
    assert longer[n] == original[slot];
    forall i | 0 <= i < n ensures longer[i] == shorter[i] {
      assert longer[i] == original[i % |original|];
    }
    SnocByElements(shorter, original[slot], longer);
  }

  lemma SnocByElements(shorter: seq<string>, last: string, longer: seq<string>)
    requires |longer| == |shorter| + 1 && longer[|shorter|] == last
    requires forall i | 0 <= i < |shorter| :: longer[i] == shorter[i]
    ensures longer == shorter + [last]
  {
  }

  lemma SmallMod(k: nat, n: nat)
    requires k < n
    ensures k % n == k
  {
  }

  function SignsOrNone(signs: Option<seq<string>>): seq<string> {
    if signs.Some? then signs.value else []
  }

  // ---- supporting facts ----

  lemma {:induction false} NewestSnoc(clips: seq<Clip>, clip: Clip, topic: string, sign: string)
    ensures Newest(clips + [clip], topic, sign) ==
            if Newest(clips, topic, sign).Some? then Newest(clips, topic, sign)
            else if sign != "" && clip.topic == topic && clip.sign == sign then Some(clip) else None
  {
    if clips != [] {
      assert (clips + [clip])[1..] == clips[1..] + [clip];
      NewestSnoc(clips[1..], clip, topic, sign);
    }
  }

  lemma NewestSnocAll(clips: seq<Clip>, clip: Clip, topic: string)
    ensures forall s :: Newest(clips + [clip], topic, s) ==
                        if Newest(clips, topic, s).Some? then Newest(clips, topic, s)
                        else if s != "" && clip.topic == topic && clip.sign == s then Some(clip) else None
  {
    forall s | true
      ensures Newest(clips + [clip], topic, s) ==
              if Newest(clips, topic, s).Some? then Newest(clips, topic, s)
              else if s != "" && clip.topic == topic && clip.sign == s then Some(clip) else None
    {
      NewestSnoc(clips, clip, topic, s);
    }
  }

  lemma {:induction false} NewestFacts(clips: seq<Clip>, topic: string, sign: string)
    ensures Newest(clips, topic, sign).Some? <==>
            sign != "" && exists i | 0 <= i < |clips| :: clips[i].topic == topic && clips[i].sign == sign
    ensures Newest(clips, topic, sign).Some? ==>
              exists i | 0 <= i < |clips| :: IsNewestAt(clips, topic, sign, i)
  {
    if clips != [] && sign != "" {
      if clips[0].topic == topic && clips[0].sign == sign {
        assert IsNewestAt(clips, topic, sign, 0);
      } else {
        NewestFacts(clips[1..], topic, sign);
        if Newest(clips[1..], topic, sign).Some? {
          var i :| 0 <= i < |clips[1..]| && IsNewestAt(clips[1..], topic, sign, i);
          assert forall k | 0 <= k < |clips[1..]| :: clips[1..][k] == clips[k + 1];
          assert clips[i + 1] == clips[1..][i];
          assert forall k | 1 <= k < i + 1 :: clips[k] == clips[1..][k - 1];
          assert IsNewestAt(clips, topic, sign, i + 1);
        }
        assert forall i | 1 <= i < |clips| :: clips[i] == clips[1..][i - 1];
      }
    }
  }

  /** Position i holds the newest clip: it matches, and nothing newer does. */
  ghost predicate IsNewestAt(clips: seq<Clip>, topic: string, sign: string, i: int)
    requires 0 <= i < |clips|
  {
    && clips[i].topic == topic && clips[i].sign == sign && Newest(clips, topic, sign) == Some(clips[i])
    && forall k | 0 <= k < i :: clips[k].topic != topic || clips[k].sign != sign
  }

  lemma {:induction false} OfTopicPrefix(clips: seq<Clip>, topic: string, n: nat)
    requires n <= |clips|
    ensures OfTopic(clips[..n], topic) <= OfTopic(clips, topic)
  {
    if n < |clips| {
      var m := |clips| - 1;
      assert clips[..m][..n] == clips[..n];
      OfTopicPrefix(clips[..m], topic, n);
    } else {
      assert clips[..n] == clips;
    }
  }

  lemma {:induction false} PerSignPrefix(clips: seq<Clip>, topic: string, signs: seq<string>, n: nat)
    requires n <= |signs|
    ensures PerSign(clips, topic, signs[..n]) <= PerSign(clips, topic, signs)
  {
    if n < |signs| {
      var m := |signs| - 1;
      assert signs[..m][..n] == signs[..n];
      PerSignPrefix(clips, topic, signs[..m], n);
    } else {
      assert signs[..n] == signs;
    }
  }

  lemma SignsOfSnoc(clips: seq<Clip>, clip: Clip)
    ensures SignsOf(clips + [clip]) == SignsOf(clips) + if clip.uri != "" && clip.sign != "" then {clip.sign} else {}
  {
    var all := clips + [clip];
    assert forall i | 0 <= i < |clips| :: all[i] == clips[i];
    assert all[|clips|] == clip;
    forall s | s in SignsOf(clips) ensures s in SignsOf(all) {
      var i :| 0 <= i < |clips| && clips[i].uri != "" && clips[i].sign != "" && clips[i].sign == s;
      assert all[i] == clips[i];
    }
  }

  lemma {:induction false} PerSignLength(clips: seq<Clip>, topic: string, signs: seq<string>)
    ensures |PerSign(clips, topic, signs)| <= |signs|
    ensures forall c | c in PerSign(clips, topic, signs) ::
              c.sign in signs && c.sign != "" && Newest(clips, topic, c.sign) == Some(c)
    ensures forall s | s in signs && Newest(clips, topic, s).Some? ::
              Newest(clips, topic, s).value in PerSign(clips, topic, signs)
  {
    if signs != [] {
      var n := |signs| - 1;
      PerSignLength(clips, topic, signs[..n]);
      assert signs == signs[..n] + [signs[n]];
      NewestFacts(clips, topic, signs[n]);
    }
  }

  // ---- agreement with the specification ----

  /** With a limit no smaller than the number of signs, every sign's newest clip is returned, in sign order. */
  lemma AllHitsReturned(clips: seq<Clip>, topic: string, signs: seq<string>, limit: int)
    requires limit >= |signs| >= 1
    ensures Found(clips, topic, Some(signs), limit) == PerSign(clips, topic, signs)
  {
    PerSignLength(clips, topic, signs);
  }

  lemma {:induction false} ExceptMembers(signs: seq<string>, present: set<string>)
    ensures forall s :: s in Except(signs, present) <==> s in signs && s !in present
  {
    if signs != [] {
      var n := |signs| - 1;
      ExceptMembers(signs[..n], present);
      assert signs == signs[..n] + [signs[n]];
    }
  }

  predicate Cached(clips: seq<Clip>, topic: string, sign: string) {
    sign != "" && exists i | 0 <= i < |clips| :: clips[i].topic == topic && clips[i].sign == sign
  }

  /** The newest clip of the sign is among those returned, and it has a uri. */
  predicate Delivered(clips: seq<Clip>, topic: string, signs: seq<string>, required: int, sign: string) {
    var newest := Newest(clips, topic, sign);
    newest.Some? && newest.value.uri != "" && newest.value in Found(clips, topic, Some(signs), required)
  }

  lemma FoundAreNewest(clips: seq<Clip>, topic: string, signs: seq<string>, limit: int)
    ensures forall c | c in Found(clips, topic, Some(signs), limit) :: Newest(clips, topic, c.sign) == Some(c)
  {
    PerSignLength(clips, topic, signs);
    PerSignLength(clips, topic, Take(signs, 1));
  }

  /** Which signs are reported missing, for every limit: those whose newest clip was not returned or has no uri. */
  lemma MissingExactly(clips: seq<Clip>, topic: string, signs: seq<string>, required: int)
    ensures forall s :: s in Except(signs, SignsOf(Found(clips, topic, Some(signs), required))) <==>
                        s in signs && !Delivered(clips, topic, signs, required, s)
  {
    var found := Found(clips, topic, Some(signs), required);
    ExceptMembers(signs, SignsOf(found));
    FoundAreNewest(clips, topic, signs, required);
    forall s | s in signs ensures s in SignsOf(found) <==> Delivered(clips, topic, signs, required, s) {
      NewestFacts(clips, topic, s);
      if s in SignsOf(found) {
        var k :| 0 <= k < |found| && found[k].sign == s && found[k].uri != "";
        assert found[k] in found;
      }
      if Delivered(clips, topic, signs, required, s) {
        var k :| 0 <= k < |found| && found[k] == Newest(clips, topic, s).value;
        assert found[k].sign == s;
      }
    }
  }

  ghost predicate AllUsable(clips: seq<Clip>) {
    forall i | 0 <= i < |clips| :: clips[i].uri != ""
  }

  /** The report says of every sign whether it has a clip of the topic. */
  ghost predicate ReportsTruly(clips: seq<Clip>, topic: string, signs: seq<string>, required: int) {
    forall s | s in signs ::
      s in Except(signs, SignsOf(Found(clips, topic, Some(signs), required))) <==> !Cached(clips, topic, s)
  }

  /** With room for every hit, the missing signs are exactly those without a clip of the topic iff the newest clip
      of every sign has a uri. */
  lemma FittingReport(clips: seq<Clip>, topic: string, signs: seq<string>, required: int)
    requires required >= 1 && required >= |PerSign(clips, topic, signs)|
    ensures ReportsTruly(clips, topic, signs, required) <==> AllUsable(PerSign(clips, topic, signs))
  {
    var hits := PerSign(clips, topic, signs);
    assert Found(clips, topic, Some(signs), required) == hits;
    PerSignLength(clips, topic, signs);
    MissingExactly(clips, topic, signs, required);
    forall s | s in signs ensures Cached(clips, topic, s) <==> Newest(clips, topic, s).Some? {
      NewestFacts(clips, topic, s);
    }
    if ReportsTruly(clips, topic, signs, required) {
      forall i | 0 <= i < |hits| ensures hits[i].uri != "" {
        assert hits[i] in hits;
        assert Delivered(clips, topic, signs, required, hits[i].sign);
      }
    } else {
      var s :| s in signs && Cached(clips, topic, s) && !Delivered(clips, topic, signs, required, s);
      assert Newest(clips, topic, s).value in hits;
    }
  }

  ghost predicate Distinct(signs: seq<string>) {
    forall i, k | 0 <= i < k < |signs| :: signs[i] != signs[k]
  }

  /** Distinct signs have distinct hits. */
  lemma {:induction false} HitsAreDistinct(clips: seq<Clip>, topic: string, signs: seq<string>)
    requires Distinct(signs)
    ensures var hits := PerSign(clips, topic, signs); forall i, k | 0 <= i < k < |hits| :: hits[i].sign != hits[k].sign
  {
    if signs != [] {
      var n := |signs| - 1;
      HitsAreDistinct(clips, topic, signs[..n]);
      PerSignLength(clips, topic, signs[..n]);
      NewestFacts(clips, topic, signs[n]);
      NewestHasSign(clips, topic, signs[n]);
      var front := PerSign(clips, topic, signs[..n]);
      forall i | 0 <= i < |front| ensures front[i].sign != signs[n] {
        assert front[i] in front;
      }
    }
  }

  lemma {:induction false} NewestHasSign(clips: seq<Clip>, topic: string, sign: string)
    ensures Newest(clips, topic, sign).Some? ==> Newest(clips, topic, sign).value.sign == sign
  {
    if clips != [] {
      NewestHasSign(clips[1..], topic, sign);
    }
  }

  lemma BeyondPrefix(hits: seq<Clip>, n: nat)
    requires n < |hits| && forall i | 0 <= i < n :: hits[i].sign != hits[n].sign
    ensures hits[n] !in hits[..n]
  {
  }

  /** A hit that the limit cuts off is reported missing. */
  lemma CutOffIsMisreported(clips: seq<Clip>, topic: string, signs: seq<string>, required: int)
    requires Distinct(signs) && 1 <= required < |PerSign(clips, topic, signs)|
    ensures !ReportsTruly(clips, topic, signs, required)
  {
    var hits := PerSign(clips, topic, signs);
    var cut := hits[required];
    assert cut in hits;
    PerSignLength(clips, topic, signs);
    HitsAreDistinct(clips, topic, signs);
    NewestFacts(clips, topic, cut.sign);
    MissingExactly(clips, topic, signs, required);
    BeyondPrefix(hits, required);
    assert cut !in Found(clips, topic, Some(signs), required);
    assert cut.sign in signs && Cached(clips, topic, cut.sign);
  }

  /** The report is true exactly when the slots asked for suffice for the signs that have a clip, and the newest clip
      of each of these has a uri. */
  lemma TruthfulExactly(clips: seq<Clip>, topic: string, signs: seq<string>, required: int)
    requires Distinct(signs) && required >= 1
    ensures ReportsTruly(clips, topic, signs, required) <==>
            |PerSign(clips, topic, signs)| <= required && AllUsable(PerSign(clips, topic, signs))
  {
    if required < |PerSign(clips, topic, signs)| {
      CutOffIsMisreported(clips, topic, signs, required);
    } else {
      FittingReport(clips, topic, signs, required);
    }
  }

  /** Each hit really is the newest clip of its sign and topic. */
  lemma HitsAreNewest(clips: seq<Clip>, topic: string, signs: seq<string>, c: Clip)
    requires c in PerSign(clips, topic, signs)
    ensures exists i | 0 <= i < |clips| :: clips[i] == c && IsNewestAt(clips, topic, c.sign, i)
  {
    PerSignLength(clips, topic, signs);
    NewestFacts(clips, topic, c.sign);
    var i :| 0 <= i < |clips| && IsNewestAt(clips, topic, c.sign, i);
    assert clips[i] == c;
  }

  /** The same with a slot for every sign, which needs no look at the hits. */
  lemma MissingAreUncached(clips: seq<Clip>, topic: string, signs: seq<string>, required: int)
    requires required >= |signs| >= 1
    ensures ReportsTruly(clips, topic, signs, required) <==> AllUsable(PerSign(clips, topic, signs))
  {
    PerSignLength(clips, topic, signs);
    FittingReport(clips, topic, signs, required);
  }

  /** The positions of these clips: increasing, and each holding the clip in question. */
  ghost predicate At(clips: seq<Clip>, found: seq<Clip>, positions: seq<int>) {
    && |positions| == |found| && (forall k | 0 <= k < |positions| :: 0 <= positions[k] < |clips| && clips[positions[k]] == found[k])
    && forall i, k | 0 <= i < k < |positions| :: positions[i] < positions[k]
  }

  lemma AtSnoc(clips: seq<Clip>, clip: Clip, found: seq<Clip>, positions: seq<int>)
    requires At(clips, found, positions)
    ensures At(clips + [clip], found, positions) && At(clips + [clip], found + [clip], positions + [|clips|])
  {
  }

  lemma {:induction false} TopicPositions(clips: seq<Clip>, topic: string) returns (positions: seq<int>)
    ensures At(clips, OfTopic(clips, topic), positions)
    ensures forall p | 0 <= p < |clips| :: p in positions <==> clips[p].topic == topic
  {
    positions := [];
    if clips != [] {
      var n := |clips| - 1;
      var front := TopicPositions(clips[..n], topic);
      AtSnoc(clips[..n], clips[n], OfTopic(clips[..n], topic), front);
      PositionsBelow(clips[..n], OfTopic(clips[..n], topic), front);
      hide At, OfTopic;
      assert clips == clips[..n] + [clips[n]];
      OfTopicSnoc(clips[..n], clips[n], topic);
      positions := if clips[n].topic == topic then front + [n] else front;
      forall p | 0 <= p < |clips| ensures p in positions <==> clips[p].topic == topic {
        if p < n {
          assert clips[..n][p] == clips[p];
        }
      }
    }
  }

  lemma PositionsBelow(clips: seq<Clip>, found: seq<Clip>, positions: seq<int>)
    requires At(clips, found, positions)
    ensures |clips| !in positions
  {
  }

  /** Without signs the search returns the newest clips of the topic, newest first: all of them, or as many as the limit,
      at least one, allows. */
  lemma TopicSearchExactly(clips: seq<Clip>, topic: string, limit: int) returns (positions: seq<int>)
    ensures var found := Found(clips, topic, None, limit);
      && At(clips, found, positions) && |found| <= (if limit < 1 then 1 else limit)
      && (forall p | p in positions :: 0 <= p < |clips| && clips[p].topic == topic)
      && forall p | 0 <= p < |clips| && clips[p].topic == topic && p !in positions ::
           |found| == (if limit < 1 then 1 else limit) && forall k | 0 <= k < |positions| :: positions[k] < p
  {
    var all := TopicPositions(clips, topic);
    positions := Take(all, if limit < 1 then 1 else limit);
    forall p | p in all && p !in positions ensures forall k | 0 <= k < |positions| :: positions[k] < p {
      var i :| 0 <= i < |all| && all[i] == p;
      if i < |positions| {
        assert false;
      }
    }
  }

  lemma {:induction false} UrisExactly(found: seq<Clip>)
    ensures forall u :: u in Uris(found) <==> u != "" && exists c | c in found :: c.uri == u
  {
    if found != [] {
      var n := |found| - 1;
      UrisExactly(found[..n]);
      assert found == found[..n] + [found[n]];
    }
  }

  lemma CyclingKeepsMembers(urls: seq<string>, required: int, u: string)
    ensures u in Cycled(urls, required) <==> u in urls
  {
    hide Cycled;
    if urls != [] {
      var r := Cycled(urls, required);
      forall i | 0 <= i < |r| ensures r[i] in urls {
        assert r[i] == urls[i % |urls|];
      }
      forall i | 0 <= i < |urls| ensures urls[i] in r {
        SmallModulus(i, |urls|);
        assert r[i] == urls[i];
      }
    }
  }

  lemma SmallModulus(i: nat, n: nat)
    requires i < n
    ensures i % n == i
  {
  }

  /** The urls handed out are the uris of the hits that have one, each of them at least once, and nothing else. */
  lemma UrlsAreOfHits(clips: seq<Clip>, topic: string, signs: Option<seq<string>>, required: int, u: string)
    ensures u in Cycled(Uris(Found(clips, topic, signs, required)), required) <==>
            u != "" && exists c | c in Found(clips, topic, signs, required) :: c.uri == u
  {
    UrisExactly(Found(clips, topic, signs, required));
    CyclingKeepsMembers(Uris(Found(clips, topic, signs, required)), required, u);
    hide Found, Uris, Cycled;
  }

  /** The limit does matter: with fewer slots than signs a cached sign is reported missing. */
  lemma SmallLimitMisreports()
    ensures var clips := [Clip("t", "aries", "u1"), Clip("t", "leo", "u2")];
      Newest(clips, "t", "leo") == Some(clips[1])
      && "leo" in Except(["aries", "leo"], SignsOf(Found(clips, "t", Some(["aries", "leo"]), 1)))
  {
    var clips := [Clip("t", "aries", "u1"), Clip("t", "leo", "u2")];
    var signs := ["aries", "leo"];
    assert clips[1..] == [clips[1]];
    assert signs[..1] == ["aries"] && signs[..1][..0] == [];
    assert PerSign(clips, "t", signs[..1]) == [clips[0]];
    assert PerSign(clips, "t", signs) == [clips[0], clips[1]];
    var found := Found(clips, "t", Some(signs), 1);
    assert found == [clips[0]];
    assert SignsOf(found) == {"aries"} by {
      assert found[0].sign == "aries";
    }
    assert "leo"[0] != "aries"[0];
    ExceptMembers(signs, SignsOf(found));
    assert signs[1] == "leo";
  }

  /** An empty uri hides every older clip of its sign. */
  lemma EmptyUriHidesOlder()
    ensures var clips := [Clip("t", "leo", ""), Clip("t", "leo", "u")];
      "leo" in Except(["leo"], SignsOf(Found(clips, "t", Some(["leo"]), 12)))
  {
    var clips := [Clip("t", "leo", ""), Clip("t", "leo", "u")];
    assert ["leo"][..0] == [];
    assert PerSign(clips, "t", ["leo"]) == [clips[0]];
    assert SignsOf([clips[0]]) == {};
    ExceptMembers(["leo"], {});
    assert ["leo"][0] == "leo";
  }
}
