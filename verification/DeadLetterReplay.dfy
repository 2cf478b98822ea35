/** Replaying dead letters: what the extractors accept, and what the worker writes. */
module DeadLetterReplay {
  import opened Wrappers

  datatype Json = Null | Bool(b: bool) | Number(n: int) | Text(text: string) | List(items: seq<Json>) | Obj(fields: map<string, Json>)

  /** Why a letter cannot be replayed; BadShape stands for Python's TypeError and AttributeError. */
  datatype ReplayError = MissingUrl | BadShape | UnknownSource

  /** What was replayed: the urls of the clips, or the url of the render. */
  datatype Replayed = Videos(urls: seq<Json>) | Render(url: Json)

  predicate Truthy(j: Json) {
    match j
    case Null => false
    case Bool(b) => b
    case Number(n) => n != 0
    case Text(t) => t != ""
    case List(items) => items != []
    case Obj(fields) => fields != map[]
  }

  /** dict.get, with None for a missing key. */
  function Get(fields: map<string, Json>, key: string): Json {
    if key in fields then fields[key] else Null
  }

  function Or(a: Json, b: Json): Json {
    if Truthy(a) then a else b
  }

  function Letters(text: string): seq<Json> {
    seq(|text|, i requires 0 <= i < |text| => Text([text[i]]))
  }

  /** list(...) of a value: a string is taken apart, a number is a TypeError. The order in which the keys of an
      object are listed is `order`. */
  function Listed(j: Json, order: map<string, Json> -> seq<string>): Result<seq<Json>, ReplayError> {
    match j
    case List(items) => Success(items)
    case Text(t) => Success(Letters(t))
    case Obj(fields) => var keys := order(fields); Success(seq(|keys|, i requires 0 <= i < |keys| => Text(keys[i])))
    case Null => Failure(BadShape)
    case Bool(_) => Failure(BadShape)
    case Number(_) => Failure(BadShape)
  }

  /** The url field an extractor finds first, or Null; `parse` is json.loads. */
  function SoraUrls(payload: map<string, Json>, parse: string -> Option<Json>): Result<Json, ReplayError> {
    var direct := Or(Get(payload, "video_urls"), Get(payload, "video_clips"));
    if Truthy(direct) then Success(direct)
    else
      var data := Or(Get(payload, "data"), Obj(map[]));
      if !data.Obj? then Failure(BadShape)
      else
        var parsed := ParsedUrls(Get(data.fields, "resultJson"), parse);
        if parsed.Failure? || Truthy(parsed.value) then parsed
        else
          var info := Or(Get(data.fields, "info"), Obj(map[]));
          Success(if info.Obj? then Get(info.fields, "resultUrls") else Null)
  }

  function ParsedUrls(raw: Json, parse: string -> Option<Json>): Result<Json, ReplayError> {
    if !raw.Text? || parse(raw.text).None? then Success(Null)
    else if !parse(raw.text).value.Obj? then Failure(BadShape)
    else Success(Get(parse(raw.text).value.fields, "resultUrls"))
  }

  function Replay(source: string, payload: Json, parse: string -> Option<Json>, order: map<string, Json> -> seq<string>):
    Result<Replayed, ReplayError>
  {
    var body := Or(payload, Obj(map[]));
    if !body.Obj? then Failure(BadShape)
    else if source == "sora" then
      var urls := SoraUrls(body.fields, parse);
      if urls.Failure? then Failure(urls.error)
      else if !Truthy(urls.value) then Failure(MissingUrl)
      else
        var listed := Listed(urls.value, order);
        if listed.Failure? then Failure(listed.error)
        else if listed.value == [] then Failure(MissingUrl) else Success(Videos(listed.value))
    else if source == "remotion" then
      var url := Or(Get(body.fields, "video_url"), Get(body.fields, "final_video_url"));
      if Truthy(url) then Success(Render(url)) else Failure(MissingUrl)
    else Failure(UnknownSource)
  }

  /** The payload the worker writes into a dead letter. */
  function WorkerLetter(jobType: string, payload: map<string, Json>): Json {
    Obj(map["job_type" := Text(jobType), "payload" := Obj(payload)])
  }

  /** No letter of the worker can be replayed: the urls are one level deeper than the extractors look. */
  lemma WorkerLettersNeverReplay(source: string, jobType: string, payload: map<string, Json>,
                                 parse: string -> Option<Json>, order: map<string, Json> -> seq<string>)
    requires source in {"sora", "remotion"}
    ensures Replay(source, WorkerLetter(jobType, payload), parse, order) == Failure(MissingUrl)
  {
    var fields := WorkerLetter(jobType, payload).fields;
    assert fields.Keys == {"job_type", "payload"};
    assert "job_type" in fields;
  }

  /** A completion event that names its videos, as the webhook handler reads it. */
  predicate NamesVideos(payload: map<string, Json>) {
    Get(payload, "video_urls").List? && Get(payload, "video_urls").items != []
  }

  /** Unwrapped, a completion event replays with the very urls the handler would have read. */
  lemma UnwrappedSoraReplays(payload: map<string, Json>, parse: string -> Option<Json>,
                             order: map<string, Json> -> seq<string>)
    requires NamesVideos(payload)
    ensures Replay("sora", Obj(payload), parse, order) == Success(Videos(payload["video_urls"].items))
  {
    assert "video_urls" in payload;
    assert Truthy(Obj(payload));
  }

  // ---- where the urls are read from ----

  predicate Lacks(fields: map<string, Json>, key: string) {
    key in fields ==> !Truthy(fields[key])
  }

  /** A value that counts, under this key. */
  predicate Holds(fields: map<string, Json>, key: string, j: Json) {
    key in fields && fields[key] == j && Truthy(j)
  }

  /** The data block, when there is one. */
  predicate HasData(payload: map<string, Json>, data: map<string, Json>) {
    if Lacks(payload, "data") then data == map[] else payload["data"] == Obj(data)
  }

  /** The result text of the data block parses to this object. */
  predicate HasResult(data: map<string, Json>, parse: string -> Option<Json>, result: map<string, Json>) {
    "resultJson" in data && data["resultJson"].Text? && parse(data["resultJson"].text) == Some(Obj(result))
  }

  /** There is no result text, or it cannot be parsed, or it parses to an object without urls. */
  ghost predicate LacksResult(data: map<string, Json>, parse: string -> Option<Json>) {
    || "resultJson" !in data || !data["resultJson"].Text? || parse(data["resultJson"].text).None?
    || exists result :: HasResult(data, parse, result) && Lacks(result, "resultUrls")
  }

  /** The four places of an event, each asked only when the ones before it hold nothing. */
  ghost predicate ReadsFrom(payload: map<string, Json>, parse: string -> Option<Json>, j: Json) {
    if !Lacks(payload, "video_urls") then Holds(payload, "video_urls", j)
    else if !Lacks(payload, "video_clips") then Holds(payload, "video_clips", j)
    else exists data :: HasData(payload, data) && ReadsData(data, parse, j)
  }

  ghost predicate ReadsData(data: map<string, Json>, parse: string -> Option<Json>, j: Json) {
    || (exists result :: HasResult(data, parse, result) && Holds(result, "resultUrls", j))
    || (LacksResult(data, parse) && "info" in data && data["info"].Obj? && Holds(data["info"].fields, "resultUrls", j))
  }

  lemma ParsedExactly(data: map<string, Json>, parse: string -> Option<Json>, j: Json)
    ensures var parsed := ParsedUrls(Get(data, "resultJson"), parse);
      && (parsed == Success(j) && Truthy(j) <==> exists result :: HasResult(data, parse, result) && Holds(result, "resultUrls", j))
      && (parsed.Success? && !Truthy(parsed.value) <==> LacksResult(data, parse))
  {
    if "resultJson" in data && data["resultJson"].Text? && parse(data["resultJson"].text).Some? {
      var value := parse(data["resultJson"].text).value;
      if value.Obj? {
        assert HasResult(data, parse, value.fields);
      }
    }
  }

  lemma DataExactly(payload: map<string, Json>, parse: string -> Option<Json>, j: Json)
    requires Lacks(payload, "video_urls") && Lacks(payload, "video_clips")
    ensures SoraUrls(payload, parse) == Success(j) && Truthy(j) <==> ReadsFrom(payload, parse, j)
  {
    hide ParsedUrls, LacksResult;
    var data := Or(Get(payload, "data"), Obj(map[]));
    if data.Obj? {
      assert HasData(payload, data.fields);
      ParsedExactly(data.fields, parse, j);
      var parsed := ParsedUrls(Get(data.fields, "resultJson"), parse);
      if parsed.Success? {
        ParsedExactly(data.fields, parse, parsed.value);
      }
    }
  }

  /** A letter of the video provider replays with the urls that the first of the four places holds. */
  lemma SoraReplaysExactly(payload: map<string, Json>, parse: string -> Option<Json>,
                           order: map<string, Json> -> seq<string>, urls: seq<Json>)
    ensures Replay("sora", Obj(payload), parse, order) == Success(Videos(urls)) <==>
            urls != [] && exists j :: ReadsFrom(payload, parse, j) && Listed(j, order) == Success(urls)
  {
    var found := SoraUrls(payload, parse);
    forall j ensures found == Success(j) && Truthy(j) <==> ReadsFrom(payload, parse, j) {
      if Lacks(payload, "video_urls") && Lacks(payload, "video_clips") {
        DataExactly(payload, parse, j);
      }
    }
    assert Or(Obj(payload), Obj(map[])) == Obj(payload);
    hide SoraUrls, ReadsFrom;
    if found.Success? && Truthy(found.value) {
      assert ReadsFrom(payload, parse, found.value);
    }
  }

  /** A letter of the render service replays with its video_url, or else with its final_video_url. */
  lemma RenderReplaysExactly(payload: map<string, Json>, parse: string -> Option<Json>,
                             order: map<string, Json> -> seq<string>, url: Json)
    ensures Replay("remotion", Obj(payload), parse, order) == Success(Render(url)) <==>
            if Lacks(payload, "video_url") then Holds(payload, "final_video_url", url) else Holds(payload, "video_url", url)
  {
    assert Or(Obj(payload), Obj(map[])) == Obj(payload);
    assert "remotion"[0] != "sora"[0];
  }

  // ---- what is refused, and why ----

  /** The shape of the payload is looked at before the source: nothing counts as an empty object. */
  lemma ShapeComesFirst(source: string, payload: Json, parse: string -> Option<Json>, order: map<string, Json> -> seq<string>)
    ensures !Truthy(payload) ==> Replay(source, payload, parse, order) == Replay(source, Obj(map[]), parse, order)
    ensures Truthy(payload) && !payload.Obj? ==> Replay(source, payload, parse, order) == Failure(BadShape)
    ensures payload.Obj? ==>
              (Replay(source, payload, parse, order) == Failure(UnknownSource) <==> source !in {"sora", "remotion"})
  {
  }

  /** A data block that is no object, or a result text that parses to something else than an object. */
  predicate Malformed(payload: map<string, Json>, parse: string -> Option<Json>) {
    && Lacks(payload, "video_urls") && Lacks(payload, "video_clips") && !Lacks(payload, "data")
    && (!payload["data"].Obj?
        || var data := payload["data"].fields;
           "resultJson" in data && data["resultJson"].Text?
           && var parsed := parse(data["resultJson"].text); parsed.Some? && !parsed.value.Obj?)
  }

  lemma MalformedExactly(payload: map<string, Json>, parse: string -> Option<Json>)
    ensures SoraUrls(payload, parse).Failure? <==> Malformed(payload, parse)
    ensures SoraUrls(payload, parse).Failure? ==> SoraUrls(payload, parse).error == BadShape
  {
  }

  /** A letter of the video provider is of a bad shape exactly when its blocks are malformed, or the first place that holds
      anything holds a number or a truth value. */
  lemma SoraBadShapeExactly(payload: map<string, Json>, parse: string -> Option<Json>,
                            order: map<string, Json> -> seq<string>)
    ensures Replay("sora", Obj(payload), parse, order) == Failure(BadShape) <==>
            Malformed(payload, parse) || exists j :: ReadsFrom(payload, parse, j) && (j.Number? || j.Bool?)
  {
    var found := SoraUrls(payload, parse);
    MalformedExactly(payload, parse);
    forall j ensures found == Success(j) && Truthy(j) <==> ReadsFrom(payload, parse, j) {
      if Lacks(payload, "video_urls") && Lacks(payload, "video_clips") {
        DataExactly(payload, parse, j);
      }
    }
    assert Or(Obj(payload), Obj(map[])) == Obj(payload);
    hide SoraUrls, ReadsFrom, Malformed;
    if found.Success? && Truthy(found.value) {
      assert ReadsFrom(payload, parse, found.value);
    }
  }
}
