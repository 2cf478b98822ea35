/** Job kinds and the idempotency keys that the unique index (job_type, idempotency_key) relies on. */
module JobTypes {
  import opened Wrappers

  /** The text form of a UUID: always 36 characters. */
  type Uuid = s: string | |s| == 36 witness seq(36, _ => '0')

  datatype JobType =
    | RunExecute
    | SoraPoll
    | RemotionPoll
    | WebhookSora
    | WebhookRemotion
    | ResumeVideos
    | ResumeRender
    | LangGraphResume
    | HitlResume

  predicate IsWebhook(t: JobType) {
    t.WebhookSora? || t.WebhookRemotion?
  }

  /** Position of a job kind in the pipeline; a handler enqueues only kinds of smaller rank. */
  function Rank(t: JobType): nat {
    match t
    case RunExecute | HitlResume | LangGraphResume => 4
    case SoraPoll | WebhookSora => 3
    case ResumeVideos => 2
    case RemotionPoll | WebhookRemotion => 1
    case ResumeRender => 0
  }

  function SoraWebhookKey(runId: Uuid, taskId: Option<string>): Option<string> {
    if taskId.None? || taskId.value == "" then None
    else Some("sora:" + runId + ":" + taskId.value)
  }

  function ResumeVideosKey(runId: Uuid): string {
    "resume_videos:" + runId
  }

  lemma {:induction false} SoraWebhookKeyInjective(r1: Uuid, t1: Option<string>, r2: Uuid, t2: Option<string>)
    requires SoraWebhookKey(r1, t1).Some?
    requires SoraWebhookKey(r1, t1) == SoraWebhookKey(r2, t2)
    ensures r1 == r2 && t1 == t2
  {
    var k1, k2 := SoraWebhookKey(r1, t1).value, SoraWebhookKey(r2, t2).value;
    assert k1[5..41] == r1 && k2[5..41] == r2;
    assert k1[42..] == t1.value && k2[42..] == t2.value;
  }

  /** The key the webhook route enqueues under: an event without a task id is told apart by its body's digest. */
  function SoraJobKey(runId: Uuid, taskId: Option<string>, bodyDigest: string): string {
    var key := SoraWebhookKey(runId, taskId);
    if key.Some? then key.value else "sora:" + runId + ":hash:" + bodyDigest
  }

  function EventLabel(taskId: Option<string>, bodyDigest: string): string {
    if taskId.None? || taskId.value == "" then "hash:" + bodyDigest else taskId.value
  }

  /** Two events are one job iff run and label agree: repeated events of a task, and repeated bodies without one. */
  lemma SoraJobKeyExact(r1: Uuid, t1: Option<string>, d1: string, r2: Uuid, t2: Option<string>, d2: string)
    ensures SoraJobKey(r1, t1, d1) == SoraJobKey(r2, t2, d2) <==> r1 == r2 && EventLabel(t1, d1) == EventLabel(t2, d2)
  {
    SoraJobKeyForm(r1, t1, d1);
    SoraJobKeyForm(r2, t2, d2);
  }

  lemma SoraJobKeyForm(r: Uuid, t: Option<string>, d: string)
    ensures SoraJobKey(r, t, d) == "sora:" + r + ":" + EventLabel(t, d)
    ensures SoraJobKey(r, t, d)[5..41] == r && SoraJobKey(r, t, d)[42..] == EventLabel(t, d)
  {
    if t.None? || t.value == "" {
      assert "sora:" + r + ":hash:" + d == "sora:" + r + ":" + ("hash:" + d);
    }
    var k := "sora:" + r + ":" + EventLabel(t, d);
    assert k[5..41] == r && k[42..] == EventLabel(t, d);
  }

  lemma ResumeVideosKeyInjective(r1: Uuid, r2: Uuid)
    requires ResumeVideosKey(r1) == ResumeVideosKey(r2)
    ensures r1 == r2
  {
    assert ResumeVideosKey(r1)[14..] == r1 && ResumeVideosKey(r2)[14..] == r2;
  }
}
