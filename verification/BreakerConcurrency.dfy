/** Many callers at once: calls begin and end in any order. */
module BreakerConcurrency {
  import opened Wrappers
  import opened RealArithmetic
  import opened CircuitBreaker

  datatype Event =
    | Begin(at: real)
    | EndWell(at: real)
    | EndWrong(at: real)
    | Peek(at: real)
    | ManualReset(at: real)

  /** inFlight counts admitted calls that have not ended; episode counts the calls admitted since the breaker
      last entered HALF_OPEN. */
  datatype Scene = Scene(breaker: Breaker, inFlight: nat, episode: nat)

  function Played(c: Settings, events: seq<Event>): Scene {
    if events == [] then Scene(INITIAL, 0, 0)
    else
      var k := |events| - 1;
      Stepped(c, Played(c, events[..k]), events[k])
  }

  /** An end without a call in flight is no event at all. */
  function Stepped(c: Settings, s: Scene, e: Event): Scene {
    match e
    case Peek(at) => WithBreaker(s, Observed(c, s.breaker, at), 0)
    case ManualReset(_) => WithBreaker(s, INITIAL, 0)
    case Begin(at) =>
      var (b, admission) := Begun(c, s.breaker, at);
      var next := WithBreaker(s, b, if admission == Admitted then 1 else 0);
      if admission == Admitted then next.(inFlight := s.inFlight + 1) else next
    case EndWell(_) =>
      if s.inFlight == 0 then s else WithBreaker(s, Succeeded(s.breaker), 0).(inFlight := s.inFlight - 1)
    case EndWrong(at) =>
      if s.inFlight == 0 then s else WithBreaker(s, Failed(c, s.breaker, at), 0).(inFlight := s.inFlight - 1)
  }

  /** Restarts the episode count whenever HALF_OPEN is left or entered. */
  function WithBreaker(s: Scene, b: Breaker, admitted: nat): Scene {
    s.(breaker := b,
       episode := if b.state != HalfOpen then 0
                  else if s.breaker.state != HalfOpen then admitted
                  else s.episode + admitted)
  }

  ghost predicate Positive(events: seq<Event>) {
    forall i | 0 <= i < |events| :: events[i].at > 0.0
  }

  ghost predicate Episodic(c: Settings, s: Scene) {
    && (s.breaker.state == HalfOpen ==>
          s.breaker.halfOpenCalls == s.episode && s.breaker.successCount == 0
          && (s.episode == 0 || s.episode <= c.halfOpenMaxCalls))
    && (s.breaker.state != Closed ==> Recorded(s.breaker.lastFailureTime))
  }

  lemma EpisodeStep(c: Settings, s: Scene, e: Event)
    requires Episodic(c, s) && e.at > 0.0
    ensures Episodic(c, Stepped(c, s, e))
  {
    match s.breaker.state
    case Closed =>
    case Open =>
    case HalfOpen =>
  }

  /** However calls overlap, at most half_open_max_calls are admitted per half-open episode, and an OPEN
      breaker always remembers when it opened. */
  lemma {:induction false} EpisodeBound(c: Settings, events: seq<Event>)
    requires Positive(events)
    ensures var s := Played(c, events);
      && (s.breaker.state == HalfOpen ==>
            s.breaker.halfOpenCalls == s.episode && s.breaker.successCount == 0
            && (s.episode == 0 || s.episode <= c.halfOpenMaxCalls))
      && (s.breaker.state != Closed ==> Recorded(s.breaker.lastFailureTime))
  {
    if events != [] {
      hide Stepped;
      var k := |events| - 1;
      assert Positive(events[..k]) && events[k].at > 0.0;
      EpisodeBound(c, events[..k]);
      EpisodeStep(c, Played(c, events[..k]), events[k]);
    }
  }

  /** From OPEN a call is admitted exactly when the recovery timeout has passed, so the breaker neither lets a
      call through early nor stays open for ever. */
  lemma OpenAdmitsExactly(c: Settings, events: seq<Event>, now: real)
    requires Positive(events) && Played(c, events).breaker.state == Open
    ensures Recorded(Played(c, events).breaker.lastFailureTime)
    ensures Begun(c, Played(c, events).breaker, now).1 == Admitted <==>
            c.halfOpenMaxCalls >= 1
            && now - Played(c, events).breaker.lastFailureTime.value >= c.recoveryTimeout
  {
    EpisodeBound(c, events);
  }

  /** The clock hypothesis is exact: a breaker that opened at time 0.0 never leaves OPEN by itself. */
  lemma OpenForeverExactly(c: Settings, b: Breaker)
    requires b.state == Open && b.lastFailureTime.Some?
    ensures (forall now: real :: Observed(c, b, now).state == Open) <==> b.lastFailureTime.value == 0.0
  {
    if b.lastFailureTime.value != 0.0 {
      assert Observed(c, b, b.lastFailureTime.value + c.recoveryTimeout).state == HalfOpen;
    }
  }

  /** How many calls have ended in failure since the last one that ended well, or since the last reset. */
  function FailuresSince(c: Settings, events: seq<Event>): nat {
    if events == [] then 0
    else
      var k := |events| - 1;
      var ends := Played(c, events[..k]).inFlight > 0;
      match events[k]
      case ManualReset(_) => 0
      case EndWell(_) => if ends then 0 else FailuresSince(c, events[..k])
      case EndWrong(_) => FailuresSince(c, events[..k]) + if ends then 1 else 0
      case Begin(_) => FailuresSince(c, events[..k])
      case Peek(_) => FailuresSince(c, events[..k])
  }

  lemma CountStep(c: Settings, s: Scene, e: Event)
    requires s.breaker.state == HalfOpen ==> s.breaker.successCount == 0
    ensures Stepped(c, s, e).breaker.failureCount ==
            match e
            case ManualReset(_) => 0
            case EndWell(_) => if s.inFlight > 0 then 0 else s.breaker.failureCount
            case EndWrong(_) => s.breaker.failureCount + if s.inFlight > 0 then 1 else 0
            case Begin(_) => s.breaker.failureCount
            case Peek(_) => s.breaker.failureCount
  {
  }

  /** In whatever state calls end, late ones included, the failure count is the number of failures in a row. */
  lemma {:induction false} CountIsFailuresInRow(c: Settings, events: seq<Event>)
    requires Positive(events)
    ensures Played(c, events).breaker.failureCount == FailuresSince(c, events)
  {
    if events != [] {
      var k := |events| - 1;
      assert Positive(events[..k]);
      CountIsFailuresInRow(c, events[..k]);
      EpisodeBound(c, events[..k]);
      CountStep(c, Played(c, events[..k]), events[k]);
      hide Stepped;
    }
  }

  /** A call that ends while the breaker is HALF_OPEN decides: it closes the breaker, or opens it for a whole timeout. */
  lemma ProbeDecides(c: Settings, events: seq<Event>, e: Event)
    requires Positive(events) && Played(c, events).breaker.state == HalfOpen && Played(c, events).inFlight > 0
    ensures var s, t := Played(c, events), Played(c, events + [e]);
      && (e.EndWell? ==> t.breaker == INITIAL)
      && (e.EndWrong? ==> t.breaker == Breaker(Open, s.breaker.failureCount + 1, Some(e.at), 0, 0))
  {
    assert (events + [e])[..|events|] == events;
    EpisodeBound(c, events);
  }

  // ---- no early recovery ----

  /** The scene after the first m events. */
  function At(c: Settings, events: seq<Event>, m: nat): Scene
    requires m <= |events|
  {
    Played(c, events[..m])
  }

  /** The clock is positive and never runs backwards. */
  ghost predicate InOrder(events: seq<Event>) {
    Positive(events) && forall i, k | 0 <= i < k < |events| :: events[i].at <= events[k].at
  }

  /** The end of a call never leaves OPEN: a late success keeps the time of the last failure, a late failure renews it. */
  lemma EndsStayOpen(c: Settings, events: seq<Event>, e: Event)
    requires Played(c, events).breaker.state == Open && (e.EndWell? || e.EndWrong?)
    ensures var was, b := Played(c, events).breaker, Played(c, events + [e]).breaker;
      && b.state == Open
      && b.lastFailureTime == if e.EndWrong? && Played(c, events).inFlight > 0 then Some(e.at) else was.lastFailureTime
  {
    assert (events + [e])[..|events|] == events;
  }

  /** OPEN with a failure at or after `since`, unless a recovery timeout has passed since then. */
  ghost predicate StillShut(c: Settings, b: Breaker, since: real, now: real) {
    || since + c.recoveryTimeout <= now
    || (b.state == Open && Recorded(b.lastFailureTime) && since <= b.lastFailureTime.value)
  }

  lemma ShutStep(c: Settings, s: Scene, e: Event, since: real, now: real)
    requires StillShut(c, s.breaker, since, now) && now <= e.at && since <= e.at && e.at > 0.0 && !e.ManualReset?
    ensures StillShut(c, Stepped(c, s, e).breaker, since, e.at)
    ensures e.Begin? && Begun(c, s.breaker, e.at).1 == Admitted ==> since + c.recoveryTimeout <= e.at
  {
  }

  lemma {:induction false} StaysShut(c: Settings, events: seq<Event>, m: nat, n: nat, since: real)
    requires InOrder(events) && m <= n < |events| && since <= events[m].at
    requires At(c, events, m).breaker.state == Open && At(c, events, m).breaker.lastFailureTime == Some(since) && since != 0.0
    requires forall k | m <= k < n :: !events[k].ManualReset?
    ensures StillShut(c, At(c, events, n).breaker, since, if n == m then since else events[n - 1].at)
  {
    if m < n {
      StaysShut(c, events, m, n - 1, since);
      assert events[..n][..n - 1] == events[..n - 1];
      ShutStep(c, At(c, events, n - 1), events[n - 1], since, if n - 1 == m then since else events[n - 2].at);
    }
  }

  /** Times recorded are times of events. */
  lemma {:induction false} FailureIsPast(c: Settings, events: seq<Event>, m: nat)
    requires InOrder(events) && m < |events|
    ensures Recorded(At(c, events, m).breaker.lastFailureTime) ==> At(c, events, m).breaker.lastFailureTime.value <= events[m].at
  {
    if m > 0 {
      FailureIsPast(c, events, m - 1);
      assert events[..m][..m - 1] == events[..m - 1];
    }
  }

  /** However calls overlap, late successes included: once the breaker is OPEN, and until somebody resets it, no call is
      admitted before a whole recovery timeout has passed since the last failure at that moment. */
  lemma NoEarlyAdmission(c: Settings, events: seq<Event>, m: nat, n: nat)
    requires InOrder(events) && m <= n < |events|
    requires At(c, events, m).breaker.state == Open && forall k | m <= k < n :: !events[k].ManualReset?
    requires events[n].Begin? && Begun(c, At(c, events, n).breaker, events[n].at).1 == Admitted
    ensures At(c, events, m).breaker.lastFailureTime.Some?
    ensures events[n].at >= At(c, events, m).breaker.lastFailureTime.value + c.recoveryTimeout
  {
    assert Positive(events[..m]);
    EpisodeBound(c, events[..m]);
    var since := At(c, events, m).breaker.lastFailureTime.value;
    FailureIsPast(c, events, m);
    StaysShut(c, events, m, n, since);
    ShutStep(c, At(c, events, n), events[n], since, if n == m then since else events[n - 1].at);
  }

  /** So every failure that leaves the breaker OPEN keeps all calls out for a whole recovery timeout. */
  lemma FailureShutsForTimeout(c: Settings, events: seq<Event>, m: nat, n: nat)
    requires InOrder(events) && m < n < |events|
    requires events[m].EndWrong? && At(c, events, m).inFlight > 0 && At(c, events, m + 1).breaker.state == Open
    requires forall k | m < k < n :: !events[k].ManualReset?
    requires events[n].Begin? && Begun(c, At(c, events, n).breaker, events[n].at).1 == Admitted
    ensures events[n].at >= events[m].at + c.recoveryTimeout
  {
    assert events[..m + 1][..m] == events[..m];
    NoEarlyAdmission(c, events, m + 1, n);
  }

  // ---- a dependency that is down, with calls overlapping ----

  ghost predicate AllFail(events: seq<Event>) {
    forall i | 0 <= i < |events| :: !events[i].EndWell? && !events[i].ManualReset?
  }

  /** A scene with what the bound speaks of: calls admitted so far, half-open episodes so far, the most calls ever in
      flight together, and when the first and the latest event happened. */
  datatype Watch = Watch(scene: Scene, begun: nat, episodes: nat, widest: nat, origin: real, now: real)

  function Watched(c: Settings, events: seq<Event>): Watch {
    if events == [] then Watch(Scene(INITIAL, 0, 0), 0, 0, 0, 0.0, 0.0)
    else
      var k := |events| - 1;
      WatchedNext(c, Watched(c, events[..k]), events[k], k == 0)
  }

  function WatchedNext(c: Settings, w: Watch, e: Event, first: bool): Watch {
    var next := Stepped(c, w.scene, e);
    var begins := e.Begin? && Begun(c, w.scene.breaker, e.at).1 == Admitted;
    var opens := (e.Begin? || e.Peek?) && w.scene.breaker.state == Open && Observed(c, w.scene.breaker, e.at).state == HalfOpen;
    Watch(next, w.begun + if begins then 1 else 0, w.episodes + if opens then 1 else 0,
          if next.inFlight > w.widest then next.inFlight else w.widest,
          if first then e.at else w.origin, e.at)
  }

  function AtLeastOne(n: int): nat {
    if n < 1 then 1 else n
  }

  function AtLeastZero(n: int): nat {
    if n < 0 then 0 else n
  }

  /** What n half-open episodes may admit. */
  function Allowance(c: Settings, n: nat): nat {
    if n == 0 then 0 else Allowance(c, n - 1) + AtLeastZero(c.halfOpenMaxCalls)
  }

  /** The calls that the first closed phase can have admitted, and those of the episodes. */
  ghost predicate Accounted(c: Settings, w: Watch) {
    var b := w.scene.breaker;
    && w.scene.inFlight <= w.widest && w.scene.inFlight <= w.begun && w.origin <= w.now
    && (b.state == Closed ==>
          w.episodes == 0 && b.failureCount == w.begun - w.scene.inFlight && b.failureCount < AtLeastOne(c.failureThreshold))
    && (b.state == HalfOpen ==>
          && w.episodes > 0 && b.halfOpenCalls == w.scene.episode && b.successCount == 0
          && w.scene.episode <= AtLeastZero(c.halfOpenMaxCalls)
          && w.begun < AtLeastOne(c.failureThreshold) + w.widest + Allowance(c, w.episodes - 1) + w.scene.episode
          && Periods(w.episodes, c.recoveryTimeout) <= w.now - w.origin)
    && (b.state == Open ==>
          && Recorded(b.lastFailureTime) && b.lastFailureTime.value <= w.now
          && b.failureCount >= AtLeastOne(c.failureThreshold)
          && w.begun < AtLeastOne(c.failureThreshold) + w.widest + Allowance(c, w.episodes)
          && Periods(w.episodes, c.recoveryTimeout) <= b.lastFailureTime.value - w.origin)
    && (b.state == HalfOpen ==> b.failureCount >= AtLeastOne(c.failureThreshold))
  }

  lemma AccountedStep(c: Settings, w: Watch, e: Event)
    requires Accounted(c, w) && !e.EndWell? && !e.ManualReset? && e.at > 0.0 && e.at >= w.now
    ensures Accounted(c, WatchedNext(c, w, e, false))
  {
  }

  lemma {:induction false} FailuresAreAccounted(c: Settings, events: seq<Event>)
    requires InOrder(events) && AllFail(events)
    ensures Accounted(c, Watched(c, events))
  {
    if events != [] {
      var k := |events| - 1;
      FailuresAreAccounted(c, events[..k]);
      if k == 0 {
        FirstIsAccounted(c, events[0]);
        assert events[..0] == [];
      } else {
        AccountedStep(c, Watched(c, events[..k]), events[k]);
      }
    }
  }

  lemma FirstIsAccounted(c: Settings, e: Event)
    requires !e.EndWell? && !e.ManualReset?
    ensures Accounted(c, WatchedNext(c, Watched(c, []), e, true))
  {
  }

  lemma {:induction false} AllowanceIsProduct(c: Settings, n: nat)
    ensures Allowance(c, n) == n * AtLeastZero(c.halfOpenMaxCalls)
  {
    if n > 0 {
      AllowanceIsProduct(c, n - 1);
      assert n * AtLeastZero(c.halfOpenMaxCalls)
             == (n - 1) * AtLeastZero(c.halfOpenMaxCalls) + AtLeastZero(c.halfOpenMaxCalls);
    }
  }

  lemma {:induction false} AllowanceGrows(c: Settings, m: nat, n: nat)
    requires m <= n
    ensures Allowance(c, m) <= Allowance(c, n)
  {
    if m < n {
      AllowanceGrows(c, m, n - 1);
    }
  }

  lemma AccountedBound(c: Settings, w: Watch, timeouts: nat)
    requires Accounted(c, w) && (w.scene.breaker.state != Closed ==> w.episodes <= timeouts)
    ensures w.begun < AtLeastOne(c.failureThreshold) + w.widest + Allowance(c, timeouts)
  {
    hide Allowance;
    if w.scene.breaker.state != Closed {
      AllowanceGrows(c, w.episodes, timeouts);
      if w.scene.breaker.state == HalfOpen {
        AllowanceStep(c, w.episodes);
      }
    } else {
      AllowanceGrows(c, 0, timeouts);
      AllowanceIsProduct(c, 0);
    }
  }

  lemma AllowanceStep(c: Settings, n: nat)
    requires n > 0
    ensures Allowance(c, n) == Allowance(c, n - 1) + AtLeastZero(c.halfOpenMaxCalls)
  {
  }

  lemma EpisodesWithinTimeouts(c: Settings, w: Watch)
    requires Accounted(c, w) && c.recoveryTimeout > 0.0
    ensures ((w.now - w.origin) / c.recoveryTimeout).Floor >= 0
    ensures w.scene.breaker.state != Closed ==> w.episodes <= ((w.now - w.origin) / c.recoveryTimeout).Floor
  {
    hide Allowance;
    ProductBelowQuotient(0, c.recoveryTimeout, w.now - w.origin);
    if w.scene.breaker.state != Closed {
      PeriodsIsProduct(w.episodes, c.recoveryTimeout);
      ProductBelowQuotient(w.episodes, c.recoveryTimeout, w.now - w.origin);
    }
  }

  /** While every call fails, with at most p of them in flight together, the calls admitted are fewer than the threshold
      plus p, and half_open_max_calls more for every recovery timeout that has passed. */
  lemma OverlappingFailureBound(c: Settings, events: seq<Event>)
    requires InOrder(events) && AllFail(events) && c.recoveryTimeout > 0.0
    ensures var w := Watched(c, events);
            var timeouts := ((w.now - w.origin) / c.recoveryTimeout).Floor;
      && timeouts >= 0
      && w.begun < AtLeastOne(c.failureThreshold) + w.widest + timeouts * AtLeastZero(c.halfOpenMaxCalls)
  {
    hide *;
    var w := Watched(c, events);
    FailuresAreAccounted(c, events);
    EpisodesWithinTimeouts(c, w);
    var timeouts := ((w.now - w.origin) / c.recoveryTimeout).Floor;
    AccountedBound(c, w, timeouts);
    AllowanceIsProduct(c, timeouts);
  }
}
