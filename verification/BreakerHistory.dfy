/** One caller at a time: the breaker decides exactly as its call history says it should. */
module BreakerHistory {
  import opened Wrappers
  import opened RealArithmetic
  import opened CircuitBreaker

  datatype Event =
    | Attempt(start: real, end: real, ok: bool)
    | Peek(start: real)
    | ManualReset(start: real)

  /** What became of each call that ran, and the manual resets. */
  datatype Outcome = WentWell | WentWrong(at: real) | WasReset

  datatype Trace = Trace(breaker: Breaker, history: seq<Outcome>, executed: nat, started: real, now: real)

  function Ran(c: Settings, events: seq<Event>): Trace {
    if events == [] then Trace(INITIAL, [], 0, 0.0, 0.0)
    else
      var k := |events| - 1;
      Extended(c, Ran(c, events[..k]), events[k])
  }

  function Extended(c: Settings, t: Trace, e: Event): Trace {
    match e
    case Peek(at) => t.(breaker := Observed(c, t.breaker, at), started := at, now := at)
    case ManualReset(at) => t.(breaker := INITIAL, history := t.history + [WasReset], started := at, now := at)
    case Attempt(start, end, ok) =>
      var (b, ran) := Attempted(c, t.breaker, start, end, ok);
      if !ran then t.(breaker := b, started := start, now := start)
      else Trace(b, t.history + [if ok then WentWell else WentWrong(end)], t.executed + 1, start, end)
  }

  /** The clock is positive and never runs backwards; a call that runs ends no earlier than it starts. */
  ghost predicate Timed(c: Settings, events: seq<Event>) {
    events == [] ||
    (var k := |events| - 1;
     && Timed(c, events[..k])
     && events[k].start > 0.0 && events[k].start >= Ran(c, events[..k]).now
     && (events[k].Attempt? ==> events[k].end >= events[k].start))
  }

  /** How many of the latest calls failed in a row. */
  function Trailing(h: seq<Outcome>): nat {
    if h == [] || !h[|h| - 1].WentWrong? then 0 else Trailing(h[..|h| - 1]) + 1
  }

  function Threshold(c: Settings): int {
    if c.failureThreshold < 1 then 1 else c.failureThreshold
  }

  /** The specification: a call runs while fewer than the threshold of calls have just failed in a row, and
      after that only when the recovery timeout has passed since the last failure. */
  predicate ShouldRun(c: Settings, h: seq<Outcome>, now: real) {
    || Trailing(h) < Threshold(c)
    || (c.halfOpenMaxCalls >= 1 && h != [] && h[|h| - 1].WentWrong? && now - h[|h| - 1].at >= c.recoveryTimeout)
  }

  ghost predicate Matches(c: Settings, t: Trace) {
    && t.breaker.failureCount == Trailing(t.history)
    && (t.breaker.state == Closed <==> Trailing(t.history) < Threshold(c))
    && (t.breaker.state != Closed ==> Recorded(t.breaker.lastFailureTime) && t.breaker.lastFailureTime.value <= t.now)
    && (t.breaker.state == HalfOpen ==>
          t.breaker.halfOpenCalls == 0 && t.breaker.successCount == 0
          && t.now - t.breaker.lastFailureTime.value >= c.recoveryTimeout)
    && (t.breaker.state != Closed && c.halfOpenMaxCalls >= 1 ==>
          t.breaker.lastFailureTime == Some(t.history[|t.history| - 1].at))
    && t.started <= t.now
  }

  lemma TrailingSnoc(h: seq<Outcome>, o: Outcome)
    ensures Trailing(h + [o]) == if o.WentWrong? then Trailing(h) + 1 else 0
  {
    assert (h + [o])[..|h|] == h;
  }

  lemma AttemptDecides(c: Settings, t: Trace, e: Event)
    requires Matches(c, t) && e.Attempt? && e.start > 0.0 && e.start >= t.now
    ensures Attempted(c, t.breaker, e.start, e.end, e.ok).1 == ShouldRun(c, t.history, e.start)
  {
  }

  lemma AttemptMatches(c: Settings, t: Trace, e: Event)
    requires Matches(c, t) && e.Attempt? && e.start > 0.0 && e.start >= t.now && e.end >= e.start
    ensures Matches(c, Extended(c, t, e))
  {
    var o := if e.ok then WentWell else WentWrong(e.end);
    TrailingSnoc(t.history, o);
    hide Trailing, ShouldRun;
    assert (t.history + [o])[|t.history|] == o;
    match t.breaker.state
    case Closed =>
    case Open =>
    case HalfOpen =>
  }

  lemma StepMatches(c: Settings, t: Trace, e: Event)
    requires Matches(c, t) && e.start > 0.0 && e.start >= t.now && (e.Attempt? ==> e.end >= e.start)
    ensures Matches(c, Extended(c, t, e))
    ensures e.Attempt? ==> Attempted(c, t.breaker, e.start, e.end, e.ok).1 == ShouldRun(c, t.history, e.start)
  {
    match e
    case Peek(_) =>
    case ManualReset(_) => TrailingSnoc(t.history, WasReset);
    case Attempt(_, _, _) =>
      hide Trailing, ShouldRun, Matches;
      AttemptDecides(c, t, e);
      AttemptMatches(c, t, e);
  }

  /** The breaker refines its history: CLOSED means exactly that fewer than the threshold of calls have just
      failed in a row, the failure count is that number, and the next call runs iff the history allows it. */
  lemma {:induction false} BreakerRefinesHistory(c: Settings, events: seq<Event>)
    requires Timed(c, events)
    ensures Matches(c, Ran(c, events))
    ensures forall start, end, ok | 0.0 < start <= end && Ran(c, events).now <= start ::
              Attempted(c, Ran(c, events).breaker, start, end, ok).1 == ShouldRun(c, Ran(c, events).history, start)
  {
    if events != [] {
      var k := |events| - 1;
      BreakerRefinesHistory(c, events[..k]);
      StepMatches(c, Ran(c, events[..k]), events[k]);
    }
    var t := Ran(c, events);
    forall start, end, ok | 0.0 < start <= end && t.now <= start
      ensures Attempted(c, t.breaker, start, end, ok).1 == ShouldRun(c, t.history, start)
    {
      StepMatches(c, t, Attempt(start, end, ok));
    }
  }

  // ---- a dependency that is down ----

  ghost predicate AllFail(events: seq<Event>) {
    forall i | 0 <= i < |events| :: !events[i].ManualReset? && (events[i].Attempt? ==> !events[i].ok)
  }

  /** Each call beyond the threshold was paid for by one full recovery timeout since `origin`. */
  ghost predicate Paid(c: Settings, t: Trace, origin: real) {
    && t.executed == Trailing(t.history) && origin <= t.started
    && (t.executed >= Threshold(c) ==>
          var waited := Periods(t.executed - Threshold(c), c.recoveryTimeout);
          && t.history[|t.history| - 1].WentWrong?
          && waited <= t.started - origin && waited <= t.history[|t.history| - 1].at - origin)
  }

  lemma PaidStep(c: Settings, t: Trace, e: Event, origin: real)
    requires Matches(c, t) && Paid(c, t, origin)
    requires e.start > 0.0 && e.start >= t.now && !e.ManualReset? && (e.Attempt? ==> !e.ok && e.end >= e.start)
    ensures Paid(c, Extended(c, t, e), origin)
  {
    if e.Attempt? {
      StepMatches(c, t, e);
      TrailingSnoc(t.history, WentWrong(e.end));
    }
  }

  lemma {:induction false} EachExtraCallWaited(c: Settings, events: seq<Event>)
    requires Timed(c, events) && AllFail(events) && events != []
    ensures Paid(c, Ran(c, events), events[0].start)
  {
    var k := |events| - 1;
    BreakerRefinesHistory(c, events[..k]);
    assert !events[k].ManualReset?;
    if k > 0 {
      EachExtraCallWaited(c, events[..k]);
      PaidStep(c, Ran(c, events[..k]), events[k], events[0].start);
    } else {
      FirstIsPaid(c, events[0]);
    }
  }

  /** The waiting is counted from the first event, so it starts with none. */
  lemma FirstIsPaid(c: Settings, e: Event)
    requires e.start > 0.0 && !e.ManualReset? && (e.Attempt? ==> !e.ok && e.end >= e.start)
    ensures Paid(c, Extended(c, Ran(c, []), e), e.start)
  {
    var t := Trace(INITIAL, [], 0, e.start, e.start);
    assert Extended(c, t, e) == Extended(c, Ran(c, []), e);
    PaidStep(c, t, e, e.start);
  }

  /** While every call fails, however many are attempted, at most the threshold plus one per elapsed recovery
      timeout are made. */
  lemma FailingCallBound(c: Settings, events: seq<Event>)
    requires Timed(c, events) && AllFail(events) && events != [] && c.recoveryTimeout > 0.0
    ensures Ran(c, events).executed
            <= Threshold(c) + ((Ran(c, events).started - events[0].start) / c.recoveryTimeout).Floor
  {
    EachExtraCallWaited(c, events);
    var t, r := Ran(c, events), c.recoveryTimeout;
    var elapsed := t.started - events[0].start;
    if t.executed >= Threshold(c) {
      var extra := t.executed - Threshold(c);
      PeriodsIsProduct(extra, r);
      ProductBelowQuotient(extra, r, elapsed);
    } else {
      ProductBelowQuotient(0, r, elapsed);
    }
  }

  /** Back-to-back failures up to the threshold, then one call every recovery timeout. */
  function Worst(c: Settings, n: nat): seq<Event> {
    if n == 0 then []
    else Worst(c, n - 1) + [WorstCall(c, n)]
  }

  function WorstTime(c: Settings, n: nat): real {
    1.0 + if n <= Threshold(c) then 0.0 else Periods(n - Threshold(c), c.recoveryTimeout)
  }

  function WorstCall(c: Settings, n: nat): Event {
    Attempt(WorstTime(c, n), WorstTime(c, n), false)
  }

  ghost predicate Attains(c: Settings, n: nat, t: Trace) {
    && Matches(c, t) && t.executed == n == Trailing(t.history)
    && (n > 0 ==> t.now == WorstTime(c, n) && t.history[|t.history| - 1] == WentWrong(WorstTime(c, n)))
    && (n == 0 ==> t.now == 0.0)
  }

  lemma AttainStep(c: Settings, n: nat, t: Trace)
    requires n > 0 && c.recoveryTimeout > 0.0 && c.halfOpenMaxCalls >= 1 && Attains(c, n - 1, t)
    ensures WorstTime(c, n) > 0.0 && WorstTime(c, n) >= t.now
    ensures Attains(c, n, Extended(c, t, WorstCall(c, n)))
  {
    WorstTimeGrows(c, n);
    StepMatches(c, t, WorstCall(c, n));
    TrailingSnoc(t.history, WentWrong(WorstTime(c, n)));
  }

  /** The worst schedule of n calls takes exactly one recovery timeout per call beyond the threshold. */
  lemma {:induction false} WorstElapsed(c: Settings, n: nat)
    requires n >= Threshold(c)
    ensures |Worst(c, n)| == n
    ensures Worst(c, n)[n - 1].start - Worst(c, n)[0].start == Periods(n - Threshold(c), c.recoveryTimeout)
  {
    WorstEnds(c, n);
  }

  lemma {:induction false} WorstEnds(c: Settings, n: nat)
    requires n > 0
    ensures |Worst(c, n)| == n && Worst(c, n)[0] == WorstCall(c, 1) && Worst(c, n)[n - 1] == WorstCall(c, n)
  {
    if n > 1 {
      WorstEnds(c, n - 1);
    }
  }

  /** The bound is attained: in the worst schedule every one of n calls runs. */
  lemma {:induction false} BoundIsAttained(c: Settings, n: nat)
    requires c.recoveryTimeout > 0.0 && c.halfOpenMaxCalls >= 1
    ensures |Worst(c, n)| == n && Timed(c, Worst(c, n)) && AllFail(Worst(c, n))
    ensures Attains(c, n, Ran(c, Worst(c, n)))
  {
    if n > 0 {
      BoundIsAttained(c, n - 1);
      var before := Worst(c, n - 1);
      assert Worst(c, n) == before + [WorstCall(c, n)];
      assert Worst(c, n)[..n - 1] == before && Worst(c, n)[n - 1] == WorstCall(c, n);
      AttainStep(c, n, Ran(c, before));
    }
  }

  lemma WorstTimeGrows(c: Settings, n: nat)
    requires n > 0 && c.recoveryTimeout > 0.0
    ensures WorstTime(c, n) > 0.0
    ensures n > 1 ==> WorstTime(c, n) >= WorstTime(c, n - 1)
    ensures n > Threshold(c) ==> WorstTime(c, n) >= WorstTime(c, n - 1) + c.recoveryTimeout
  {
    if n > Threshold(c) {
      PeriodsIsProduct(n - Threshold(c), c.recoveryTimeout);
      assert (n - Threshold(c)) as real * c.recoveryTimeout > 0.0;
    }
  }
}
