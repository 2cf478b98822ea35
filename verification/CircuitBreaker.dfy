/** The circuit breaker as an object, and its behaviour as a function of the calls it has made. */
module CircuitBreaker {
  import opened Wrappers

  datatype CircuitState = Closed | Open | HalfOpen

  datatype Settings = Settings(failureThreshold: int, recoveryTimeout: real, halfOpenMaxCalls: int)

  datatype Breaker = Breaker(
    state: CircuitState, failureCount: int, lastFailureTime: Option<real>, halfOpenCalls: int, successCount: int)

  const INITIAL := Breaker(Closed, 0, None, 0, 0)

  datatype Admission = RejectedOpen | RejectedLimit | Admitted

  /** Python's truth value of an optional float: a time stamp of 0.0 counts as absent. */
  predicate Recorded(t: Option<real>) {
    t.Some? && t.value != 0.0
  }

  /** Reading `state` moves an OPEN breaker to HALF_OPEN once the recovery timeout has passed. */
  function Observed(c: Settings, b: Breaker, now: real): Breaker {
    if b.state == Open && Recorded(b.lastFailureTime) && now - b.lastFailureTime.value >= c.recoveryTimeout
    then b.(state := HalfOpen, halfOpenCalls := 0, successCount := 0)
    else b
  }

  /** The part of `call` before the protected function runs. */
  function Begun(c: Settings, b: Breaker, now: real): (Breaker, Admission) {
    var seen := Observed(c, b, now);
    if seen.state == Open then (seen, RejectedOpen)
    else if seen.state == HalfOpen && seen.halfOpenCalls >= c.halfOpenMaxCalls
    then (seen.(state := Open, lastFailureTime := Some(now)), RejectedLimit)
    else if seen.state == HalfOpen then (seen.(halfOpenCalls := seen.halfOpenCalls + 1), Admitted)
    else (seen, Admitted)
  }

  function Succeeded(b: Breaker): Breaker {
    if b.state != HalfOpen then b.(failureCount := 0)
    else if b.successCount + 1 >= 1 then INITIAL
    else b.(successCount := b.successCount + 1)
  }

  function Failed(c: Settings, b: Breaker, now: real): Breaker {
    var counted := b.(failureCount := b.failureCount + 1, lastFailureTime := Some(now));
    if b.state == HalfOpen then counted.(state := Open, halfOpenCalls := 0, successCount := 0)
    else if counted.failureCount >= c.failureThreshold then counted.(state := Open)
    else counted
  }

  class CircuitBreaker {
    const settings: Settings
    var state: CircuitState
    var failureCount: int
    var lastFailureTime: Option<real>
    var halfOpenCalls: int
    var successCount: int

    constructor (settings: Settings)
      ensures this.settings == settings && Value() == INITIAL
    {
      this.settings := settings;
      state, failureCount, lastFailureTime, halfOpenCalls, successCount := Closed, 0, None, 0, 0;
    }

    function Value(): Breaker
      reads this
    {
      Breaker(state, failureCount, lastFailureTime, halfOpenCalls, successCount)
    }

    method GetState(now: real) returns (s: CircuitState)
      modifies this
      ensures Value() == Observed(settings, old(Value()), now) && s == state
    {
      if state == Open && lastFailureTime.Some? && lastFailureTime.value != 0.0 {
        var elapsed := now - lastFailureTime.value;
        if elapsed >= settings.recoveryTimeout {
          state := HalfOpen;
          halfOpenCalls := 0;
          successCount := 0;
        }
      }
      return state;
    }

    method BeginCall(now: real) returns (r: Admission)
      modifies this
      ensures (Value(), r) == Begun(settings, old(Value()), now)
    {
      var current := GetState(now);
      if current == Open {
        return RejectedOpen;
      }
      if current == HalfOpen {
        if halfOpenCalls >= settings.halfOpenMaxCalls {
          state := Open;
          lastFailureTime := Some(now);
          return RejectedLimit;
        }
        halfOpenCalls := halfOpenCalls + 1;
      }
      return Admitted;
    }

    method OnSuccess()
      modifies this
      ensures Value() == Succeeded(old(Value()))
    {
      if state == HalfOpen {
        successCount := successCount + 1;
        if successCount >= 1 {
          state, failureCount, halfOpenCalls, successCount, lastFailureTime := Closed, 0, 0, 0, None;
        }
      } else {
        failureCount := 0;
      }
    }

    method OnFailure(now: real)
      modifies this
      ensures Value() == Failed(settings, old(Value()), now)
    {
      failureCount := failureCount + 1;
      lastFailureTime := Some(now);
      if state == HalfOpen {
        state, halfOpenCalls, successCount := Open, 0, 0;
      } else if failureCount >= settings.failureThreshold {
        state := Open;
      }
    }

    /** `call`, for a protected function that ends at `end` and raises iff `ok` is false. */
    method Call(start: real, end: real, ok: bool) returns (executed: bool)
      modifies this
      ensures (Value(), executed) == Attempted(settings, old(Value()), start, end, ok)
    {
      var admission := BeginCall(start);
      if admission != Admitted {
        return false;
      }
      if ok {
        OnSuccess();
      } else {
        OnFailure(end);
      }
      return true;
    }

    method Reset()
      modifies this
      ensures Value() == INITIAL
    {
      state, failureCount, lastFailureTime, halfOpenCalls, successCount := Closed, 0, None, 0, 0;
    }
  }

  /** A whole call: the new state, and whether the protected function ran. */
  function Attempted(c: Settings, b: Breaker, start: real, end: real, ok: bool): (Breaker, bool) {
    var (begun, admission) := Begun(c, b, start);
    if admission != Admitted then (begun, false)
    else if ok then (Succeeded(begun), true)
    else (Failed(c, begun, end), true)
  }
}
