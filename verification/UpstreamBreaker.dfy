/** The breaker in front of the upstream: it opens after a threshold of
    consecutive failures and lets one probe through per reset window. */
module UpstreamBreaker {
  import opened Common

  datatype Upstream = Upstream(
    state: State,
    failureCount: nat,
    threshold: int,
    resetTimeout: Duration,
    openedAt: Time,
    halfOpenProbed: bool)
  {
    predicate Grants(now: Time) {
      match state
      case Closed => true
      case Open => now > openedAt + resetTimeout
      case HalfOpen => !halfOpenProbed
      case Permanent => false
    }

    function Asked(now: Time): Upstream {
      if state == Closed || !Grants(now) then this
      else this.(state := HalfOpen, halfOpenProbed := true)
    }

    function Failed(now: Time): Upstream {
      match state
      case Closed =>
        if failureCount + 1 >= threshold
        then this.(failureCount := failureCount + 1, state := Open, openedAt := now)
        else this.(failureCount := failureCount + 1)
      case HalfOpen => this.(failureCount := 1, state := Open, openedAt := now)
      case _ => this
    }

    function Succeeded(): Upstream {
      this.(failureCount := 0, state := Closed)
    }

    function Cleared(): Upstream {
      this.(failureCount := 0, state := Closed, halfOpenProbed := false)
    }
  }

  function New(threshold: int, resetTimeout: Duration): Upstream {
    Upstream(Closed, 0, threshold, resetTimeout, ZERO_TIME, false)
  }

  class UpstreamCircuitBreaker {
    var state: State
    var failureCount: nat
    var threshold: int
    var resetTimeout: Duration
    var openedAt: Time
    var halfOpenProbed: bool

    ghost function Value(): Upstream
      reads this
    {
      Upstream(state, failureCount, threshold, resetTimeout, openedAt, halfOpenProbed)
    }

    constructor (threshold: int, resetTimeout: Duration)
      ensures Value() == New(threshold, resetTimeout)
    {
      this.threshold, this.resetTimeout := threshold, resetTimeout;
      state, failureCount, openedAt, halfOpenProbed := Closed, 0, ZERO_TIME, false;
    }

    method RecordFailure(now: Time)
      modifies this
      ensures Value() == old(Value()).Failed(now)
    {
      match state {
        case Closed =>
          failureCount := failureCount + 1;
          if failureCount >= threshold {
            state := Open;
            openedAt := now;
          }
        case HalfOpen =>
          failureCount := 1;
          state := Open;
          openedAt := now;
        case _ =>
      }
    }

    method RecordSuccess()
      modifies this
      ensures Value() == old(Value()).Succeeded()
    {
      failureCount := 0;
      state := Closed;
    }

    method Allow(now: Time) returns (ok: bool)
      modifies this
      ensures ok == old(Value()).Grants(now)
      ensures Value() == old(Value()).Asked(now)
    {
      match state {
        case Closed =>
          return true;
        case Open =>
          if now > openedAt + resetTimeout {
            state := HalfOpen;
            halfOpenProbed := true;
            return true;
          }
          return false;
        case HalfOpen =>
          if !halfOpenProbed {
            halfOpenProbed := true;
            return true;
          }
          return false;
        case Permanent =>
          return false;
      }
    }

    method SetThreshold(t: int)
      modifies this
      ensures Value() == old(Value()).(threshold := t)
    {
      threshold := t;
    }

    method SetResetTimeout(d: Duration)
      modifies this
      ensures Value() == old(Value()).(resetTimeout := d)
    {
      resetTimeout := d;
    }

    method Reset()
      modifies this
      ensures Value() == old(Value()).Cleared()
    {
      failureCount := 0;
      state := Closed;
      halfOpenProbed := false;
    }
  }
}
