/** The per-key circuit breaker: exponential backoff that ends in permanent
    disablement. `Breaker` is the value of a breaker and its transitions;
    `KeyCircuitBreaker` is the object that carries them out in place. */
module KeyBreaker {
  import opened Common
  import opened Backoff

  const AUTH_COOLDOWN: Duration := 10 * SECOND

  datatype Breaker = Breaker(
    state: State,
    attempt: nat,
    cooldownUntil: Time,
    reason: string,
    authFails: int,
    base: Duration,
    backoffCap: Duration,
    multiplier: real,
    permaThreshold: int)
  {
    function RawBackoff(): Duration {
      Raw(base, multiplier, attempt)
    }

    predicate Tripping() {
      RawBackoff() >= backoffCap
    }

    /** What RecordFailure reports for a given jitter. */
    function FailureCooldown(jitter: Duration): Duration {
      if state == Permanent then 0
      else if Tripping() then backoffCap
      else Min(RawBackoff() + jitter, backoffCap)
    }

    function Failed(now: Time, jitter: Duration): Breaker {
      if state == Permanent then this
      else if Tripping() then this.(state := Permanent, reason := "quota_exhausted")
      else this.(state := Open, cooldownUntil := now + FailureCooldown(jitter), attempt := attempt + 1)
    }

    /** An authentication failure at this point asks for permanent disablement. */
    predicate AuthLimit() {
      state != Permanent && (permaThreshold <= 0 || authFails + 1 >= permaThreshold)
    }

    function AuthFailed(now: Time): Breaker {
      if state == Permanent then this
      else if AuthLimit() then this.(authFails := authFails + 1)
      else this.(authFails := authFails + 1, state := Open, cooldownUntil := now + AUTH_COOLDOWN)
    }

    function Disabled(why: string): Breaker {
      this.(state := Permanent, reason := why)
    }

    function Cooled(now: Time, d: Duration): Breaker {
      if state == Permanent then this
      else this.(state := Open, cooldownUntil := Max(cooldownUntil, now + d))
    }

    function Succeeded(): Breaker {
      if state == Permanent then this
      else this.(state := Closed, attempt := 0, authFails := 0, cooldownUntil := ZERO_TIME)
    }

    function Cleared(): Breaker {
      this.(state := Closed, attempt := 0, authFails := 0, cooldownUntil := ZERO_TIME, reason := "")
    }

    /** A cooldown still blocks at the very instant it expires. */
    predicate Allows(now: Time) {
      state == Closed || (state == Open && now > cooldownUntil)
    }
  }

  function New(base: Duration, cap: Duration, m: real, permaThreshold: int): Breaker {
    Breaker(Closed, 0, ZERO_TIME, "", 0, base, cap, m, Max(permaThreshold, 0))
  }

  /** Random jitter below half of the raw cooldown; `draw` is the random number. */
  function DefaultJitter(raw: Duration, draw: nat): (j: Duration)
    ensures 0 <= j
    ensures raw > 0 ==> 2 * j <= raw
  {
    if raw <= 0 then 0
    else if raw / 2 <= 0 then 0
    else draw % (raw / 2)
  }

  /** The jitter in force: the override when one is installed, else the random one. */
  function JitterFor(override: Option<int -> Duration>, b: Breaker, draw: nat): Duration {
    match override
    case Some(f) => f(b.attempt)
    case None => DefaultJitter(b.RawBackoff(), draw)
  }

  class KeyCircuitBreaker {
    var state: State
    var attempt: nat
    var cooldownUntil: Time
    var trippedReason: string
    var authFailCount: int
    const base: Duration
    const multiplier: real
    const backoffCap: Duration
    const jitterFn: Option<int -> Duration>
    const permaThreshold: int

    ghost function Value(): Breaker
      reads this
    {
      Breaker(state, attempt, cooldownUntil, trippedReason, authFailCount,
              base, backoffCap, multiplier, permaThreshold)
    }

    constructor (base: Duration, backoffCap: Duration, multiplier: real, permaThreshold: int)
      ensures Value() == New(base, backoffCap, multiplier, permaThreshold)
      ensures jitterFn == None
    {
      this.base, this.backoffCap, this.multiplier := base, backoffCap, multiplier;
      this.permaThreshold := if permaThreshold > 0 then permaThreshold else 0;
      jitterFn := None;
      state, attempt, cooldownUntil, trippedReason, authFailCount := Closed, 0, ZERO_TIME, "", 0;
    }

    method RecordFailure(now: Time, draw: nat) returns (cooldown: Duration)
      modifies this
      ensures cooldown == old(Value()).FailureCooldown(JitterFor(jitterFn, old(Value()), draw))
      ensures Value() == old(Value()).Failed(now, JitterFor(jitterFn, old(Value()), draw))
    {
      if state == Permanent {
        return 0;
      }
      var raw := base * Trunc(Pow(multiplier, attempt));
      if raw >= backoffCap {
        state := Permanent;
        trippedReason := "quota_exhausted";
        return backoffCap;
      }
      var jitter;
      if jitterFn != None {
        jitter := jitterFn.value(attempt);
      } else {
        jitter := DefaultJitter(raw, draw);
      }
      cooldown := raw + jitter;
      if cooldown > backoffCap {
        cooldown := backoffCap;
      }
      state := Open;
      cooldownUntil := now + cooldown;
      attempt := attempt + 1;
    }

    method RecordAuthFailure(now: Time) returns (disable: bool)
      modifies this
      ensures disable == old(Value()).AuthLimit()
      ensures Value() == old(Value()).AuthFailed(now)
    {
      if state == Permanent {
        return false;
      }
      authFailCount := authFailCount + 1;
      if permaThreshold <= 0 || authFailCount >= permaThreshold {
        return true;
      }
      state := Open;
      cooldownUntil := now + 10 * SECOND;
      return false;
    }

    method RecordPerma(why: string)
      modifies this
      ensures Value() == old(Value()).Disabled(why)
    {
      state := Permanent;
      trippedReason := why;
    }

    method ForceCooldown(now: Time, d: Duration)
      modifies this
      ensures Value() == old(Value()).Cooled(now, d)
    {
      if state == Permanent {
        return;
      }
      var until := now + d;
      if until > cooldownUntil {
        cooldownUntil := until;
      }
      state := Open;
    }

    method RecordSuccess()
      modifies this
      ensures Value() == old(Value()).Succeeded()
    {
      if state == Permanent {
        return;
      }
      state := Closed;
      attempt := 0;
      authFailCount := 0;
      cooldownUntil := ZERO_TIME;
    }

    method Reset()
      modifies this
      ensures Value() == old(Value()).Cleared()
    {
      state := Closed;
      attempt := 0;
      authFailCount := 0;
      cooldownUntil := ZERO_TIME;
      trippedReason := "";
    }

    method Allow(now: Time) returns (ok: bool)
      ensures ok == Value().Allows(now)
    {
      match state
      case Permanent => return false;
      case Closed => return true;
      case Open => return now > cooldownUntil;
      case HalfOpen => return false;
    }

    /** Zero when not cooling, minus one when permanently disabled. */
    method CooldownRemaining(now: Time) returns (d: Duration)
      ensures d >= -1 && (d == -1 <==> Value().state == Permanent)
      ensures d > 0 <==> Value().state !in {Permanent, Closed} && now < Value().cooldownUntil
      ensures d > 0 ==> now + d == Value().cooldownUntil
    {
      if state == Permanent {
        return -1;
      }
      if state == Closed {
        return 0;
      }
      var remaining := cooldownUntil - now;
      if remaining < 0 {
        return 0;
      }
      return remaining;
    }
  }
}
