/** What a key breaker does over whole runs of operations. */
module KeyBreakerRuns {
  import opened Common
  import opened Backoff
  import opened KeyBreaker

  /** The operations a breaker can undergo. Every failure carries the jitter
      that was drawn for it. */
  datatype Op =
    | Allow(now: Time)
    | Failure(now: Time, jitter: Duration)
    | AuthFailure(now: Time)
    | Perma(why: string)
    | Force(now: Time, d: Duration)
    | Success
    | Reset

  function Step(b: Breaker, op: Op): Breaker {
    match op
    case Allow(_) => b
    case Failure(now, jitter) => b.Failed(now, jitter)
    case AuthFailure(now) => b.AuthFailed(now)
    case Perma(why) => b.Disabled(why)
    case Force(now, d) => b.Cooled(now, d)
    case Success => b.Succeeded()
    case Reset => b.Cleared()
  }

  function Run(b: Breaker, ops: seq<Op>): Breaker {
    if ops == [] then b else Step(Run(b, ops[..|ops| - 1]), ops[|ops| - 1])
  }

  ghost predicate Fresh(b: Breaker) {
    b.state == Closed && b.attempt == 0 && b.reason == ""
  }

  // ----- histories, described without reference to a breaker -----

  /** Rate-limit failures since the last success or reset. */
  function Streak(ops: seq<Op>): nat {
    if ops == [] then 0
    else
      var before := Streak(ops[..|ops| - 1]);
      match ops[|ops| - 1]
      case Failure(_, _) => before + 1
      case Success | Reset => 0
      case _ => before
  }

  /** The longest streak seen since the last reset. */
  function Peak(ops: seq<Op>): nat {
    if ops == [] then 0
    else
      match ops[|ops| - 1]
      case Reset => 0
      case _ => Max(Peak(ops[..|ops| - 1]), Streak(ops))
  }

  function Failures(ops: seq<Op>): nat {
    if ops == [] then 0
    else Failures(ops[..|ops| - 1]) + if ops[|ops| - 1].Failure? then 1 else 0
  }

  ghost predicate Without(ops: seq<Op>, excluded: Op -> bool) {
    forall i :: 0 <= i < |ops| ==> !excluded(ops[i])
  }

  // ----- when a key is given up -----

  ghost predicate SameParameters(a: Breaker, b: Breaker) {
    && a.base == b.base
    && a.backoffCap == b.backoffCap
    && a.multiplier == b.multiplier
    && a.permaThreshold == b.permaThreshold
  }

  lemma {:induction false} StreakAtMostPeak(ops: seq<Op>)
    ensures Streak(ops) <= Peak(ops)
  {
    if ops != [] {
      StreakAtMostPeak(ops[..|ops| - 1]);
    }
  }

  /** For any history of failures, authentication failures, forced cooldowns,
      successes and resets, and for any jitter, the key is given up exactly
      when some streak of failures since the last reset exceeded the first
      tripping attempt. */
  lemma {:induction false} TripsExactly(b: Breaker, ops: seq<Op>, n: nat)
    requires Fresh(b)
    requires FirstTrip(b.base, b.backoffCap, b.multiplier, n)
    requires Without(ops, (op: Op) => op.Perma?)
    ensures Run(b, ops).state == Permanent <==> Peak(ops) > n
    ensures Run(b, ops).state == Permanent ==> Run(b, ops).reason == "quota_exhausted"
    ensures Run(b, ops).state != Permanent ==> Run(b, ops).attempt == Streak(ops)
    ensures SameParameters(Run(b, ops), b)
  {
    if ops != [] {
      var before := ops[..|ops| - 1];
      TripsExactly(b, before, n);
      StreakAtMostPeak(before);
      var r := Run(b, before);
      assert r.Tripping() <==> Trips(b.base, b.backoffCap, b.multiplier, r.attempt);
    }
  }

  lemma {:induction false} UninterruptedStreak(ops: seq<Op>)
    requires Without(ops, (op: Op) => op.Success? || op.Reset?)
    ensures Streak(ops) == Peak(ops) == Failures(ops)
  {
    if ops != [] {
      UninterruptedStreak(ops[..|ops| - 1]);
    }
  }

  /** Without a success in between, failure number n + 1 is the one that gives
      the key up, where n is the first tripping attempt. */
  lemma {:induction false} TripsOnFailureNumber(b: Breaker, ops: seq<Op>, n: nat)
    requires Fresh(b)
    requires FirstTrip(b.base, b.backoffCap, b.multiplier, n)
    requires Without(ops, (op: Op) => op.Perma? || op.Success? || op.Reset?)
    ensures Run(b, ops).state == Permanent <==> Failures(ops) >= n + 1
  {
    TripsExactly(b, ops, n);
    UninterruptedStreak(ops);
  }

  /** A breaker whose multiplier is at most one and whose base is below the cap
      is never given up, whatever happens short of an explicit disablement. */
  lemma {:induction false} NeverTrips(b: Breaker, ops: seq<Op>)
    requires Fresh(b)
    requires 0 < b.base < b.backoffCap && 0.0 <= b.multiplier <= 1.0
    requires Without(ops, (op: Op) => op.Perma?)
    ensures Run(b, ops).state != Permanent
    ensures SameParameters(Run(b, ops), b)
  {
    if ops != [] {
      NeverTrips(b, ops[..|ops| - 1]);
      var k := Run(b, ops[..|ops| - 1]).attempt;
      FirstTripExists(b.base, b.backoffCap, b.multiplier);
      if Trips(b.base, b.backoffCap, b.multiplier, k) {
        var n := FirstTripBelow(b.base, b.backoffCap, b.multiplier, k);
      }
    }
  }

  lemma {:induction false} AllFailures(ops: seq<Op>)
    requires Without(ops, (op: Op) => !op.Failure?)
    ensures Failures(ops) == |ops|
  {
    if ops != [] {
      AllFailures(ops[..|ops| - 1]);
    }
  }

  /** Some run of rate-limit failures gives a key up exactly when the multiplier
      exceeds one or the base reaches the cap. */
  lemma CanTrip(b: Breaker, now: Time)
    requires Fresh(b)
    requires b.base > 0 && b.backoffCap > 0 && b.multiplier >= 0.0
    ensures (exists ops :: Without(ops, (op: Op) => op.Perma?) && Run(b, ops).state == Permanent)
            <==> (b.multiplier > 1.0 || b.base >= b.backoffCap)
  {
    FirstTripExists(b.base, b.backoffCap, b.multiplier);
    if b.multiplier > 1.0 || b.base >= b.backoffCap {
      var n: nat :| FirstTrip(b.base, b.backoffCap, b.multiplier, n);
      var ops := seq(n + 1, _ => Failure(now, 0));
      AllFailures(ops);
      TripsOnFailureNumber(b, ops, n);
      assert Without(ops, (op: Op) => op.Perma?);
    } else {
      forall ops | Without(ops, (op: Op) => op.Perma?)
        ensures Run(b, ops).state != Permanent
      {
        NeverTrips(b, ops);
      }
    }
  }

  // ----- how large a backoff can get -----

  /** The attempt counter only moves past attempts that did not trip. */
  lemma {:induction false} AttemptNotTripped(b: Breaker, ops: seq<Op>)
    requires Fresh(b)
    ensures SameParameters(Run(b, ops), b)
    ensures var k := Run(b, ops).attempt; k == 0 || !Trips(b.base, b.backoffCap, b.multiplier, k - 1)
  {
    if ops != [] {
      AttemptNotTripped(b, ops[..|ops| - 1]);
    }
  }

  /** In every reachable state the raw backoff stays below m * (cap + base). */
  lemma {:induction false} RawBounded(b: Breaker, ops: seq<Op>)
    requires Fresh(b)
    requires b.base > 0 && b.backoffCap > 0 && b.multiplier >= 1.0
    ensures Run(b, ops).RawBackoff() as real < b.multiplier * (b.backoffCap + b.base) as real
  {
    AttemptNotTripped(b, ops);
    var r := Run(b, ops);
    var m := b.multiplier;
    if r.attempt == 0 {
      assert Pow(m, 0) == 1.0;
      assert (m - 1.0) * (b.backoffCap + b.base) as real >= 0.0;
    } else {
      RawNext(b.base, m, r.attempt - 1);
      var before := Raw(b.base, m, r.attempt - 1);
      assert m * (b.backoffCap - before) as real >= 0.0;
      assert (b.backoffCap - before) as real == (b.backoffCap + b.base) as real - (before + b.base) as real;
    }
  }

  lemma ScaledAtLeast(base: Duration, t: int)
    requires base > 0 && t > 0
    ensures 0 < t <= base * t
  {
    assert (base - 1) * t >= 0;
  }

  /** When the bound fits a signed 64-bit integer, so do the truncated power and
      its product with the base: neither the conversion nor the multiplication
      overflows in any reachable state. */
  lemma BackoffFitsInt64(b: Breaker, ops: seq<Op>)
    requires Fresh(b)
    requires b.base > 0 && b.backoffCap > 0 && b.multiplier >= 1.0
    requires b.multiplier * (b.backoffCap + b.base) as real <= 0x7fff_ffff_ffff_ffff as real
    ensures var r := Run(b, ops);
            0 < Trunc(Pow(r.multiplier, r.attempt)) <= r.RawBackoff() <= 0x7fff_ffff_ffff_ffff
  {
    RawBounded(b, ops);
    AttemptNotTripped(b, ops);
    var r := Run(b, ops);
    PowAtLeastOne(r.multiplier, r.attempt);
    ScaledAtLeast(r.base, Trunc(Pow(r.multiplier, r.attempt)));
  }

  /** A failure that does not give the key up cools it for at least the raw
      backoff and at most the cap and one and a half times the raw backoff,
      and the key stays blocked up to and including the end of that time. */
  lemma CooldownBounds(b: Breaker, now: Time, draw: nat, t: Time)
    requires b.state != Permanent && !b.Tripping()
    requires b.base > 0 && b.multiplier >= 1.0
    ensures var raw := b.RawBackoff();
            var jitter := DefaultJitter(raw, draw);
            var d := b.FailureCooldown(jitter);
            var after := b.Failed(now, jitter);
            && 0 < raw <= d <= Min(b.backoffCap, raw + raw / 2)
            && after.attempt == b.attempt + 1
            && (after.Allows(t) <==> t > now + d)
  {
    PowAtLeastOne(b.multiplier, b.attempt);
    ScaledAtLeast(b.base, Trunc(Pow(b.multiplier, b.attempt)));
  }

  /** A failure blocks the key for the raw backoff and the jitter, but no longer
      than the cap, and reports that time; once the raw backoff reaches the cap it
      gives the key up and reports the cap. A permanent key reports nothing. */
  lemma FailureBlocks(b: Breaker, now: Time, jitter: Duration, t: Time)
    ensures var raw, after, d := b.RawBackoff(), b.Failed(now, jitter), b.FailureCooldown(jitter);
            if b.state == Permanent then after == b && d == 0
            else if raw >= b.backoffCap then after.state == Permanent && !after.Allows(t) && d == b.backoffCap
            else
              && d == (if raw + jitter < b.backoffCap then raw + jitter else b.backoffCap)
              && (after.Allows(t) <==> t > now + d)
              && after == b.(state := Open, attempt := b.attempt + 1, cooldownUntil := now + d)
  {
  }

  /** The random jitter takes every value below half of the raw cooldown; an
      override decides instead, from the number of the attempt. */
  lemma JitterReaches(b: Breaker, j: nat, f: int -> Duration)
    requires j < b.RawBackoff() / 2
    ensures JitterFor(None, b, j) == j
    ensures JitterFor(Some(f), b, j) == f(b.attempt)
  {
  }

  /** A forced cooldown blocks any key that is not permanently disabled, a closed
      one included, until its end or that of a cooldown already recorded. */
  lemma ForcedCooldownBlocks(b: Breaker, now: Time, d: Duration, t: Time)
    requires b.state != Permanent
    ensures b.Cooled(now, d).Allows(t) <==> t > now + d && t > b.cooldownUntil
    ensures b.Cooled(now, d) == b.(state := Open, cooldownUntil := b.Cooled(now, d).cooldownUntil)
  {
  }

  /** The breaker allows requests, has no failures, and its next cooldown counts
      from then on alone. */
  ghost predicate StartsOver(b: Breaker) {
    && b.attempt == 0 && b.authFails == 0
    && (forall t :: b.Allows(t))
    && (forall now, d, t :: now + d >= 0 ==> (b.Cooled(now, d).Allows(t) <==> t > now + d))
  }

  /** A success lets a key start over unless it is permanently disabled, enabling
      it lets every key; enabling also forgets the reason. */
  lemma SuccessStartsOver(b: Breaker)
    ensures StartsOver(b.Cleared()) && b.Cleared().reason == "" && SameParameters(b.Cleared(), b)
    ensures if b.state == Permanent then b.Succeeded() == b
            else StartsOver(b.Succeeded()) && b.Succeeded().reason == b.reason && SameParameters(b.Succeeded(), b)
  {
  }

  /** An explicit disablement blocks the key at all times and records its reason;
      parameters and counters stay. */
  lemma DisablementBlocks(b: Breaker, why: string, t: Time)
    ensures !b.Disabled(why).Allows(t)
    ensures b.Disabled(why) == b.(state := Permanent, reason := why)
  {
  }

  /** A cooldown holds through any further mix of availability checks, forced
      cooldowns and disablements. */
  lemma {:induction false} CooldownHolds(b: Breaker, ops: seq<Op>, t: Time)
    requires !b.Allows(t) && b.state in {Open, Permanent}
    requires Without(ops, (op: Op) => !(op.Allow? || op.Force? || op.Perma?))
    ensures !Run(b, ops).Allows(t) && Run(b, ops).state in {Open, Permanent}
    ensures Run(b, ops).cooldownUntil >= b.cooldownUntil
  {
    if ops != [] {
      CooldownHolds(b, ops[..|ops| - 1], t);
    }
  }

  // ----- why a key was given up -----

  /** Over every run a key has a recorded reason exactly while it is permanently
      disabled, and it is never half open. */
  lemma {:induction false} ReasonIffPermanent(b: Breaker, ops: seq<Op>)
    requires Fresh(b)
    requires Without(ops, (op: Op) => op.Perma? && op.why == "")
    ensures Run(b, ops).state == Permanent <==> Run(b, ops).reason != ""
    ensures Run(b, ops).state != HalfOpen
  {
    if ops != [] {
      ReasonIffPermanent(b, ops[..|ops| - 1]);
    }
  }

  /** A permanently disabled key ignores failures, successes and cooldowns: only
      a reset or another disablement changes anything about it. */
  lemma {:induction false} PermanentIsFrozen(b: Breaker, ops: seq<Op>)
    requires b.state == Permanent
    requires Without(ops, (op: Op) => op.Reset? || (op.Perma? && op.why != b.reason))
    ensures Run(b, ops) == b
  {
    if ops != [] {
      PermanentIsFrozen(b, ops[..|ops| - 1]);
    }
  }

  // ----- authentication failures -----

  /** Authentication failures since the last success or reset. */
  function AuthStreak(ops: seq<Op>): nat {
    if ops == [] then 0
    else
      var before := AuthStreak(ops[..|ops| - 1]);
      match ops[|ops| - 1]
      case AuthFailure(_) => before + 1
      case Success | Reset => 0
      case _ => before
  }

  lemma {:induction false} AuthFailsCounted(b: Breaker, ops: seq<Op>)
    requires Fresh(b) && b.authFails == 0
    ensures Run(b, ops).state != Permanent ==> Run(b, ops).authFails == AuthStreak(ops)
  {
    if ops != [] {
      AuthFailsCounted(b, ops[..|ops| - 1]);
    }
  }

  /** Until a key is disabled, its next authentication failure asks for permanent
      disablement exactly when it is the threshold-th in a row, or the first if
      no threshold is set; any other blocks the key for ten seconds. */
  lemma {:induction false} AuthLimitAtThreshold(b: Breaker, ops: seq<Op>, now: Time, t: Time)
    requires Fresh(b) && b.authFails == 0
    requires Run(b, ops).state != Permanent
    ensures var r := Run(b, ops);
            && r.authFails == AuthStreak(ops)
            && (r.AuthLimit() <==> AuthStreak(ops + [AuthFailure(now)]) >= Max(b.permaThreshold, 1))
            && (!r.AuthLimit() ==> (r.AuthFailed(now).Allows(t) <==> t > now + 10 * SECOND))
            && (r.AuthLimit() ==> r.AuthFailed(now) == r.(authFails := r.authFails + 1))
  {
    AttemptNotTripped(b, ops);
    AuthFailsCounted(b, ops);
    assert (ops + [AuthFailure(now)])[..|ops|] == ops;
  }
}
