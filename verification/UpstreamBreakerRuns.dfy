/** What the upstream breaker does over whole timed traces. */
module UpstreamBreakerRuns {
  import opened Common
  import opened UpstreamBreaker

  datatype Op =
    | Allow(now: Time)
    | Failure(now: Time)
    | Success
    | Reset
    | SetThreshold(t: int)
    | SetResetTimeout(d: Duration)

  function Step(u: Upstream, op: Op): Upstream {
    match op
    case Allow(now) => u.Asked(now)
    case Failure(now) => u.Failed(now)
    case Success => u.Succeeded()
    case Reset => u.Cleared()
    case SetThreshold(t) => u.(threshold := t)
    case SetResetTimeout(d) => u.(resetTimeout := d)
  }

  function Run(u: Upstream, ops: seq<Op>): Upstream {
    if ops == [] then u else Step(Run(u, ops[..|ops| - 1]), ops[|ops| - 1])
  }

  lemma {:induction false} RunAppend(u: Upstream, a: seq<Op>, b: seq<Op>)
    ensures Run(u, a + b) == Run(Run(u, a), b)
  {
    if b == [] {
      assert a + b == a;
    } else {
      var last := |b| - 1;
      RunAppend(u, a, b[..last]);
      assert (a + b)[..|a + b| - 1] == a + b[..last];
    }
  }

  // ----- the event history, described without reference to a breaker -----

  /** Failures since the last success or reset. */
  function Streak(ops: seq<Op>): nat {
    if ops == [] then 0
    else
      var before := Streak(ops[..|ops| - 1]);
      match ops[|ops| - 1]
      case Failure(_) => before + 1
      case Success | Reset => 0
      case _ => before
  }

  /** The threshold in force after a history that started from t. */
  function Threshold(t: int, ops: seq<Op>): int {
    if ops == [] then t
    else if ops[|ops| - 1].SetThreshold? then ops[|ops| - 1].t
    else Threshold(t, ops[..|ops| - 1])
  }

  /** Some failure since the last success or reset met the threshold in force
      when it was recorded. */
  predicate Tripped(t: int, ops: seq<Op>) {
    if ops == [] then false
    else
      var before := ops[..|ops| - 1];
      match ops[|ops| - 1]
      case Failure(_) => Tripped(t, before) || Streak(ops) >= Threshold(t, before)
      case Success | Reset => false
      case _ => Tripped(t, before)
  }

  /** The breaker refines its history: it is closed exactly while no failure
      since the last success or reset met the threshold, and while closed its
      counter is the number of those failures. Thresholds may change at any
      time, and no assumption is made about the clock. */
  lemma {:induction false} RefinesHistory(t: int, timeout: Duration, ops: seq<Op>)
    ensures var u := Run(New(t, timeout), ops);
            && (u.state == Closed <==> !Tripped(t, ops))
            && (u.state == Closed ==> u.failureCount == Streak(ops))
            && u.threshold == Threshold(t, ops)
            && u.state != Permanent
            && (u.state == HalfOpen ==> u.halfOpenProbed)
  {
    if ops != [] {
      RefinesHistory(t, timeout, ops[..|ops| - 1]);
    }
  }

  lemma {:induction false} FixedThreshold(t: int, ops: seq<Op>)
    requires t >= 1
    requires forall i :: 0 <= i < |ops| ==> !ops[i].SetThreshold?
    ensures Threshold(t, ops) == t
    ensures Tripped(t, ops) <==> Streak(ops) >= t
  {
    if ops != [] {
      FixedThreshold(t, ops[..|ops| - 1]);
    }
  }

  /** With a fixed threshold the breaker is closed exactly while fewer than
      that many failures followed the last success or reset: it opens at the
      threshold-th one, and immediately before it was still closed. */
  lemma {:induction false} OpensAtThreshold(t: int, timeout: Duration, ops: seq<Op>)
    requires t >= 1
    requires forall i :: 0 <= i < |ops| ==> !ops[i].SetThreshold?
    ensures Run(New(t, timeout), ops).state == Closed <==> Streak(ops) < t
  {
    RefinesHistory(t, timeout, ops);
    FixedThreshold(t, ops);
  }

  // ----- how often probes are let through -----

  function At(u: Upstream, ops: seq<Op>, i: nat): Upstream
    requires i <= |ops|
  {
    Run(u, ops[..i])
  }

  lemma AtNext(u: Upstream, ops: seq<Op>, i: nat)
    requires i < |ops|
    ensures At(u, ops, i + 1) == Step(At(u, ops, i), ops[i])
  {
    assert ops[..i + 1][..i] == ops[..i];
  }

  ghost predicate GrantAt(u: Upstream, ops: seq<Op>, i: nat) {
    i < |ops| && ops[i].Allow? && At(u, ops, i).Grants(ops[i].now)
  }

  predicate Timed(op: Op) {
    op.Allow? || op.Failure?
  }

  /** The clock never runs backwards. */
  ghost predicate Monotone(ops: seq<Op>) {
    forall i, j :: 0 <= i < j < |ops| && Timed(ops[i]) && Timed(ops[j]) ==> ops[i].now <= ops[j].now
  }

  ghost predicate FixedTimeout(ops: seq<Op>) {
    forall i :: 0 <= i < |ops| ==> !ops[i].SetResetTimeout?
  }

  /** The breaker is not closed at any point after step i and up to step j. */
  ghost predicate NeverClosed(u: Upstream, ops: seq<Op>, i: nat, j: nat)
    requires j <= |ops|
  {
    forall k: nat :: i < k <= j ==> At(u, ops, k).state != Closed
  }

  /** The reset timeout in force after a history that started from d. */
  function Timeout(d: Duration, ops: seq<Op>): Duration {
    if ops == [] then d
    else if ops[|ops| - 1].SetResetTimeout? then ops[|ops| - 1].d
    else Timeout(d, ops[..|ops| - 1])
  }

  lemma {:induction false} TimeoutIs(u: Upstream, ops: seq<Op>)
    ensures Run(u, ops).resetTimeout == Timeout(u.resetTimeout, ops)
  {
    if ops != [] {
      TimeoutIs(u, ops[..|ops| - 1]);
    }
  }

  lemma {:induction false} TimeoutFixed(d: Duration, ops: seq<Op>)
    requires FixedTimeout(ops)
    ensures Timeout(d, ops) == d
  {
    if ops != [] {
      TimeoutFixed(d, ops[..|ops| - 1]);
    }
  }

  lemma {:induction false} TimeoutKept(u: Upstream, ops: seq<Op>)
    requires FixedTimeout(ops)
    ensures Run(u, ops).resetTimeout == u.resetTimeout
  {
    if ops != [] {
      TimeoutKept(u, ops[..|ops| - 1]);
    }
  }

  /** Step k is the failure that opened the breaker as it is after all steps. */
  ghost predicate OpenedBy(u: Upstream, ops: seq<Op>, k: nat) {
    && k < |ops| && ops[k].Failure?
    && At(u, ops, k).state in {Closed, HalfOpen}
    && forall j: nat :: k < j <= |ops| ==> At(u, ops, j).state == Open && At(u, ops, j).openedAt == ops[k].now
  }

  lemma OpenedByEarlier(u: Upstream, ops: seq<Op>, k: nat)
    requires ops != [] && OpenedBy(u, ops[..|ops| - 1], k)
    requires Run(u, ops).state == Open && Run(u, ops).openedAt == Run(u, ops[..|ops| - 1]).openedAt
    ensures OpenedBy(u, ops, k)
  {
    var last := |ops| - 1;
    var before := ops[..last];
    forall j: nat | j <= last
      ensures At(u, ops, j) == At(u, before, j)
    {
      assert before[..j] == ops[..j];
    }
    assert At(u, before, last) == Run(u, before) by { assert before[..last] == before; }
    assert At(u, ops, last + 1) == Run(u, ops) by { assert ops[..last + 1] == ops; }
  }

  /** Whenever the breaker is open, a failure recorded while it was not open has
      opened it; it has been open ever since and holds requests back until the
      reset timeout in force has passed since that failure. */
  lemma {:induction false} OpenSinceFailure(t: int, timeout: Duration, ops: seq<Op>, now: Time) returns (k: nat)
    requires Run(New(t, timeout), ops).state == Open
    ensures OpenedBy(New(t, timeout), ops, k)
    ensures Run(New(t, timeout), ops).openedAt == ops[k].now
    ensures Run(New(t, timeout), ops).Grants(now) <==> now > ops[k].now + Timeout(timeout, ops)
  {
    var u, last := New(t, timeout), |ops| - 1;
    TimeoutIs(u, ops);
    AtNext(u, ops, last);
    assert ops[..last + 1] == ops;
    if Run(u, ops[..last]).state == Open {
      k := OpenSinceFailure(t, timeout, ops[..last], now);
      OpenedByEarlier(u, ops, k);
    } else {
      RefinesHistory(t, timeout, ops[..last]);
      k := last;
    }
  }

  /** With a fixed timeout, an open breaker grants exactly when more than that
      timeout has passed since the failure that opened it. */
  lemma OpenGrantsExactly(t: int, timeout: Duration, ops: seq<Op>, now: Time) returns (k: nat)
    requires FixedTimeout(ops) && Run(New(t, timeout), ops).state == Open
    ensures OpenedBy(New(t, timeout), ops, k)
    ensures Run(New(t, timeout), ops).Grants(now) <==> now > ops[k].now + timeout
  {
    k := OpenSinceFailure(t, timeout, ops, now);
    TimeoutFixed(timeout, ops);
  }

  /** A breaker that was half open at i and is open at j without having been
      closed was opened by some failure in between, at the time it remembers. */
  lemma {:induction false} LastOpening(t: int, timeout: Duration, ops: seq<Op>, i: nat, j: nat) returns (k: nat)
    requires i <= j <= |ops| && FixedTimeout(ops)
    requires At(New(t, timeout), ops, i).state == HalfOpen
    requires At(New(t, timeout), ops, j).state == Open
    requires forall n: nat :: i <= n <= j ==> At(New(t, timeout), ops, n).state != Closed
    ensures i <= k < j && ops[k].Failure? && ops[k].now == At(New(t, timeout), ops, j).openedAt
    decreases j
  {
    var u := New(t, timeout);
    assert i < j;
    AtNext(u, ops, j - 1);
    if At(u, ops, j - 1).state == Open {
      k := LastOpening(t, timeout, ops, i, j - 1);
    } else {
      RefinesHistory(t, timeout, ops[..j - 1]);
      k := j - 1;
    }
  }

  /** Two grants with no closed state in between are separated by a recorded
      failure, and the later one comes more than a reset timeout after that
      failure, hence more than a reset timeout after the earlier grant. */
  lemma GrantsFarApart(t: int, timeout: Duration, ops: seq<Op>, i: nat, j: nat) returns (k: nat)
    requires i < j && Monotone(ops) && FixedTimeout(ops)
    requires GrantAt(New(t, timeout), ops, i) && GrantAt(New(t, timeout), ops, j)
    requires NeverClosed(New(t, timeout), ops, i, j)
    ensures i < k < j && ops[k].Failure?
    ensures ops[j].now > ops[k].now + timeout
    ensures ops[j].now > ops[i].now + timeout
  {
    var u := New(t, timeout);
    AtNext(u, ops, i);
    RefinesHistory(t, timeout, ops[..i]);
    RefinesHistory(t, timeout, ops[..j]);
    TimeoutKept(u, ops[..j]);
    assert At(u, ops, i + 1).state == HalfOpen;
    k := LastOpening(t, timeout, ops, i + 1, j);
  }

  /** Grants among the steps from i to j. */
  ghost function Grants(u: Upstream, ops: seq<Op>, i: nat, j: nat): nat
    requires i <= j <= |ops|
  {
    if i == j then 0 else Grants(u, ops, i, j - 1) + if GrantAt(u, ops, j - 1) then 1 else 0
  }

  lemma OneMore(g: int, timeout: Duration)
    ensures (g - 1) * timeout + timeout == (g + 1 - 1) * timeout
  {
  }

  lemma {:induction false} PreviousGrant(u: Upstream, ops: seq<Op>, i: nat, j: nat) returns (p: nat)
    requires i < j <= |ops| && GrantAt(u, ops, i)
    ensures i <= p < j && GrantAt(u, ops, p)
    ensures Grants(u, ops, i, p + 1) == Grants(u, ops, i, j)
    decreases j
  {
    if GrantAt(u, ops, j - 1) {
      p := j - 1;
    } else {
      p := PreviousGrant(u, ops, i, j - 1);
    }
  }

  /** The probe rate is bounded: in a stretch without a closed state that begins
      with one grant and ends with another, all but one of the grants each took
      more than a whole reset timeout. */
  lemma {:induction false} ProbeRate(t: int, timeout: Duration, ops: seq<Op>, i: nat, j: nat)
    requires i < j && timeout >= 0 && Monotone(ops) && FixedTimeout(ops)
    requires GrantAt(New(t, timeout), ops, i) && GrantAt(New(t, timeout), ops, j)
    requires NeverClosed(New(t, timeout), ops, i, j)
    ensures ops[j].now - ops[i].now > (Grants(New(t, timeout), ops, i, j + 1) - 1) * timeout
    decreases j
  {
    var u := New(t, timeout);
    var p := PreviousGrant(u, ops, i, j);
    var k := GrantsFarApart(t, timeout, ops, p, j);
    if p > i {
      ProbeRate(t, timeout, ops, i, p);
      assert Grants(u, ops, i, j + 1) == Grants(u, ops, i, p + 1) + 1;
      OneMore(Grants(u, ops, i, p + 1), timeout);
    } else {
      assert Grants(u, ops, i, i + 1) == 1;
      assert Grants(u, ops, i, j + 1) == 2;
    }
  }

  /** Once the probe of a half-open breaker is used, the breaker refuses every
      request until an outcome is recorded or it is reset: neither time nor a
      change of its parameters lets another probe through. */
  lemma {:induction false} UsedProbeWaits(u: Upstream, ops: seq<Op>, now: Time)
    requires u.state == HalfOpen && u.halfOpenProbed
    requires forall i :: 0 <= i < |ops| ==> ops[i].Allow? || ops[i].SetThreshold? || ops[i].SetResetTimeout?
    ensures Run(u, ops).state == HalfOpen && Run(u, ops).halfOpenProbed && !Run(u, ops).Grants(now)
  {
    if ops != [] {
      UsedProbeWaits(u, ops[..|ops| - 1], now);
    }
  }

  /** The failure count that is reported: while closed the current streak, after a
      failed probe one, and while open whatever opened it. A reset also forgets that
      the probe was used, a success does not. */
  lemma FailureCounts(u: Upstream, now: Time)
    ensures var first := New(u.threshold, u.resetTimeout); first.failureCount == 0 && !first.halfOpenProbed
    ensures u.state == Closed ==> u.Failed(now).failureCount == u.failureCount + 1
    ensures u.state == HalfOpen ==> u.Failed(now).failureCount == 1
    ensures u.state == Open ==> u.Failed(now) == u
    ensures u.Succeeded().failureCount == 0 && u.Cleared().failureCount == 0
    ensures u.Asked(now).failureCount == u.failureCount
    ensures !u.Cleared().halfOpenProbed && u.Succeeded().halfOpenProbed == u.halfOpenProbed
  {
  }
}
