/** The arithmetic of exponential backoff: a real power, truncated to a whole
    factor and multiplied by the base duration. */
module Backoff {
  import opened Common

  function Pow(m: real, k: nat): real {
    if k == 0 then 1.0 else m * Pow(m, k - 1)
  }

  /** Conversion of a floating-point number to an integer drops the fraction. */
  function Trunc(x: real): int {
    if x >= 0.0 then x.Floor else -((-x).Floor)
  }

  function Raw(base: Duration, m: real, attempt: nat): Duration {
    base * Trunc(Pow(m, attempt))
  }

  predicate Trips(base: Duration, cap: Duration, m: real, attempt: nat) {
    Raw(base, m, attempt) >= cap
  }

  /** n is the first attempt whose raw backoff reaches the cap. */
  ghost predicate FirstTrip(base: Duration, cap: Duration, m: real, n: nat) {
    && Trips(base, cap, m, n)
    && forall k: nat :: k < n ==> !Trips(base, cap, m, k)
  }

  /** The conversion cuts towards zero. */
  lemma TruncCuts(x: real)
    ensures x >= 0.0 ==> Trunc(x) as real <= x < (Trunc(x) + 1) as real
    ensures x <= 0.0 ==> (Trunc(x) - 1) as real < x <= Trunc(x) as real
  {
  }

  /** m times the product of x and y, grouped in two ways. */
  lemma Reassociate(m: real, x: real, y: real, xy: real, mx: real)
    requires xy == x * y && mx == m * x
    ensures m * xy == mx * y
  {
  }

  lemma PowUnfolds(m: real, k: nat)
    ensures Pow(m, 0) == 1.0 && Pow(m, 1) == m
    ensures Pow(m, k + 1) == m * Pow(m, k)
  {
    assert Pow(m, 1) == m * Pow(m, 0);
    assert m * 1.0 == m;
  }

  lemma {:induction false} PowSum(m: real, j: nat, k: nat) returns (x: real, y: real)
    ensures x == Pow(m, j) && y == Pow(m, k) && Pow(m, j + k) == x * y
  {
    y := Pow(m, k);
    if j == 0 {
      x := 1.0;
      assert x * y == y;
    } else {
      var before, rest := PowSum(m, j - 1, k);
      x := m * before;
      PowUnfolds(m, j + k - 1);
      Reassociate(m, before, y, before * y, x);
    }
  }

  /** A power is the product of that many factors. */
  lemma PowAdds(m: real, j: nat, k: nat)
    ensures Pow(m, 1) == m
    ensures Pow(m, j + k) == Pow(m, j) * Pow(m, k)
  {
    PowUnfolds(m, 0);
    var x, y := PowSum(m, j, k);
  }

  lemma TruncWhole(t: int)
    ensures Trunc(t as real) == t
  {
  }

  lemma WholeProduct(m: int, t: int, mt: int)
    requires mt == m * t
    ensures m as real * t as real == mt as real
  {
  }

  lemma {:induction false} WholePower(m: nat, k: nat) returns (t: nat, next: nat)
    ensures Pow(m as real, k) == t as real && Pow(m as real, k + 1) == next as real
    ensures next == m * t
  {
    PowUnfolds(m as real, k);
    if k == 0 {
      t := 1;
    } else {
      var before;
      before, t := WholePower(m, k - 1);
    }
    next := m * t;
    WholeProduct(m, t, next);
  }

  lemma Regroup(base: int, m: int, t: int, mt: int)
    requires mt == m * t
    ensures base * mt == m * (base * t)
  {
  }

  /** With a whole multiplier the raw backoff starts at the base and is multiplied
      at each attempt, with nothing lost. */
  lemma WholeBackoff(base: Duration, m: nat, k: nat)
    ensures Raw(base, m as real, 0) == base
    ensures Raw(base, m as real, k + 1) == m * Raw(base, m as real, k)
  {
    var t, next := WholePower(m, k);
    PowUnfolds(m as real, 0);
    TruncWhole(1);
    TruncWhole(t);
    TruncWhole(next);
    Regroup(base, m, t, next);
  }

  lemma {:induction false} PowNonNegative(m: real, k: nat)
    requires m >= 0.0
    ensures Pow(m, k) >= 0.0
  {
    if k > 0 {
      PowNonNegative(m, k - 1);
    }
  }

  lemma ProductAtMost(x: real, y: real, p: real)
    requires x <= y && p >= 0.0
    ensures x * p <= y * p
  {
    assert (y - x) * p >= 0.0;
  }

  lemma {:induction false} PowAtMostOne(m: real, k: nat)
    requires 0.0 <= m <= 1.0
    ensures 0.0 <= Pow(m, k) <= 1.0
  {
    if k > 0 {
      PowAtMostOne(m, k - 1);
      var p := Pow(m, k - 1);
      PowNonNegative(m, k);
      assert Pow(m, k) == m * p;
      ProductAtMost(m, 1.0, p);
      assert 1.0 * p == p;
    }
  }

  /** Bernoulli: a power of m grows at least linearly. */
  lemma {:induction false} PowGrows(m: real, k: nat)
    requires m >= 1.0
    ensures Pow(m, k) >= 1.0 + (k as real) * (m - 1.0)
  {
    if k > 0 {
      PowGrows(m, k - 1);
      var j := (k - 1) as real;
      var d := m - 1.0;
      ProductAtMost(1.0 + j * d, Pow(m, k - 1), m);
      assert m * (1.0 + j * d) == 1.0 + (j + 1.0) * d + j * (d * d);
      assert d * d >= 0.0;
      assert j * (d * d) >= 0.0;
    }
  }

  /** Any attempt that trips bounds a first one. */
  lemma {:induction false} FirstTripBelow(base: Duration, cap: Duration, m: real, k: nat) returns (n: nat)
    requires Trips(base, cap, m, k)
    ensures n <= k && FirstTrip(base, cap, m, n)
  {
    if i: nat :| i < k && Trips(base, cap, m, i) {
      n := FirstTripBelow(base, cap, m, i);
    } else {
      n := k;
    }
  }

  /** With a multiplier above one some attempt reaches the cap. */
  lemma GrowthTrips(base: Duration, cap: Duration, m: real) returns (k: nat)
    requires base > 0 && cap > 0 && m > 1.0
    ensures Trips(base, cap, m, k)
  {
    var d := m - 1.0;
    k := (cap as real / d).Floor + 1;
    assert k as real >= cap as real / d;
    ProductAtMost(cap as real / d, k as real, d);
    PowGrows(m, k);
    var t := Trunc(Pow(m, k));
    assert Pow(m, k) >= 1.0 + cap as real;
    assert t >= cap;
    assert base * t >= t by {
      assert (base - 1) * t >= 0;
    }
  }

  /** A first tripping attempt exists exactly when the multiplier exceeds one
      or the base alone reaches the cap. */
  lemma FirstTripExists(base: Duration, cap: Duration, m: real)
    requires base > 0 && cap > 0 && m >= 0.0
    ensures (exists n: nat :: FirstTrip(base, cap, m, n)) <==> (m > 1.0 || base >= cap)
  {
    if m > 1.0 {
      var k := GrowthTrips(base, cap, m);
      var n := FirstTripBelow(base, cap, m, k);
    } else if base >= cap {
      assert Pow(m, 0) == 1.0;
      assert Trips(base, cap, m, 0);
      assert FirstTrip(base, cap, m, 0);
    } else {
      forall k: nat
        ensures !Trips(base, cap, m, k)
      {
        PowAtMostOne(m, k);
        var t := Trunc(Pow(m, k));
        assert t == 0 || t == 1;
      }
    }
  }

  lemma PowAtLeastOne(m: real, k: nat)
    requires m >= 1.0
    ensures Pow(m, k) >= 1.0
  {
    PowGrows(m, k);
    assert (k as real) * (m - 1.0) >= 0.0;
  }

  lemma RealProduct(x: int, y: int)
    ensures (x * y) as real == x as real * y as real
  {
  }

  /** p lies below t + 1 and u below m * p: scaling keeps u below m times t + 1. */
  lemma ScaledTrunc(base: Duration, m: real, p: real, t: int, u: int)
    requires base > 0 && m >= 1.0
    requires p < t as real + 1.0 && u as real <= m * p
    ensures (base * u) as real < m * (base * t + base) as real
  {
    var b, top := base as real, t as real + 1.0;
    assert m * (top - p) > 0.0;
    assert u as real < m * top;
    assert b * (m * top - u as real) > 0.0;
    RealProduct(base, u);
    RealProduct(base, t + 1);
    assert base * (t + 1) == base * t + base;
    assert b * (m * top) == m * (b * top);
  }

  /** One more attempt multiplies the raw backoff by at most m, up to the part
      lost to truncation. */
  lemma RawNext(base: Duration, m: real, k: nat)
    requires base > 0 && m >= 1.0
    ensures Raw(base, m, k + 1) as real < m * (Raw(base, m, k) + base) as real
  {
    PowAtLeastOne(m, k);
    PowAtLeastOne(m, k + 1);
    var p := Pow(m, k);
    assert Pow(m, k + 1) == m * p;
    ScaledTrunc(base, m, p, Trunc(p), Trunc(m * p));
  }
}
