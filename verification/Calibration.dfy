/** Calibration of token estimates by the median ratio of a sliding window. */
module Calibration {
  datatype Sample = Sample(estimate: int, actual: int, ratio: real)

  type Models = map<string, seq<Sample>>

  function SamplesOf(models: Models, model: string): seq<Sample> {
    if model in models then models[model] else []
  }

  function LastN(s: seq<Sample>, n: nat): seq<Sample> {
    if |s| <= n then s else s[|s| - n..]
  }

  function NewSample(estimate: int, actual: int): Sample
    requires estimate > 0
  {
    Sample(estimate, actual, actual as real / estimate as real)
  }

  function Recorded(models: Models, window: nat, model: string, estimate: int, actual: int): Models {
    if estimate <= 0 || actual <= 0 then models
    else models[model := LastN(SamplesOf(models, model) + [NewSample(estimate, actual)], window)]
  }

  // ----- sorting and the median -----

  function Insert(x: real, s: seq<real>): seq<real> {
    if s == [] || x <= s[0] then [x] + s else [s[0]] + Insert(x, s[1..])
  }

  /** The values in ascending order. */
  function Sorted(s: seq<real>): seq<real> {
    if s == [] then [] else Insert(s[|s| - 1], Sorted(s[..|s| - 1]))
  }

  ghost predicate Ascending(s: seq<real>) {
    forall i, j :: 0 <= i < j < |s| ==> s[i] <= s[j]
  }

  lemma {:induction false} InsertRearranges(x: real, s: seq<real>)
    ensures multiset(Insert(x, s)) == multiset(s) + multiset{x}
  {
    if s != [] && x > s[0] {
      InsertRearranges(x, s[1..]);
      assert s == [s[0]] + s[1..];
    }
  }

  lemma {:induction false} InsertAscends(x: real, s: seq<real>)
    requires Ascending(s)
    ensures Ascending(Insert(x, s))
  {
    if s != [] && x > s[0] {
      var r := Insert(x, s[1..]);
      InsertAscends(x, s[1..]);
      InsertRearranges(x, s[1..]);
      forall i | 0 <= i < |r|
        ensures s[0] <= r[i]
      {
        assert r[i] in multiset(r);
        assert r[i] == x || r[i] in s[1..];
      }
    }
  }

  /** Sorting yields the ascending rearrangement of its input. */
  lemma {:induction false} SortedIsSort(s: seq<real>)
    ensures Ascending(Sorted(s)) && multiset(Sorted(s)) == multiset(s)
    ensures |Sorted(s)| == |s|
  {
    if s != [] {
      var last := |s| - 1;
      SortedIsSort(s[..last]);
      InsertRearranges(s[last], Sorted(s[..last]));
      InsertAscends(s[last], Sorted(s[..last]));
      assert s == s[..last] + [s[last]];
    }
    assert |multiset(Sorted(s))| == |multiset(s)|;
  }

  function Ratios(samples: seq<Sample>): seq<real> {
    seq(|samples|, i requires 0 <= i < |samples| => samples[i].ratio)
  }

  function RatioOf(samples: seq<Sample>): real {
    if |samples| < 3 then 1.0
    else
      SortedIsSort(Ratios(samples));
      Sorted(Ratios(samples))[|samples| / 2]
  }

  /** Rounding to the nearest integer, halves away from zero. */
  function Round(x: real): int {
    if x >= 0.0 then (x + 0.5).Floor else -((-x + 0.5).Floor)
  }

  function Applied(ratio: real, estimate: int): int {
    if ratio == 1.0 then estimate
    else
      var adjusted := Round(estimate as real * ratio);
      if adjusted < 0 then 0 else adjusted
  }

  class Calibrator {
    const windowSize: nat
    var models: Models

    constructor (windowSize: int)
      ensures this.windowSize == (if windowSize < 3 then 3 else windowSize) && models == map[]
    {
      this.windowSize := if windowSize < 3 then 3 else windowSize;
      models := map[];
    }

    method Record(model: string, estimate: int, actual: int)
      modifies this
      ensures models == Recorded(old(models), windowSize, model, estimate, actual)
    {
      if estimate <= 0 || actual <= 0 {
        return;
      }
      var s := Sample(estimate, actual, actual as real / estimate as real);
      var samples := if model in models then models[model] else [];
      samples := samples + [s];
      if |samples| > windowSize {
        samples := samples[|samples| - windowSize..];
      }
      models := models[model := samples];
    }

    method Ratio(model: string) returns (ratio: real)
      ensures ratio == RatioOf(SamplesOf(models, model))
    {
      var samples := if model in models then models[model] else [];
      if |samples| < 3 {
        return 1.0;
      }
      var ratios: seq<real> := [];
      for i := 0 to |samples|
        invariant |ratios| == i
        invariant forall j :: 0 <= j < i ==> ratios[j] == samples[j].ratio
      {
        ratios := ratios + [samples[i].ratio];
      }
      assert ratios == Ratios(samples);
      SortedIsSort(ratios);
      ratios := Sorted(ratios);
      return ratios[|ratios| / 2];
    }

    method Apply(model: string, estimate: int) returns (adjusted: int)
      ensures adjusted == Applied(RatioOf(SamplesOf(models, model)), estimate)
    {
      var ratio := Ratio(model);
      if ratio == 1.0 {
        return estimate;
      }
      adjusted := Round(estimate as real * ratio);
      if adjusted < 0 {
        return 0;
      }
    }

    method ResetModel(model: string)
      modifies this
      ensures models == old(models) - {model}
    {
      models := models - {model};
    }
  }

  // ----- the window over whole runs -----

  datatype Op = Record(model: string, estimate: int, actual: int) | ResetModel(model: string)

  function Run(window: nat, ops: seq<Op>): Models {
    if ops == [] then map[]
    else
      var before := Run(window, ops[..|ops| - 1]);
      match ops[|ops| - 1]
      case Record(model, estimate, actual) => Recorded(before, window, model, estimate, actual)
      case ResetModel(model) => before - {model}
  }

  /** All samples accepted for a model since it was last reset. */
  function Accepted(ops: seq<Op>, model: string): seq<Sample> {
    if ops == [] then []
    else
      var before := Accepted(ops[..|ops| - 1], model);
      match ops[|ops| - 1]
      case Record(m, estimate, actual) =>
        if m == model && estimate > 0 && actual > 0 then before + [NewSample(estimate, actual)] else before
      case ResetModel(m) => if m == model then [] else before
  }

  lemma TrimStep(s: seq<Sample>, x: Sample, window: nat)
    requires window > 0
    ensures LastN(LastN(s, window) + [x], window) == LastN(s + [x], window)
  {
  }

  /** Trimming one sample at a time keeps exactly the last accepted samples, in
      order, separately for every model. */
  lemma {:induction false} WindowIsLastAccepted(window: nat, ops: seq<Op>, model: string)
    requires window > 0
    ensures SamplesOf(Run(window, ops), model) == LastN(Accepted(ops, model), window)
  {
    if ops != [] {
      var before := ops[..|ops| - 1];
      WindowIsLastAccepted(window, before, model);
      match ops[|ops| - 1]
      case Record(m, estimate, actual) =>
        if m == model && estimate > 0 && actual > 0 {
          TrimStep(Accepted(before, model), NewSample(estimate, actual), window);
        }
      case ResetModel(_) =>
    }
  }

  lemma {:induction false} AcceptedPositive(ops: seq<Op>, model: string)
    ensures forall i :: 0 <= i < |Accepted(ops, model)| ==> Accepted(ops, model)[i].ratio > 0.0
  {
    if ops != [] {
      AcceptedPositive(ops[..|ops| - 1], model);
    }
  }

  // ----- the median resists outliers -----

  function Within(s: seq<real>, lo: real, hi: real): nat {
    if s == [] then 0
    else Within(s[1..], lo, hi) + if lo <= s[0] <= hi then 1 else 0
  }

  lemma {:induction false} WithinAppend(a: seq<real>, b: seq<real>, lo: real, hi: real)
    ensures Within(a + b, lo, hi) == Within(a, lo, hi) + Within(b, lo, hi)
  {
    if a == [] {
      assert a + b == b;
    } else {
      WithinAppend(a[1..], b, lo, hi);
      assert (a + b)[1..] == a[1..] + b;
    }
  }

  lemma {:induction false} WithinInsert(x: real, s: seq<real>, lo: real, hi: real)
    ensures Within(Insert(x, s), lo, hi) == Within(s, lo, hi) + if lo <= x <= hi then 1 else 0
  {
    if s == [] || x <= s[0] {
      assert ([x] + s)[1..] == s;
    } else {
      WithinInsert(x, s[1..], lo, hi);
      assert ([s[0]] + Insert(x, s[1..]))[1..] == Insert(x, s[1..]);
    }
  }

  lemma {:induction false} WithinSorted(s: seq<real>, lo: real, hi: real)
    ensures Within(Sorted(s), lo, hi) == Within(s, lo, hi)
  {
    if s != [] {
      var last := |s| - 1;
      WithinSorted(s[..last], lo, hi);
      WithinInsert(s[last], Sorted(s[..last]), lo, hi);
      WithinAppend(s[..last], [s[last]], lo, hi);
      assert s == s[..last] + [s[last]];
    }
  }

  lemma {:induction false} WithinAtMost(s: seq<real>, lo: real, hi: real)
    ensures Within(s, lo, hi) <= |s|
    ensures (forall i :: 0 <= i < |s| ==> s[i] < lo || s[i] > hi) ==> Within(s, lo, hi) == 0
  {
    if s != [] {
      WithinAtMost(s[1..], lo, hi);
    }
  }

  lemma SplitCount(t: seq<real>, k: nat, lo: real, hi: real)
    requires k <= |t|
    ensures Within(t, lo, hi) == Within(t[..k], lo, hi) + Within(t[k..], lo, hi)
    ensures Within(t[..k], lo, hi) <= k && Within(t[k..], lo, hi) <= |t| - k
  {
    WithinAppend(t[..k], t[k..], lo, hi);
    WithinAtMost(t[..k], lo, hi);
    WithinAtMost(t[k..], lo, hi);
    assert t == t[..k] + t[k..];
  }

  /** Any interval that holds more than half of at least three ratios holds the
      calibration ratio. */
  lemma MajorityHoldsRatio(samples: seq<Sample>, lo: real, hi: real)
    requires |samples| >= 3
    requires 2 * Within(Ratios(samples), lo, hi) > |samples|
    ensures lo <= RatioOf(samples) <= hi
  {
    var t, mid := Sorted(Ratios(samples)), |samples| / 2;
    SortedIsSort(Ratios(samples));
    WithinSorted(Ratios(samples), lo, hi);
    if t[mid] < lo {
      SplitCount(t, mid + 1, lo, hi);
      WithinAtMost(t[..mid + 1], lo, hi);
    } else if t[mid] > hi {
      SplitCount(t, mid, lo, hi);
      WithinAtMost(t[mid..], lo, hi);
    }
  }

  lemma {:induction false} AllWithin(s: seq<real>, lo: real, hi: real)
    requires forall i :: 0 <= i < |s| ==> lo <= s[i] <= hi
    ensures Within(s, lo, hi) == |s|
  {
    if s != [] {
      AllWithin(s[1..], lo, hi);
    }
  }

  /** Every value of the sorted ratios is the ratio of some sample. */
  lemma SortedFrom(samples: seq<Sample>, i: nat)
    requires i < |Sorted(Ratios(samples))|
    ensures exists j :: 0 <= j < |samples| && samples[j].ratio == Sorted(Ratios(samples))[i]
  {
    var s, t := Ratios(samples), Sorted(Ratios(samples));
    SortedIsSort(s);
    assert t[i] in multiset(t);
    assert t[i] in multiset(s);
    var j :| 0 <= j < |s| && s[j] == t[i];
    assert samples[j].ratio == t[i];
  }

  /** Of ascending values between lo and hi, those up to position k lie between lo
      and the k-th, and those from it on between the k-th and hi. */
  lemma AscendingHalves(t: seq<real>, k: nat, lo: real, hi: real)
    requires Ascending(t) && k < |t|
    requires forall i :: 0 <= i < |t| ==> lo <= t[i] <= hi
    ensures Within(t, lo, t[k]) >= k + 1 && Within(t, t[k], hi) >= |t| - k
  {
    SplitCount(t, k + 1, lo, t[k]);
    SplitCount(t, k, t[k], hi);
    AllWithin(t[..k + 1], lo, t[k]);
    AllWithin(t[k..], t[k], hi);
  }

  /** The calibration ratio is one below three samples. Else it is the ratio of some
      sample, with more than half of all ratios at or below it and at least half
      at or above it: of an even number it is the upper one of the middle two. */
  lemma RatioIsUpperMedian(samples: seq<Sample>, lo: real, hi: real)
    requires forall i :: 0 <= i < |samples| ==> lo <= samples[i].ratio <= hi
    ensures |samples| < 3 ==> RatioOf(samples) == 1.0
    ensures |samples| >= 3 ==>
              && (exists i :: 0 <= i < |samples| && samples[i].ratio == RatioOf(samples))
              && 2 * Within(Ratios(samples), lo, RatioOf(samples)) > |samples|
              && 2 * Within(Ratios(samples), RatioOf(samples), hi) >= |samples|
  {
    if |samples| >= 3 {
      var s, mid := Ratios(samples), |samples| / 2;
      var t := Sorted(s);
      SortedIsSort(s);
      forall i | 0 <= i < |t|
        ensures lo <= t[i] <= hi
      {
        SortedFrom(samples, i);
      }
      SortedFrom(samples, mid);
      AscendingHalves(t, mid, lo, hi);
      WithinSorted(s, lo, t[mid]);
      WithinSorted(s, t[mid], hi);
    }
  }

  /** A sample's ratio is what its estimate has to be multiplied by. */
  lemma SampleRatio(estimate: int, actual: int)
    requires estimate > 0
    ensures var s := NewSample(estimate, actual);
            s.estimate == estimate && s.actual == actual && s.ratio * estimate as real == actual as real
  {
  }

  /** Trimming keeps the last samples, all of them if they are not too many. */
  lemma LastNIsSuffix(s: seq<Sample>, n: nat)
    ensures |LastN(s, n)| == if |s| < n then |s| else n
    ensures exists front :: s == front + LastN(s, n)
  {
    assert s == s[..|s| - |LastN(s, n)|] + LastN(s, n);
  }

  // ----- applying the ratio -----

  lemma RoundNearest(x: real)
    ensures -0.5 <= Round(x) as real - x <= 0.5
  {
  }

  lemma RoundMonotone(x: real, y: real)
    requires x <= y
    ensures Round(x) <= Round(y)
  {
  }

  /** For non-negative estimates the result is within one half of the exact
      product. */
  lemma AppliedNearProduct(ratio: real, estimate: int)
    requires ratio > 0.0 && estimate >= 0
    ensures -0.5 <= Applied(ratio, estimate) as real - estimate as real * ratio <= 0.5
  {
    assert estimate as real * ratio >= 0.0;
    RoundNearest(estimate as real * ratio);
  }

  /** Exactly: a ratio of one changes nothing. Any other rounds the product to the
      nearest integer, a half up, and turns a negative one into zero. */
  lemma AppliedIs(ratio: real, estimate: int)
    ensures var x, r := estimate as real * ratio, Applied(ratio, estimate);
            if ratio == 1.0 then r == estimate
            else if x < 0.0 then r == 0
            else r as real - 0.5 <= x < r as real + 0.5
  {
  }

  /** A larger estimate never gets a smaller result, negative estimates included. */
  lemma AppliedMonotone(ratio: real, e1: int, e2: int)
    requires ratio > 0.0 && e1 <= e2
    ensures Applied(ratio, e1) <= Applied(ratio, e2)
  {
    assert (e2 - e1) as real * ratio >= 0.0;
    assert (e2 - e1) as real * ratio == e2 as real * ratio - e1 as real * ratio;
    RoundMonotone(e1 as real * ratio, e2 as real * ratio);
  }

  lemma Near(r: real, x: real, low: real, high: real)
    requires -0.5 <= r - x <= 0.5 && low <= x <= high
    ensures low - 0.5 <= r <= high + 0.5
  {
  }

  /** Two products with a common non-negative factor are ordered as the others. */
  lemma ScaleOrder(e: real, x: real, y: real, ex: real, ey: real)
    requires e >= 0.0 && x <= y && ex == e * x && ey == e * y
    ensures ex <= ey
  {
    assert e * (y - x) >= 0.0;
    assert e * (y - x) == ey - ex;
  }

  lemma AppliedBetween(ratio: real, estimate: int, lo: real, hi: real)
    requires ratio > 0.0 && lo <= ratio <= hi && estimate >= 0
    ensures estimate as real * lo - 0.5 <= Applied(ratio, estimate) as real <= estimate as real * hi + 0.5
  {
    var e, r := estimate as real, Applied(ratio, estimate) as real;
    var low, x, high := e * lo, e * ratio, e * hi;
    AppliedNearProduct(ratio, estimate);
    ScaleOrder(e, lo, ratio, low, x);
    ScaleOrder(e, ratio, hi, x, high);
    Near(r, x, low, high);
  }

  lemma RatioIsPositive(ops: seq<Op>, model: string, window: nat)
    requires window > 0
    ensures RatioOf(LastN(Accepted(ops, model), window)) > 0.0
  {
    var kept := LastN(Accepted(ops, model), window);
    AcceptedPositive(ops, model);
    if |kept| >= 3 {
      var s := Ratios(kept);
      SortedIsSort(s);
      var mid := Sorted(s)[|kept| / 2];
      assert mid in multiset(Sorted(s));
      assert mid in multiset(s);
      var i :| 0 <= i < |s| && s[i] == mid;
    }
  }

  /** End to end: after any run, once at least three samples are held and more
      than half of their ratios lie between lo and hi, every non-negative
      estimate is scaled by a factor between lo and hi, up to one half. */
  lemma CalibrationIsRobust(window: nat, ops: seq<Op>, model: string, lo: real, hi: real, estimate: int)
    requires window >= 3 && estimate >= 0
    requires var kept := LastN(Accepted(ops, model), window);
             |kept| >= 3 && 2 * Within(Ratios(kept), lo, hi) > |kept|
    ensures var r := Applied(RatioOf(SamplesOf(Run(window, ops), model)), estimate) as real;
            estimate as real * lo - 0.5 <= r <= estimate as real * hi + 0.5
  {
    var kept := LastN(Accepted(ops, model), window);
    WindowIsLastAccepted(window, ops, model);
    MajorityHoldsRatio(kept, lo, hi);
    RatioIsPositive(ops, model, window);
    AppliedBetween(RatioOf(kept), estimate, lo, hi);
  }
}
