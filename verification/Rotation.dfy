/** Scanning a ring of n slots from a starting position, and the linear
    filter-then-rotate form of the same order. */
module Rotation {
  import opened Common

  /** How many steps forward from `start` the slot `idx` lies on a ring of n. */
  function Dist(n: nat, start: nat, idx: nat): nat
    requires start < n && idx < n
  {
    if idx >= start then idx - start else idx + n - start
  }

  /** The remainder of x by n, for x below 2 * n. */
  function Wrap(n: nat, x: nat): nat
    requires x < 2 * n
  {
    if x < n then x else x - n
  }

  lemma WrapIsRemainder(n: nat, x: nat)
    requires x < 2 * n
    ensures x % n == Wrap(n, x)
  {
    if x >= n {
      assert x == n + (x - n);
      assert (x - n) % n == x - n;
    }
  }

  /** The first slot that is ok, scanning forward from start + from. */
  function CyclicFirst(ok: seq<bool>, start: nat, from: nat): (r: Option<nat>)
    requires start < |ok| && from <= |ok|
    ensures r.Some? ==> r.value < |ok| && ok[r.value]
    decreases |ok| - from
  {
    if from == |ok| then None
    else
      var idx := Wrap(|ok|, start + from);
      if ok[idx] then Some(idx) else CyclicFirst(ok, start, from + 1)
  }

  /** Nothing is found exactly when nothing is ok; otherwise the ok slot
      nearest to the start is. */
  lemma {:induction false} CyclicFirstNearest(ok: seq<bool>, start: nat, from: nat)
    requires start < |ok| && from <= |ok|
    requires forall i :: 0 <= i < |ok| && ok[i] ==> Dist(|ok|, start, i) >= from
    ensures match CyclicFirst(ok, start, from)
            case None => forall i :: 0 <= i < |ok| ==> !ok[i]
            case Some(idx) =>
              forall i :: 0 <= i < |ok| && ok[i] ==> Dist(|ok|, start, idx) <= Dist(|ok|, start, i)
    decreases |ok| - from
  {
    if from < |ok| {
      var idx := Wrap(|ok|, start + from);
      if !ok[idx] {
        CyclicFirstNearest(ok, start, from + 1);
      }
    }
  }

  /** All ok slots, scanning forward from start + from. */
  function CyclicScan(ok: seq<bool>, start: nat, from: nat): (r: seq<nat>)
    requires start < |ok| && from <= |ok|
    ensures forall k :: 0 <= k < |r| ==> r[k] < |ok| && ok[r[k]]
    decreases |ok| - from
  {
    if from == |ok| then []
    else
      var idx := Wrap(|ok|, start + from);
      var rest := CyclicScan(ok, start, from + 1);
      if ok[idx] then [idx] + rest else rest
  }

  lemma CyclicScanStep(seen: seq<nat>, ok: seq<bool>, start: nat, from: nat)
    requires start < |ok| && from < |ok|
    ensures var idx := Wrap(|ok|, start + from);
            seen + CyclicScan(ok, start, from) ==
            (if ok[idx] then seen + [idx] else seen) + CyclicScan(ok, start, from + 1)
  {
  }

  /** The scan lists exactly the ok slots, nearest first, each once. */
  lemma {:induction false} CyclicScanOrder(ok: seq<bool>, start: nat, from: nat)
    requires start < |ok| && from <= |ok|
    ensures forall k :: 0 <= k < |CyclicScan(ok, start, from)| ==>
              var idx := CyclicScan(ok, start, from)[k];
              Dist(|ok|, start, idx) >= from
    ensures forall j, k :: 0 <= j < k < |CyclicScan(ok, start, from)| ==>
              Dist(|ok|, start, CyclicScan(ok, start, from)[j]) < Dist(|ok|, start, CyclicScan(ok, start, from)[k])
    ensures forall i: nat :: i < |ok| && ok[i] && Dist(|ok|, start, i) >= from ==>
              i in CyclicScan(ok, start, from)
    decreases |ok| - from
  {
    if from < |ok| {
      var idx := Wrap(|ok|, start + from);
      CyclicScanOrder(ok, start, from + 1);
    }
  }

  /** The ok slots in [lo, hi), in ascending order. */
  function Ascending(ok: seq<bool>, lo: nat, hi: nat): (r: seq<nat>)
    requires lo <= hi <= |ok|
    ensures forall k :: 0 <= k < |r| ==> lo <= r[k] < hi && ok[r[k]]
    decreases hi - lo
  {
    if lo == hi then []
    else
      var rest := Ascending(ok, lo + 1, hi);
      if ok[lo] then [lo] + rest else rest
  }

  lemma {:induction false} AscendingOrder(ok: seq<bool>, lo: nat, hi: nat)
    requires lo <= hi <= |ok|
    ensures forall j, k :: 0 <= j < k < |Ascending(ok, lo, hi)| ==>
              Ascending(ok, lo, hi)[j] < Ascending(ok, lo, hi)[k]
    decreases hi - lo
  {
    if lo < hi {
      AscendingOrder(ok, lo + 1, hi);
    }
  }

  lemma {:induction false} AscendingHas(ok: seq<bool>, lo: nat, hi: nat, i: nat)
    requires lo <= i < hi <= |ok| && ok[i]
    ensures i in Ascending(ok, lo, hi)
    decreases hi - lo
  {
    if lo < i {
      AscendingHas(ok, lo + 1, hi, i);
    }
  }

  lemma {:induction false} AscendingSplit(ok: seq<bool>, lo: nat, mid: nat, hi: nat)
    requires lo <= mid <= hi <= |ok|
    ensures Ascending(ok, lo, hi) == Ascending(ok, lo, mid) + Ascending(ok, mid, hi)
    decreases mid - lo
  {
    if lo < mid {
      AscendingSplit(ok, lo + 1, mid, hi);
    }
  }

  lemma AscendingSnoc(ok: seq<bool>, hi: nat)
    requires hi < |ok|
    ensures Ascending(ok, 0, hi + 1) == Ascending(ok, 0, hi) + if ok[hi] then [hi] else []
  {
    AscendingSplit(ok, 0, hi, hi + 1);
    assert Ascending(ok, hi + 1, hi + 1) == [];
  }

  lemma AscendingHead(ok: seq<bool>, lo: nat, hi: nat, rest: seq<nat>)
    requires lo < hi <= |ok|
    ensures var tail := Ascending(ok, lo + 1, hi);
            Ascending(ok, lo, hi) + rest == if ok[lo] then [lo] + (tail + rest) else tail + rest
  {
    var tail := Ascending(ok, lo + 1, hi);
    assert [lo] + tail + rest == [lo] + (tail + rest);
  }

  /** In the lower stretch the scan goes on to the slot before the start. */
  lemma {:induction false} ScanLower(ok: seq<bool>, start: nat, from: nat)
    requires start < |ok| <= start + from && from <= |ok|
    ensures CyclicScan(ok, start, from) == Ascending(ok, start + from - |ok|, start)
    decreases |ok| - from
  {
    if from < |ok| {
      ScanLower(ok, start, from + 1);
    }
  }

  /** In the upper stretch the scan goes on to the last slot and then wraps. */
  lemma {:induction false} ScanUpper(ok: seq<bool>, start: nat, from: nat)
    requires start + from <= |ok| && start < |ok|
    ensures CyclicScan(ok, start, from) ==
            Ascending(ok, start + from, |ok|) + CyclicScan(ok, start, |ok| - start)
    decreases |ok| - from
  {
    if start + from < |ok| {
      ScanUpper(ok, start, from + 1);
      AscendingHead(ok, start + from, |ok|, CyclicScan(ok, start, |ok| - start));
    }
  }

  /** The position of the first listed slot at or after `start`, or 0. */
  function Offset(avail: seq<nat>, start: nat, from: nat): nat
    requires from <= |avail|
    decreases |avail| - from
  {
    if from == |avail| then 0
    else if avail[from] >= start then from
    else Offset(avail, start, from + 1)
  }

  function Rotated(avail: seq<nat>, offset: nat): seq<nat>
    requires offset <= |avail|
  {
    avail[offset..] + avail[..offset]
  }

  lemma {:induction false} OffsetSkipsLow(low: seq<nat>, high: seq<nat>, start: nat, from: nat)
    requires from <= |low|
    requires forall k :: 0 <= k < |low| ==> low[k] < start
    requires forall k :: 0 <= k < |high| ==> high[k] >= start
    ensures Offset(low + high, start, from) == if high == [] then 0 else |low|
    decreases |low| - from
  {
    if from < |low| {
      OffsetSkipsLow(low, high, start, from + 1);
    } else if high != [] {
      assert (low + high)[|low|] == high[0];
    }
  }

  /** Filtering in index order and rotating at the start position gives the
      cyclic scan, for every start and every pattern of availability. */
  lemma RotationIsScan(ok: seq<bool>, start: nat)
    requires start < |ok|
    ensures var avail := Ascending(ok, 0, |ok|);
            && Offset(avail, start, 0) <= |avail|
            && Rotated(avail, Offset(avail, start, 0)) == CyclicScan(ok, start, 0)
  {
    var low, high := Ascending(ok, 0, start), Ascending(ok, start, |ok|);
    AscendingSplit(ok, 0, start, |ok|);
    OffsetSkipsLow(low, high, start, 0);
    ScanUpper(ok, start, 0);
    ScanLower(ok, start, |ok| - start);
    assert Rotated(low + high, |low|) == high + low;
  }

  // ----- the least loaded candidate -----

  /** Of the candidates from position `from` on, the one with the lowest rate,
      and `best` if none is lower. */
  function Lowest(cands: seq<nat>, rates: seq<nat>, best: nat, from: nat): (w: nat)
    requires from <= |cands| && best < |rates|
    requires forall k :: 0 <= k < |cands| ==> cands[k] < |rates|
    ensures w < |rates|
    decreases |cands| - from
  {
    if from == |cands| then best
    else Lowest(cands, rates, if rates[cands[from]] < rates[best] then cands[from] else best, from + 1)
  }

  /** The winner is a candidate, no candidate has a lower rate, and among the
      candidates with its rate it is the first. */
  lemma {:induction false} LowestIsFirstLeast(cands: seq<nat>, rates: seq<nat>, b: nat, from: nat) returns (w: nat)
    requires b < from <= |cands|
    requires forall k :: 0 <= k < |cands| ==> cands[k] < |rates|
    requires forall k :: 0 <= k < from ==> rates[cands[b]] <= rates[cands[k]]
    requires forall k :: 0 <= k < b ==> rates[cands[b]] < rates[cands[k]]
    ensures w < |cands| && cands[w] == Lowest(cands, rates, cands[b], from)
    ensures forall k :: 0 <= k < |cands| ==> rates[cands[w]] <= rates[cands[k]]
    ensures forall k :: 0 <= k < w ==> rates[cands[w]] < rates[cands[k]]
    decreases |cands| - from
  {
    if from == |cands| {
      w := b;
    } else {
      w := LowestIsFirstLeast(cands, rates, if rates[cands[from]] < rates[cands[b]] then from else b, from + 1);
    }
  }

  /** The winner, at its place w in the list, beats every later candidate or ties
      with it, and beats every earlier one. */
  ghost predicate WinsAt(cands: seq<nat>, rates: seq<nat>, w: nat)
    requires w < |cands|
    requires forall k :: 0 <= k < |cands| ==> cands[k] < |rates|
  {
    forall k :: 0 <= k < |cands| ==>
      rates[cands[w]] < rates[cands[k]] || (rates[cands[w]] == rates[cands[k]] && w <= k)
  }

  lemma LowestWins(cands: seq<nat>, rates: seq<nat>) returns (w: nat)
    requires cands != []
    requires forall k :: 0 <= k < |cands| ==> cands[k] < |rates|
    ensures w < |cands| && cands[w] == Lowest(cands, rates, cands[0], 1)
    ensures WinsAt(cands, rates, w)
  {
    w := LowestIsFirstLeast(cands, rates, 0, 1);
  }

  /** Of the ok slots, the winner of a cyclic scan has the lowest rate, and of
      several with that rate lies nearest to the start. */
  lemma ScanWinner(ok: seq<bool>, rates: seq<nat>, start: nat)
    requires start < |ok| == |rates|
    ensures var cands := CyclicScan(ok, start, 0);
            if cands == [] then forall c :: 0 <= c < |ok| ==> !ok[c]
            else
              var w := Lowest(cands, rates, cands[0], 1);
              ok[w] && forall c :: 0 <= c < |ok| && ok[c] ==>
                rates[w] < rates[c] || (rates[w] == rates[c] && Dist(|ok|, start, w) <= Dist(|ok|, start, c))
  {
    var cands := CyclicScan(ok, start, 0);
    CyclicScanOrder(ok, start, 0);
    if cands != [] {
      var w := LowestWins(cands, rates);
      forall c | 0 <= c < |ok| && ok[c]
        ensures rates[cands[w]] < rates[c] ||
                (rates[cands[w]] == rates[c] && Dist(|ok|, start, cands[w]) <= Dist(|ok|, start, c))
      {
        var k :| 0 <= k < |cands| && cands[k] == c;
      }
    }
  }

  /** In a list of ascending slots the winner has the lowest rate, and of several
      with that rate the lowest index. */
  lemma LowestOfAscending(cands: seq<nat>, rates: seq<nat>, w: nat, c: nat)
    requires w < |cands| && c in cands
    requires forall k :: 0 <= k < |cands| ==> cands[k] < |rates|
    requires forall j, k :: 0 <= j < k < |cands| ==> cands[j] < cands[k]
    requires WinsAt(cands, rates, w)
    ensures rates[cands[w]] < rates[c] || (rates[cands[w]] == rates[c] && cands[w] <= c)
  {
    var k :| 0 <= k < |cands| && cands[k] == c;
  }

  /** The same for a scan in index order: the lowest index wins a tie. */
  lemma AscendingWinner(ok: seq<bool>, rates: seq<nat>)
    requires |ok| == |rates|
    ensures var cands := Ascending(ok, 0, |ok|);
            if cands == [] then forall c :: 0 <= c < |ok| ==> !ok[c]
            else
              var w := Lowest(cands, rates, cands[0], 1);
              ok[w] && forall c :: 0 <= c < |ok| && ok[c] ==>
                rates[w] < rates[c] || (rates[w] == rates[c] && w <= c)
  {
    var cands := Ascending(ok, 0, |ok|);
    AscendingOrder(ok, 0, |ok|);
    forall c: nat | c < |ok| && ok[c]
      ensures c in cands
    {
      AscendingHas(ok, 0, |ok|, c);
    }
    if cands != [] {
      var w := LowestWins(cands, rates);
      forall c | 0 <= c < |ok| && ok[c]
        ensures rates[cands[w]] < rates[c] || (rates[cands[w]] == rates[c] && cands[w] <= c)
      {
        LowestOfAscending(cands, rates, w, c);
      }
    }
  }
}
