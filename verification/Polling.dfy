/** Fairness of round-robin selection, for every sequence of availability
    patterns that the keys may show. */
module Polling {
  import opened Common
  import opened Rotation

  /** Where the next scan starts after one selection. */
  function Advance(ok: seq<bool>, ptr: nat): (next: nat)
    requires ptr < |ok|
  {
    match CyclicFirst(ok, ptr, 0)
    case None => ptr
    case Some(idx) => Wrap(|ok|, idx + 1)
  }

  /** One pattern per selection, all over the same n keys. */
  ghost predicate Patterns(avails: seq<seq<bool>>, n: nat) {
    forall t :: 0 <= t < |avails| ==> |avails[t]| == n
  }

  ghost predicate AlwaysOk(avails: seq<seq<bool>>, n: nat, k: nat)
    requires Patterns(avails, n) && k < n
  {
    forall t :: 0 <= t < |avails| ==> avails[t][k]
  }

  function Position(ptr: nat, avails: seq<seq<bool>>, n: nat): (p: nat)
    requires ptr < n && Patterns(avails, n)
    ensures p < n
  {
    if avails == [] then ptr
    else
      var last := |avails| - 1;
      Advance(avails[last], Position(ptr, avails[..last], n))
  }

  /** The key chosen by selection number t. */
  function Pick(ptr: nat, avails: seq<seq<bool>>, n: nat, t: nat): Option<nat>
    requires ptr < n && Patterns(avails, n) && t < |avails|
  {
    CyclicFirst(avails[t], Position(ptr, avails[..t], n), 0)
  }

  /** How often key k was chosen. */
  function Times(ptr: nat, avails: seq<seq<bool>>, n: nat, k: nat): nat
    requires ptr < n && Patterns(avails, n)
  {
    if avails == [] then 0
    else
      var last := |avails| - 1;
      Times(ptr, avails[..last], n, k) + if Pick(ptr, avails, n, last) == Some(k) then 1 else 0
  }

  /** A selection either picks an available key k or brings the scan strictly
      closer to it. */
  lemma StepTowards(ok: seq<bool>, ptr: nat, k: nat)
    requires ptr < |ok| && k < |ok| && ok[k]
    ensures CyclicFirst(ok, ptr, 0) == Some(k) ||
            Dist(|ok|, Advance(ok, ptr), k) < Dist(|ok|, ptr, k)
  {
    CyclicFirstNearest(ok, ptr, 0);
  }

  /** A key that stays available is chosen within n selections of any point of
      the run, whatever happens to the other keys. */
  lemma {:induction false} ServedWithinN(ptr: nat, avails: seq<seq<bool>>, n: nat, k: nat, from: nat) returns (t: nat)
    requires ptr < n && k < n && Patterns(avails, n)
    requires from + n <= |avails|
    requires forall i :: from <= i < from + n ==> avails[i][k]
    ensures from <= t < from + n && Pick(ptr, avails, n, t) == Some(k)
  {
    t := from;
    while Pick(ptr, avails, n, t) != Some(k)
      invariant from <= t < |avails|
      invariant t - from + Dist(n, Position(ptr, avails[..t], n), k) < n
      decreases from + n - t
    {
      StepTowards(avails[t], Position(ptr, avails[..t], n), k);
      assert avails[..t + 1][..t] == avails[..t];
      t := t + 1;
    }
  }

  /** 1 while key j comes before key i in scan order. */
  function Behind(n: nat, ptr: nat, i: nat, j: nat): nat
    requires ptr < n && i < n && j < n
  {
    if Dist(n, ptr, j) < Dist(n, ptr, i) then 1 else 0
  }

  lemma BehindStep(ok: seq<bool>, ptr: nat, i: nat, j: nat)
    requires ptr < |ok| && i < |ok| && j < |ok| && i != j && ok[i] && ok[j]
    ensures var pick := CyclicFirst(ok, ptr, 0);
            Behind(|ok|, Advance(ok, ptr), i, j) - Behind(|ok|, ptr, i, j) ==
            (if pick == Some(i) then 1 else 0) - (if pick == Some(j) then 1 else 0)
  {
    CyclicFirstNearest(ok, ptr, 0);
  }

  /** The lead of one always available key over another depends only on where
      the scan stands. */
  lemma {:induction false} LeadIsPosition(ptr: nat, avails: seq<seq<bool>>, n: nat, i: nat, j: nat)
    requires ptr < n && i < n && j < n && i != j && Patterns(avails, n)
    requires AlwaysOk(avails, n, i) && AlwaysOk(avails, n, j)
    ensures Times(ptr, avails, n, i) - Times(ptr, avails, n, j) ==
            Behind(n, Position(ptr, avails, n), i, j) - Behind(n, ptr, i, j)
  {
    if avails != [] {
      var last := |avails| - 1;
      LeadIsPosition(ptr, avails[..last], n, i, j);
      BehindStep(avails[last], Position(ptr, avails[..last], n), i, j);
    }
  }

  /** Two keys that stay available are chosen equally often, give or take one. */
  lemma {:induction false} FairShare(ptr: nat, avails: seq<seq<bool>>, n: nat, i: nat, j: nat)
    requires ptr < n && i < n && j < n && Patterns(avails, n)
    requires AlwaysOk(avails, n, i) && AlwaysOk(avails, n, j)
    ensures -1 <= Times(ptr, avails, n, i) - Times(ptr, avails, n, j) <= 1
  {
    if i != j {
      LeadIsPosition(ptr, avails, n, i, j);
    }
  }
}
