/** What a key pool does over arbitrary runs of its operations. */
module PoolRuns {
  import opened Common
  import opened KeyBreaker
  import opened Rotation
  import opened Window
  import opened PoolModel
  import Polling

  datatype Op =
    | Select(now: Time)
    | Next(now: Time)
    | Release(idx: int)
    | Increment(idx: int, now: Time)
    | Cleanup(idx: int, now: Time)
    | Failure(idx: int, now: Time, draw: nat)
    | AuthFailure(idx: int, now: Time)
    | Success(idx: int)
    | Cooldown(idx: int, now: Time, d: Duration)
    | Disable(idx: int)
    | Enable(idx: int)
    | Probe(idx: int, status: Option<int>)
    | Configure(base: Duration, cap: Duration, m: real)
    | SetMode(mode: string)
    | Advance
    | Add(key: string, name: string)
    | Remove(idx: int)

  predicate Probeable(b: Breaker) {
    b.state == Permanent && (b.reason == "quota_exhausted" || b.reason == "preserved")
  }

  /** One key's turn in the periodic probe. Only keys disabled for exhausted
      quota, or for a reason lost in a reconfiguration, are asked about, and
      only an answer of 200 re-enables them. */
  function Probed(p: Pool, i: int, status: Option<int>): Pool {
    if p.Has(i) && Probeable(p.rows[i].breaker) && status == Some(200) then p.Enabled(i) else p
  }

  function Step(p: Pool, op: Op): Pool {
    match op
    case Select(now) => p.Selected(now)
    case Next(now) => p.Reserved(now)
    case Release(i) => p.Released(i)
    case Increment(i, now) => p.Incremented(i, now)
    case Cleanup(i, now) => p.Cleaned(i, now)
    case Failure(i, now, draw) => p.Failed(i, now, draw)
    case AuthFailure(i, now) => p.AuthFailed(i, now)
    case Success(i) => p.Succeeded(i)
    case Cooldown(i, now, d) => p.Cooled(i, now, d)
    case Disable(i) => p.Disabled(i)
    case Enable(i) => p.Enabled(i)
    case Probe(i, status) => Probed(p, i, status)
    case Configure(base, cap, m) => p.Configured(base, cap, m)
    case SetMode(mode) => p.(mode := mode)
    case Advance => p.Counted()
    case Add(key, name) => p.Added(key, name)
    case Remove(i) => p.Removed(i)
  }

  function Run(p: Pool, ops: seq<Op>): Pool {
    if ops == [] then p else Step(Run(p, ops[..|ops| - 1]), ops[|ops| - 1])
  }

  // ----- what a selection picks -----

  /** Next fails exactly when every key that allows a request is reserved, and
      otherwise picks, among the keys that allow one and are not reserved, one with
      the fewest requests in the last minute; of several, the first in rotation
      order. */
  lemma NextPicksLeastLoaded(p: Pool, now: Time)
    ensures match p.NextKey(now)
            case None => forall c :: 0 <= c < |p.rows| && p.rows[c].breaker.Allows(now) ==> p.rows[c].inUse
            case Some(w) =>
              && p.rows[w].breaker.Allows(now) && !p.rows[w].inUse
              && forall c :: 0 <= c < |p.rows| && p.rows[c].breaker.Allows(now) && !p.rows[c].inUse ==>
                   var rw, rc := LastMinute(p.rows[w].history, now), LastMinute(p.rows[c].history, now);
                   var start := p.counter % |p.rows|;
                   rw < rc || (rw == rc && Dist(|p.rows|, start, w) <= Dist(|p.rows|, start, c))
  {
    if p.rows != [] {
      var free, rates := p.Free(now), p.Rates(now);
      ScanWinner(free, rates, p.counter % |p.rows|);
      assert forall c :: 0 <= c < |p.rows| ==>
               free[c] == (p.rows[c].breaker.Allows(now) && !p.rows[c].inUse) &&
               rates[c] == LastMinute(p.rows[c].history, now);
    }
  }

  /** The "random" mode is not random: it fails exactly when no key allows a
      request, and otherwise picks the key that allows one and has the fewest
      requests in the last minute, the one with the lowest index among several. */
  lemma RandomPicksLeastLoaded(p: Pool, now: Time)
    ensures match p.RandomKey(now)
            case None => forall c :: 0 <= c < |p.rows| ==> !p.rows[c].breaker.Allows(now)
            case Some(w) =>
              && p.rows[w].breaker.Allows(now)
              && forall c :: 0 <= c < |p.rows| && p.rows[c].breaker.Allows(now) ==>
                   var rw, rc := LastMinute(p.rows[w].history, now), LastMinute(p.rows[c].history, now);
                   rw < rc || (rw == rc && w <= c)
  {
    var ok, rates := p.Allowing(now), p.Rates(now);
    AscendingWinner(ok, rates);
    assert forall c :: 0 <= c < |p.rows| ==>
             ok[c] == p.rows[c].breaker.Allows(now) && rates[c] == LastMinute(p.rows[c].history, now);
  }

  /** In either mode a selection yields a key that allows a request, and fails
      exactly when there is none. */
  lemma SelectFindsAllowed(p: Pool, now: Time)
    ensures match p.SelectedKey(now)
            case None => forall c :: 0 <= c < |p.rows| ==> !p.rows[c].breaker.Allows(now)
            case Some(w) => p.rows[w].breaker.Allows(now)
  {
    var ok := p.Allowing(now);
    assert forall c :: 0 <= c < |p.rows| ==> ok[c] == p.rows[c].breaker.Allows(now);
    if p.mode == RANDOM_MODE {
      RandomPicksLeastLoaded(p, now);
    } else if p.rows != [] {
      CyclicFirstNearest(ok, p.pollingIndex % |p.rows|, 0);
    }
  }

  /** A scan that starts behind slot w ends with it, after every other slot. */
  lemma LastInRing(ok: seq<bool>, w: nat)
    requires w < |ok|
    ensures CyclicFirst(ok, Wrap(|ok|, w + 1), 0) == Some(w) <==> forall c :: 0 <= c < |ok| ==> (ok[c] <==> c == w)
  {
    var n, start := |ok|, Wrap(|ok|, w + 1);
    CyclicFirstNearest(ok, start, 0);
    assert Dist(n, start, w) == n - 1;
    assert forall c: nat :: c < n && c != w ==> Dist(n, start, c) < n - 1;
    match CyclicFirst(ok, start, 0)
    case None =>
      assert !ok[w];
    case Some(idx) =>
      assert ok[idx];
      if idx == w {
        forall c: nat | c < n && ok[c]
          ensures c == w
        {
          assert Dist(n, start, idx) <= Dist(n, start, c);
        }
      }
  }

  /** A selection reserves nothing. With nothing in between, a second one picks
      the same key again always in "random" mode at the same instant, and in
      polling mode exactly when no other key allows a request. */
  lemma SelectionsCoincide(p: Pool, now: Time, later: Time)
    requires p.SelectedKey(now).Some?
    ensures var w, q := p.SelectedKey(now).value, p.Selected(now);
            if p.mode == RANDOM_MODE then q.SelectedKey(now) == Some(w)
            else
              q.SelectedKey(later) == Some(w) <==>
              forall c :: 0 <= c < |p.rows| ==> (p.rows[c].breaker.Allows(later) <==> c == w)
  {
    if p.mode != RANDOM_MODE {
      var w, q, ok := p.PolledKey(now).value, p.Selected(now), p.Allowing(later);
      WrapIsRemainder(|p.rows|, w + 1);
      assert q.pollingIndex % |p.rows| == Wrap(|p.rows|, w + 1) by {
        WrapIsRemainder(|p.rows|, Wrap(|p.rows|, w + 1));
      }
      assert q.Allowing(later) == ok;
      LastInRing(ok, w);
      assert forall c :: 0 <= c < |p.rows| ==> ok[c] == p.rows[c].breaker.Allows(later);
    }
  }

  /** AvailableKeys lists exactly the allowed keys, each once, in the order in
      which the preceding Next scanned for its candidates. */
  lemma AvailableKeysOrder(p: Pool, now: Time)
    requires p.rows != []
    ensures var n, start, r := |p.rows|, p.counter % |p.rows|, p.Counted().Rotation(now);
            && (forall k :: 0 <= k < |r| ==> r[k] < n)
            && (forall c: nat :: c < n ==> (c in r <==> p.rows[c].breaker.Allows(now)))
            && (forall j, k :: 0 <= j < k < |r| ==> Dist(n, start, r[j]) < Dist(n, start, r[k]))
  {
    var ok := p.Allowing(now);
    var start := p.counter % |p.rows|;
    assert Pred(Succ(p.counter)) == p.counter;
    assert p.Counted().Allowing(now) == ok;
    CyclicScanOrder(ok, start, 0);
    assert forall c: nat :: c < |p.rows| ==> ok[c] == p.rows[c].breaker.Allows(now);
    assert p.Counted().Rotation(now) == CyclicScan(ok, start, 0);
  }

  lemma MultipleAtLeast(k: nat, n: nat)
    requires k > 0
    ensures k * n >= n
  {
    assert (k - 1) * n >= 0;
  }

  lemma RemainderIs(x: nat, n: nat, q: nat, r: nat)
    requires n > 0 && x == q * n + r && r < n
    ensures x % n == r
  {
    var q0, r0 := x / n, x % n;
    assert (q - q0) * n == r0 - r;
    if q > q0 {
      MultipleAtLeast(q - q0, n);
    } else if q < q0 {
      MultipleAtLeast(q0 - q, n);
    }
  }

  lemma RemainderOfNext(x: nat, n: nat)
    requires n > 0
    ensures (x + 1) % n == Wrap(n, x % n + 1)
  {
    var q, r := x / n, x % n;
    if r + 1 < n {
      RemainderIs(x + 1, n, q, r + 1);
    } else {
      assert (q + 1) * n == q * n + n;
      RemainderIs(x + 1, n, q + 1, 0);
    }
  }

  lemma SuccRotates(c: Word, n: nat)
    requires n > 0
    ensures Succ(c) % n == Wrap(n, c % n + 1) <==> c < WORD - 1 || WORD % n == 0
  {
    RemainderOfNext(c, n);
    if c == WORD - 1 {
      WrapIsRemainder(n, 0);
    }
  }

  /** Each Next starts its scan one slot further on, exactly as long as the
      counter does not wrap around or the number of keys divides its range. */
  lemma NextRotates(p: Pool, now: Time)
    requires p.rows != []
    ensures var n := |p.rows|;
            p.Reserved(now).counter % n == Wrap(n, p.counter % n + 1) <==> p.counter < WORD - 1 || WORD % n == 0
  {
    assert p.Reserved(now).counter == Succ(p.counter);
    SuccRotates(p.counter, |p.rows|);
  }

  // ----- reservations -----

  predicate KeepsPlaces(op: Op) {
    !op.Add? && !op.Remove?
  }

  lemma {:induction false} SizeKept(p: Pool, ops: seq<Op>)
    requires forall i :: 0 <= i < |ops| ==> KeepsPlaces(ops[i])
    ensures |Run(p, ops).rows| == |p.rows|
  {
    if ops != [] {
      SizeKept(p, ops[..|ops| - 1]);
    }
  }

  lemma StepKeepsReservation(p: Pool, op: Op, k: nat)
    requires k < |p.rows| && p.rows[k].inUse
    requires KeepsPlaces(op) && !op.Release?
    ensures |Step(p, op).rows| == |p.rows| && Step(p, op).rows[k].inUse
  {
  }

  lemma {:induction false} ReservationKept(p: Pool, ops: seq<Op>, k: nat)
    requires k < |p.rows| && p.rows[k].inUse
    requires forall i :: 0 <= i < |ops| ==> KeepsPlaces(ops[i]) && !ops[i].Release?
    ensures |Run(p, ops).rows| == |p.rows| && Run(p, ops).rows[k].inUse
  {
    if ops != [] {
      ReservationKept(p, ops[..|ops| - 1], k);
      StepKeepsReservation(Run(p, ops[..|ops| - 1]), ops[|ops| - 1], k);
    }
  }

  /** Two calls of Next with no release and no resizing in between never hand
      out the same key, whatever else happens to the pool meanwhile. */
  lemma NextIsExclusive(p: Pool, now: Time, ops: seq<Op>, later: Time)
    requires p.NextKey(now).Some?
    requires forall i :: 0 <= i < |ops| ==> KeepsPlaces(ops[i]) && !ops[i].Release?
    ensures Run(p.Reserved(now), ops).NextKey(later) != p.NextKey(now)
  {
    var k := p.NextKey(now).value;
    ReservationKept(p.Reserved(now), ops, k);
    NextPicksLeastLoaded(Run(p.Reserved(now), ops), later);
  }

  // ----- round-robin fairness -----

  predicate KeepsPolling(op: Op) {
    KeepsPlaces(op) && !op.SetMode?
  }

  /** Key k allows a request at every selection of the run. */
  ghost predicate AllowedThroughout(p: Pool, ops: seq<Op>, k: nat) {
    forall t: nat :: t < |ops| && ops[t].Select? ==>
      var q := Run(p, ops[..t]); k < |q.rows| && q.rows[k].breaker.Allows(ops[t].now)
  }

  function Selections(ops: seq<Op>): nat {
    if ops == [] then 0
    else Selections(ops[..|ops| - 1]) + if ops[|ops| - 1].Select? then 1 else 0
  }

  /** How many selections of the run chose key k. */
  function Chosen(p: Pool, ops: seq<Op>, k: nat): nat {
    if ops == [] then 0
    else
      var before, op := ops[..|ops| - 1], ops[|ops| - 1];
      Chosen(p, before, k) +
      if op.Select? && Run(p, before).SelectedKey(op.now) == Some(k) then 1 else 0
  }

  /** The availability patterns that the selections of the run saw. */
  ghost function Seen(p: Pool, ops: seq<Op>): seq<seq<bool>> {
    if ops == [] then []
    else
      var before, op := ops[..|ops| - 1], ops[|ops| - 1];
      if op.Select? then Seen(p, before) + [Run(p, before).Allowing(op.now)] else Seen(p, before)
  }

  lemma SelectionAdvances(p: Pool, now: Time)
    requires p.rows != [] && p.mode != RANDOM_MODE
    ensures var n, ptr, r := |p.rows|, p.pollingIndex % |p.rows|, p.Selected(now);
            && r.rows == p.rows && r.mode == p.mode
            && p.SelectedKey(now) == CyclicFirst(p.Allowing(now), ptr, 0)
            && r.pollingIndex % n == Polling.Advance(p.Allowing(now), ptr)
  {
    if p.PolledKey(now).Some? {
      var n, idx := |p.rows|, p.PolledKey(now).value;
      WrapIsRemainder(n, idx + 1);
      WrapIsRemainder(n, Wrap(n, idx + 1));
    }
  }

  lemma PollingIndexKept(p: Pool, op: Op)
    requires KeepsPolling(op) && !op.Select?
    ensures Step(p, op).pollingIndex == p.pollingIndex
    ensures Step(p, op).mode == p.mode && |Step(p, op).rows| == |p.rows|
  {
  }

  /** The pool polls as the abstract ring scan does. */
  lemma {:induction false} PollingRefinesScan(p: Pool, ops: seq<Op>, k: nat)
    requires p.rows != [] && p.mode != RANDOM_MODE
    requires forall i :: 0 <= i < |ops| ==> KeepsPolling(ops[i])
    ensures var n, q, seen := |p.rows|, Run(p, ops), Seen(p, ops);
            && |q.rows| == n && q.mode == p.mode
            && Polling.Patterns(seen, n) && |seen| == Selections(ops)
            && q.pollingIndex % n == Polling.Position(p.pollingIndex % n, seen, n)
            && Chosen(p, ops, k) == Polling.Times(p.pollingIndex % n, seen, n, k)
  {
    if ops != [] {
      var before, op := ops[..|ops| - 1], ops[|ops| - 1];
      PollingRefinesScan(p, before, k);
      if op.Select? {
        var seen := Seen(p, before);
        var ok := Run(p, before).Allowing(op.now);
        assert (seen + [ok])[..|seen|] == seen;
        SelectionAdvances(Run(p, before), op.now);
      } else {
        PollingIndexKept(Run(p, before), op);
      }
    }
  }

  lemma AllowedBefore(p: Pool, ops: seq<Op>, k: nat)
    requires ops != [] && AllowedThroughout(p, ops, k)
    ensures AllowedThroughout(p, ops[..|ops| - 1], k)
    ensures var op := ops[|ops| - 1];
            op.Select? ==>
              var q := Run(p, ops[..|ops| - 1]);
              k < |q.rows| && q.rows[k].breaker.Allows(op.now)
  {
    var before := ops[..|ops| - 1];
    assert forall t: nat :: t < |before| ==> before[..t] == ops[..t];
  }

  lemma {:induction false} SeenWhenAllowed(p: Pool, ops: seq<Op>, k: nat)
    requires k < |p.rows| && p.mode != RANDOM_MODE
    requires forall i :: 0 <= i < |ops| ==> KeepsPolling(ops[i])
    requires AllowedThroughout(p, ops, k)
    ensures Polling.Patterns(Seen(p, ops), |p.rows|)
    ensures Polling.AlwaysOk(Seen(p, ops), |p.rows|, k)
  {
    PollingRefinesScan(p, ops, k);
    if ops != [] {
      var last := |ops| - 1;
      var before := ops[..last];
      AllowedBefore(p, ops, k);
      SeenWhenAllowed(p, before, k);
      SizeKept(p, before);
      if ops[last].Select? {
        assert Run(p, before).Allowing(ops[last].now)[k];
        assert Seen(p, ops) == Seen(p, before) + [Run(p, before).Allowing(ops[last].now)];
      }
    }
  }

  lemma {:induction false} PickIsCounted(ptr: nat, avails: seq<seq<bool>>, n: nat, k: nat, t: nat)
    requires ptr < n && Polling.Patterns(avails, n) && t < |avails|
    requires Polling.Pick(ptr, avails, n, t) == Some(k)
    ensures Polling.Times(ptr, avails, n, k) >= 1
  {
    var last := |avails| - 1;
    if t < last {
      assert avails[..last][..t] == avails[..t];
      PickIsCounted(ptr, avails[..last], n, k, t);
    }
  }

  /** In a run with at least n selections over n keys, a key that allows a
      request at each of them is chosen at least once. */
  lemma AlwaysAllowedIsServed(p: Pool, ops: seq<Op>, k: nat)
    requires k < |p.rows| && p.mode != RANDOM_MODE
    requires forall i :: 0 <= i < |ops| ==> KeepsPolling(ops[i])
    requires AllowedThroughout(p, ops, k)
    requires Selections(ops) >= |p.rows|
    ensures Chosen(p, ops, k) >= 1
  {
    var n, seen := |p.rows|, Seen(p, ops);
    PollingRefinesScan(p, ops, k);
    SeenWhenAllowed(p, ops, k);
    var t := Polling.ServedWithinN(p.pollingIndex % n, seen, n, k, 0);
    PickIsCounted(p.pollingIndex % n, seen, n, k, t);
  }

  /** Two keys that allow a request at every selection of a run are chosen
      equally often, give or take one, whatever happens to the others. */
  lemma PollingIsFair(p: Pool, ops: seq<Op>, i: nat, j: nat)
    requires i < |p.rows| && j < |p.rows| && p.mode != RANDOM_MODE
    requires forall t :: 0 <= t < |ops| ==> KeepsPolling(ops[t])
    requires AllowedThroughout(p, ops, i) && AllowedThroughout(p, ops, j)
    ensures -1 <= Chosen(p, ops, i) - Chosen(p, ops, j) <= 1
  {
    PollingRefinesScan(p, ops, i);
    PollingRefinesScan(p, ops, j);
    SeenWhenAllowed(p, ops, i);
    SeenWhenAllowed(p, ops, j);
    Polling.FairShare(p.pollingIndex % |p.rows|, Seen(p, ops), |p.rows|, i, j);
  }

  // ----- permanent disablement -----

  /** A key's record of disablement is coherent: a reason exactly while it is
      permanently disabled, and then one of two, never half open, and disabled by
      the very first authentication failure. */
  predicate Coherent(b: Breaker) {
    && (b.state == Permanent <==> b.reason != "")
    && b.reason in {"", "manual", "quota_exhausted"}
    && b.state != HalfOpen
    && b.permaThreshold == 0
  }

  ghost predicate AllCoherent(p: Pool) {
    forall i :: 0 <= i < |p.rows| ==> Coherent(p.rows[i].breaker)
  }

  lemma StepKeepsCoherent(p: Pool, op: Op)
    requires AllCoherent(p)
    ensures AllCoherent(Step(p, op))
  {
  }

  lemma {:induction false} RunStaysCoherent(p: Pool, ops: seq<Op>)
    requires AllCoherent(p)
    ensures AllCoherent(Run(p, ops))
  {
    if ops != [] {
      RunStaysCoherent(p, ops[..|ops| - 1]);
      StepKeepsCoherent(Run(p, ops[..|ops| - 1]), ops[|ops| - 1]);
    }
  }

  /** Every pool ever reachable is coherent. */
  lemma PoolStaysCoherent(keys: seq<string>, names: seq<string>, draw: Word, ops: seq<Op>)
    ensures AllCoherent(Run(NewPool(keys, names, draw), ops))
  {
    RunStaysCoherent(NewPool(keys, names, draw), ops);
  }

  /** Where one operation moves the key at position q; nothing if it removes it. */
  function Displaced(p: Pool, op: Op, q: nat): Option<nat> {
    match op
    case Remove(i) =>
      if !p.Has(i) || q < i then Some(q)
      else if i < q then Some(q - 1)
      else None
    case _ => Some(q)
  }

  /** Where one operation moves the key at position q, unless it enables it. */
  function Moved(p: Pool, op: Op, q: nat): Option<nat> {
    if op.Enable? && op.idx == q then None else Displaced(p, op, q)
  }

  /** Where the key at position pos is after a run; nothing once it has been
      removed or explicitly enabled. */
  function Track(p: Pool, ops: seq<Op>, pos: nat): Option<nat> {
    if ops == [] then Some(pos)
    else
      var before := ops[..|ops| - 1];
      match Track(p, before, pos)
      case None => None
      case Some(q) => Moved(Run(p, before), ops[|ops| - 1], q)
  }

  predicate ManuallyDisabled(row: Row) {
    row.breaker.state == Permanent && row.breaker.reason == "manual"
  }

  lemma StepKeepsManual(p: Pool, op: Op, q: nat)
    requires q < |p.rows| && ManuallyDisabled(p.rows[q])
    requires Moved(p, op, q).Some?
    ensures var to, r := Moved(p, op, q).value, Step(p, op);
            && to < |r.rows| && ManuallyDisabled(r.rows[to])
            && r.rows[to].key == p.rows[q].key
            && r.rows[to].name == p.rows[q].name
  {
  }

  /** A key disabled by hand or by a rejected credential stays so through every
      mix of failures, successes, cooldowns, selections, probes, changes to
      other keys and reconfigurations, until it is enabled or removed; removal
      of other keys moves it together with its key and name. */
  lemma {:induction false} ManualDisablementStays(p: Pool, ops: seq<Op>, pos: nat)
    requires pos < |p.rows| && ManuallyDisabled(p.rows[pos])
    requires Track(p, ops, pos).Some?
    ensures var q, r := Track(p, ops, pos).value, Run(p, ops);
            && q < |r.rows| && ManuallyDisabled(r.rows[q])
            && r.rows[q].key == p.rows[pos].key
            && r.rows[q].name == p.rows[pos].name
  {
    if ops != [] {
      var before := ops[..|ops| - 1];
      ManualDisablementStays(p, before, pos);
      StepKeepsManual(Run(p, before), ops[|ops| - 1], Track(p, before, pos).value);
    }
  }

  lemma StepKeepsDisabled(p: Pool, op: Op, q: nat)
    requires q < |p.rows| && Permanently(p.rows[q]) && p.rows[q].breaker.reason != ""
    requires op.Probe? ==> op.status != Some(200)
    requires Moved(p, op, q).Some?
    ensures var to, r := Moved(p, op, q).value, Step(p, op);
            && to < |r.rows| && Permanently(r.rows[to])
            && r.rows[to].breaker.reason in {p.rows[q].breaker.reason, "manual"}
            && r.rows[to].key == p.rows[q].key
  {
  }

  /** A permanently disabled key stays so through every run in which no probe
      succeeds, until it is enabled or removed: selections, failures, successes,
      cooldowns and reconfigurations keep the disablement, and its reason unless
      the key is disabled by hand. */
  lemma {:induction false} DisablementStays(p: Pool, ops: seq<Op>, pos: nat)
    requires pos < |p.rows| && Permanently(p.rows[pos]) && p.rows[pos].breaker.reason != ""
    requires forall i :: 0 <= i < |ops| && ops[i].Probe? ==> ops[i].status != Some(200)
    requires Track(p, ops, pos).Some?
    ensures var q, r := Track(p, ops, pos).value, Run(p, ops);
            && q < |r.rows| && Permanently(r.rows[q])
            && r.rows[q].breaker.reason in {p.rows[pos].breaker.reason, "manual"}
            && r.rows[q].key == p.rows[pos].key
  {
    if ops != [] {
      var before := ops[..|ops| - 1];
      DisablementStays(p, before, pos);
      StepKeepsDisabled(Run(p, before), ops[|ops| - 1], Track(p, before, pos).value);
    }
  }

  /** A key added at run time has a breaker without parameters: its very first
      rate limit gives it up, unless the pool is reconfigured before. */
  lemma AddedKeyTripsAtOnce(p: Pool, key: string, name: string, now: Time, draw: nat)
    ensures var i, q := |p.rows|, p.Added(key, name);
            && q.rows[i].key == key && q.rows[i].breaker.Allows(now)
            && Permanently(q.Failed(i, now, draw).rows[i])
            && q.Failed(i, now, draw).rows[..i] == p.rows
  {
    assert p.Added(key, name).rows[|p.rows|].breaker.Tripping();
  }

  // ----- where a key is after a run -----

  /** Where the key at position pos is after a run; nothing once it is removed. */
  function Place(p: Pool, ops: seq<Op>, pos: nat): Option<nat> {
    if ops == [] then Some(pos)
    else
      var before := ops[..|ops| - 1];
      match Place(p, before, pos)
      case None => None
      case Some(q) => Displaced(Run(p, before), ops[|ops| - 1], q)
  }

  lemma StepKeepsKey(p: Pool, op: Op, q: nat)
    requires q < |p.rows| && Displaced(p, op, q).Some?
    ensures var to, r := Displaced(p, op, q).value, Step(p, op);
            to < |r.rows| && r.rows[to].key == p.rows[q].key && r.rows[to].name == p.rows[q].name
  {
  }

  /** Key and name move together to the place that is tracked. */
  lemma {:induction false} PlaceHoldsKey(p: Pool, ops: seq<Op>, pos: nat)
    requires pos < |p.rows| && Place(p, ops, pos).Some?
    ensures var q, r := Place(p, ops, pos).value, Run(p, ops);
            q < |r.rows| && r.rows[q].key == p.rows[pos].key && r.rows[q].name == p.rows[pos].name
  {
    if ops != [] {
      var before := ops[..|ops| - 1];
      PlaceHoldsKey(p, before, pos);
      StepKeepsKey(Run(p, before), ops[|ops| - 1], Place(p, before, pos).value);
    }
  }

  predicate RemovesUpTo(op: Op, pos: nat) {
    op.Remove? && 0 <= op.idx <= pos
  }

  /** The run removes no key at or before the position. */
  ghost predicate RemovesNoneUpTo(ops: seq<Op>, pos: nat) {
    forall t :: 0 <= t < |ops| ==> !RemovesUpTo(ops[t], pos)
  }

  lemma DisplacedExactly(p: Pool, op: Op, q: nat)
    requires q < |p.rows|
    ensures Displaced(p, op, q) == Some(q) <==> !RemovesUpTo(op, q)
    ensures Displaced(p, op, q).Some? ==> Displaced(p, op, q).value <= q
  {
  }

  lemma RemovesNoneSnoc(ops: seq<Op>, pos: nat)
    requires ops != []
    ensures RemovesNoneUpTo(ops, pos) <==>
            RemovesNoneUpTo(ops[..|ops| - 1], pos) && !RemovesUpTo(ops[|ops| - 1], pos)
  {
    var last := |ops| - 1;
    assert forall t :: 0 <= t < last ==> ops[..last][t] == ops[t];
  }

  /** A key keeps its position through a run exactly when the run removes nothing
      at or before that position; otherwise it moves down or is gone. */
  lemma {:induction false} PlaceKeptExactly(p: Pool, ops: seq<Op>, pos: nat)
    requires pos < |p.rows|
    ensures Place(p, ops, pos) == Some(pos) <==> RemovesNoneUpTo(ops, pos)
    ensures Place(p, ops, pos).Some? ==> Place(p, ops, pos).value <= pos
  {
    if ops != [] {
      var before := ops[..|ops| - 1];
      PlaceKeptExactly(p, before, pos);
      RemovesNoneSnoc(ops, pos);
      if Place(p, before, pos).Some? {
        PlaceHoldsKey(p, before, pos);
        DisplacedExactly(Run(p, before), ops[|ops| - 1], Place(p, before, pos).value);
      }
    }
  }

  // ----- the request history -----

  function Logged(logs: seq<seq<Time>>, op: Op): seq<seq<Time>> {
    match op
    case Increment(i, now) => if 0 <= i < |logs| then logs[i := logs[i] + [now]] else logs
    case Add(_, _) => logs + [[]]
    case Remove(i) => if 0 <= i < |logs| then RemoveAt(logs, i) else logs
    case _ => logs
  }

  /** All increments ever made for the key at each position. */
  function Logs(p: Pool, ops: seq<Op>): seq<seq<Time>> {
    if ops == [] then seq(|p.rows|, _ => [])
    else Logged(Logs(p, ops[..|ops| - 1]), ops[|ops| - 1])
  }

  predicate TouchesHistory(op: Op) {
    op.Increment? || op.Cleanup?
  }

  /** The history operations happen at non-decreasing times, up to `clock`. */
  ghost predicate Timely(ops: seq<Op>, clock: Time) {
    && (forall i, j :: 0 <= i < j < |ops| && TouchesHistory(ops[i]) && TouchesHistory(ops[j]) ==>
          ops[i].now <= ops[j].now)
    && (forall i :: 0 <= i < |ops| && TouchesHistory(ops[i]) ==> ops[i].now <= clock)
  }

  /** The history and the full log agree on everything after the cutoff. */
  ghost predicate AgreeAfter(row: Row, log: seq<Time>, cutoff: Time) {
    Recent(row.history, cutoff) == Recent(log, cutoff)
  }

  ghost predicate AllAgree(rows: seq<Row>, logs: seq<seq<Time>>, cutoff: Time) {
    |rows| == |logs| && forall i :: 0 <= i < |rows| ==> AgreeAfter(rows[i], logs[i], cutoff)
  }

  lemma HistoryAgrees(h: seq<Time>, log: seq<Time>, t: Time, cutoff: Time)
    requires t - MINUTE <= cutoff && Recent(h, cutoff) == Recent(log, cutoff)
    ensures var pruned := Recent(h, t - MINUTE);
            && Recent(pruned, cutoff) == Recent(log, cutoff)
            && Recent(pruned + [t], cutoff) == Recent(log + [t], cutoff)
  {
    PruneTwice(h, t - MINUTE, cutoff);
    RecentSnoc(Recent(h, t - MINUTE), t, cutoff);
    RecentSnoc(log, t, cutoff);
  }

  lemma CleanedAgrees(p: Pool, logs: seq<seq<Time>>, i: int, t: Time, cutoff: Time)
    requires AllAgree(p.rows, logs, cutoff) && t - MINUTE <= cutoff
    ensures AllAgree(p.Cleaned(i, t).rows, logs, cutoff)
  {
    if p.Has(i) {
      HistoryAgrees(p.rows[i].history, logs[i], t, cutoff);
    }
  }

  lemma IncrementedAgrees(p: Pool, logs: seq<seq<Time>>, i: int, t: Time, cutoff: Time)
    requires AllAgree(p.rows, logs, cutoff) && t - MINUTE <= cutoff
    ensures AllAgree(p.Incremented(i, t).rows, if p.Has(i) then logs[i := logs[i] + [t]] else logs, cutoff)
  {
    if p.Has(i) {
      HistoryAgrees(p.rows[i].history, logs[i], t, cutoff);
    }
  }

  /** Recording or cleaning at one time keeps the agreement at any later one. */
  lemma RecordingAgrees(p: Pool, logs: seq<seq<Time>>, op: Op, now: Time)
    requires TouchesHistory(op) && op.now <= now
    requires AllAgree(p.rows, logs, now - MINUTE)
    ensures AllAgree(Step(p, op).rows, Logged(logs, op), now - MINUTE)
  {
    if op.Cleanup? {
      CleanedAgrees(p, logs, op.idx, op.now, now - MINUTE);
    } else {
      IncrementedAgrees(p, logs, op.idx, op.now, now - MINUTE);
    }
  }

  /** Any other operation keeps each history with its key. */
  lemma HistoryMoves(p: Pool, logs: seq<seq<Time>>, op: Op)
    requires !TouchesHistory(op) && |logs| == |p.rows|
    ensures var r, after := Step(p, op).rows, Logged(logs, op);
            && |r| == |after|
            && forall i :: 0 <= i < |r| ==>
                 (r[i].history == [] && after[i] == []) ||
                 exists j :: 0 <= j < |logs| && r[i].history == p.rows[j].history && after[i] == logs[j]
  {
  }

  /** Pruning loses nothing that later counts: at any time not before the last
      history operation, the pruned history of each key and the full log of its
      increments hold the same requests of the last minute. Adding and removing
      keys keeps each key's history with it. */
  lemma {:induction false} PruningKeepsLastMinute(p: Pool, ops: seq<Op>, now: Time)
    requires forall i :: 0 <= i < |p.rows| ==> p.rows[i].history == []
    requires Timely(ops, now)
    ensures AllAgree(Run(p, ops).rows, Logs(p, ops), now - MINUTE)
    ensures forall i :: 0 <= i < |Run(p, ops).rows| ==>
              Run(p, ops).Rates(now)[i] == LastMinute(Logs(p, ops)[i], now)
  {
    if ops != [] {
      var before, op := ops[..|ops| - 1], ops[|ops| - 1];
      PruningKeepsLastMinute(p, before, now);
      if TouchesHistory(op) {
        PruningKeepsLastMinute(p, before, op.now);
        RecordingAgrees(Run(p, before), Logs(p, before), op, now);
      } else {
        HistoryMoves(Run(p, before), Logs(p, before), op);
      }
    }
  }
}
