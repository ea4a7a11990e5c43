/** The key pool as an object over parallel slices. Its rows are what the
    slices hold at one index; every method says what it does to the rows. */
module KeyPool {
  import opened Common
  import opened KeyBreaker
  import opened Rotation
  import opened Window
  import opened PoolModel

  /** What a selection hands back: the picked index and its key, or a refusal. */
  ghost predicate HandsOut(p: Pool, pick: Option<nat>, idx: int, key: string, ok: bool) {
    match pick
    case None => !ok && idx == -1 && key == ""
    case Some(i) => i < |p.rows| && ok && idx == i && key == p.rows[i].key
  }

  class KeyPool {
    var counter: Word
    var keys: seq<string>
    var names: seq<string>
    var cbs: seq<KeyCircuitBreaker>
    var requestHistory: seq<seq<Time>>
    var lastUsed: seq<Time>
    var inUse: seq<bool>
    var selectionMode: string
    var pollingIndex: nat

    /** The parallel slices have one length, and no breaker is shared. */
    ghost predicate Valid()
      reads this
    {
      && |names| == |keys| && |cbs| == |keys| && |requestHistory| == |keys|
      && |lastUsed| == |keys| && |inUse| == |keys|
      && (forall i, j :: 0 <= i < j < |cbs| ==> cbs[i] != cbs[j])
      && (forall i :: 0 <= i < |cbs| ==> cbs[i].jitterFn == None)
    }

    ghost function RowAt(i: nat): Row
      requires Valid() && i < |keys|
      reads this, cbs
    {
      Row(keys[i], names[i], cbs[i].Value(), requestHistory[i], lastUsed[i], inUse[i])
    }

    ghost function Rows(): seq<Row>
      requires Valid()
      reads this, cbs
    {
      seq(|keys|, i requires 0 <= i < |keys| && Valid() reads this, cbs => RowAt(i))
    }

    ghost function Value(): Pool
      requires Valid()
      reads this, cbs
    {
      Pool(Rows(), counter, pollingIndex, selectionMode)
    }

    /** Names may be missing or fewer than the keys; such keys get an empty name. */
    constructor (keys: seq<string>, names: seq<string>, draw: Word)
      ensures Valid() && fresh(cbs)
      ensures Value() == NewPool(keys, names, draw)
    {
      this.keys := keys;
      this.names := seq(|keys|, i => if 0 <= i < |names| then names[i] else "");
      cbs := [];
      requestHistory := seq(|keys|, _ => []);
      lastUsed := seq(|keys|, _ => ZERO_TIME);
      inUse := seq(|keys|, _ => false);
      counter, selectionMode, pollingIndex := draw, "polling", 0;
      new;
      for i := 0 to |keys|
        invariant |cbs| == i && fresh(cbs)
        invariant forall j :: 0 <= j < i ==> cbs[j].Value() == New(0, 0, 0.0, 0) && cbs[j].jitterFn == None
        invariant forall j, k :: 0 <= j < k < i ==> cbs[j] != cbs[k]
        invariant this.keys == keys && |this.names| == |keys|
        invariant this.names == seq(|keys|, i => if 0 <= i < |names| then names[i] else "")
        invariant requestHistory == seq(|keys|, _ => [])
        invariant lastUsed == seq(|keys|, _ => ZERO_TIME)
        invariant inUse == seq(|keys|, _ => false)
        invariant counter == draw && selectionMode == "polling" && pollingIndex == 0
      {
        var cb := new KeyCircuitBreaker(0, 0, 0.0, 0);
        cbs := cbs + [cb];
      }
    }

    method SetSelectionMode(mode: string)
      requires Valid()
      modifies this
      ensures Valid() && cbs == old(cbs)
      ensures Value() == old(Value()).(mode := mode)
    {
      selectionMode := mode;
    }

    /** Position start + i on a ring of n. */
    static method Slot(n: nat, start: nat, i: nat) returns (idx: nat)
      requires start < n && i < n
      ensures idx == Wrap(n, start + i)
    {
      WrapIsRemainder(n, start + i);
      return (start + i) % n;
    }

    /** The first key that allows a request, scanning forward from `start`. */
    method ScanForward(start: nat, now: Time) returns (found: Option<nat>)
      requires Valid() && start < |keys|
      ensures found == CyclicFirst(Value().Allowing(now), start, 0)
    {
      var n := |keys|;
      ghost var allowing := Value().Allowing(now);
      for i := 0 to n
        invariant CyclicFirst(allowing, start, 0) == CyclicFirst(allowing, start, i)
      {
        var idx := Slot(n, start, i);
        var allowed := cbs[idx].Allow(now);
        if allowed {
          return Some(idx);
        }
      }
      return None;
    }

    method SelectKeyPolling(now: Time) returns (idx: int, key: string, ok: bool)
      requires Valid()
      modifies this
      ensures Valid() && cbs == old(cbs)
      ensures HandsOut(old(Value()), old(Value()).PolledKey(now), idx, key, ok)
      ensures Value() == old(Value()).Polled(now)
    {
      var n := |keys|;
      if n == 0 {
        return -1, "", false;
      }
      var start := pollingIndex % n;
      var found := ScanForward(start, now);
      assert found == Value().PolledKey(now);
      if found == None {
        return -1, "", false;
      }
      idx := found.value;
      pollingIndex := (idx + 1) % n;
      assert Rows() == old(Rows());
      return idx, keys[idx], true;
    }

    /** The keys that allow a request, in index order. */
    method AllowedKeys(now: Time) returns (available: seq<nat>)
      requires Valid()
      ensures available == Ascending(Value().Allowing(now), 0, |keys|)
    {
      available := [];
      ghost var allowing := Value().Allowing(now);
      for i := 0 to |cbs|
        invariant available == Ascending(allowing, 0, i)
      {
        var allowed := cbs[i].Allow(now);
        if allowed {
          available := available + [i];
        }
        AscendingSnoc(allowing, i);
      }
    }

    method RequestsInLastMinute(idx: int, now: Time) returns (count: nat)
      requires Valid() && 0 <= idx < |keys|
      ensures count == LastMinute(requestHistory[idx], now)
      ensures count == Value().Rates(now)[idx]
    {
      var cutoff := now - MINUTE;
      var h := requestHistory[idx];
      count := 0;
      for i := 0 to |h|
        invariant count == |Recent(h[..i], cutoff)|
      {
        RecentPrefix(h, i, cutoff);
        if h[i] > cutoff {
          count := count + 1;
        }
      }
      assert h[..|h|] == h;
    }

    /** The first of the candidates with the lowest request rate. */
    method PickLowest(candidates: seq<nat>, now: Time) returns (best: nat)
      requires Valid() && candidates != []
      requires forall k :: 0 <= k < |candidates| ==> candidates[k] < |keys|
      ensures Value().LeastLoaded(candidates, now) == Some(best)
      ensures best < |keys|
    {
      ghost var rates := Value().Rates(now);
      best := candidates[0];
      var bestRPM := RequestsInLastMinute(best, now);
      for k := 1 to |candidates|
        invariant best < |keys| && bestRPM == rates[best]
        invariant Lowest(candidates, rates, candidates[0], 1) == Lowest(candidates, rates, best, k)
      {
        var rpm := RequestsInLastMinute(candidates[k], now);
        if rpm < bestRPM {
          bestRPM := rpm;
          best := candidates[k];
        }
      }
    }

    method SelectKeyRandom(now: Time) returns (idx: int, key: string, ok: bool)
      requires Valid()
      ensures HandsOut(Value(), Value().RandomKey(now), idx, key, ok)
    {
      var available := AllowedKeys(now);
      if |available| == 0 {
        return -1, "", false;
      }
      var best := PickLowest(available, now);
      return best, keys[best], true;
    }

    method SelectKey(now: Time) returns (idx: int, key: string, ok: bool)
      requires Valid()
      modifies this
      ensures Valid() && cbs == old(cbs)
      ensures HandsOut(old(Value()), old(Value()).SelectedKey(now), idx, key, ok)
      ensures if ok then 0 <= idx < |old(keys)| && key == old(keys)[idx] else idx == -1 && key == ""
      ensures Value() == old(Value()).Selected(now)
    {
      if selectionMode == RANDOM_MODE {
        idx, key, ok := SelectKeyRandom(now);
      } else {
        idx, key, ok := SelectKeyPolling(now);
      }
    }

    method AdvanceCounter()
      requires Valid()
      modifies this
      ensures Valid() && cbs == old(cbs)
      ensures Value() == old(Value()).Counted()
    {
      counter := Succ(counter);
    }

    static method RotateFrom(avail: seq<nat>, start: nat) returns (result: seq<nat>)
      ensures Offset(avail, start, 0) <= |avail|
      ensures result == Rotated(avail, Offset(avail, start, 0))
    {
      var offset := 0;
      for i := 0 to |avail|
        invariant offset == 0
        invariant Offset(avail, start, 0) == Offset(avail, start, i)
      {
        if avail[i] >= start {
          offset := i;
          break;
        }
      }
      if offset > 0 {
        return avail[offset..] + avail[..offset];
      }
      return avail;
    }

    /** Filters in index order, then rotates by copying slices; the result is the
        plain cyclic scan from the counter position. */
    method AvailableKeys(now: Time) returns (result: seq<nat>)
      requires Valid()
      ensures result == Value().Rotation(now)
    {
      var n := |cbs|;
      if n == 0 {
        return [];
      }
      var avail: seq<nat> := [];
      ghost var allowing := Value().Allowing(now);
      for i := 0 to n
        invariant avail == Ascending(allowing, 0, i)
      {
        AscendingSnoc(allowing, i);
        if cbs[i].state == Permanent {
          continue;
        }
        var allowed := cbs[i].Allow(now);
        if allowed {
          avail := avail + [i];
        }
      }
      var start := Pred(counter) % n;
      result := RotateFrom(avail, start);
      RotationIsScan(allowing, start);
    }

    /** The key allows a request and is not reserved. */
    method IsFree(slot: nat, now: Time, ghost free: seq<bool>) returns (ok: bool)
      requires Valid() && slot < |keys| && free == Value().Free(now)
      ensures ok == free[slot]
    {
      var allowed := cbs[slot].Allow(now);
      return allowed && !inUse[slot];
    }

    /** The keys that allow a request and are not reserved, from `start` on. */
    method ScanFree(start: nat, now: Time) returns (candidates: seq<nat>)
      requires Valid() && start < |keys|
      ensures candidates == CyclicScan(Value().Free(now), start, 0)
    {
      var n := |keys|;
      ghost var free := Value().Free(now);
      candidates := [];
      for i := 0 to n
        invariant candidates + CyclicScan(free, start, i) == CyclicScan(free, start, 0)
      {
        var slot := Slot(n, start, i);
        var ok := IsFree(slot, now, free);
        CyclicScanStep(candidates, free, start, i);
        if ok {
          candidates := candidates + [slot];
        }
      }
    }

    /** Reserves the least loaded free key, preferring the first from `start` on. */
    method Take(start: nat, now: Time) returns (idx: int, key: string, ok: bool)
      requires Valid() && start < |keys|
      modifies this
      ensures Valid() && cbs == old(cbs)
      ensures HandsOut(old(Value()), old(Value()).NextKeyFrom(start, now), idx, key, ok)
      ensures Value() == old(Value()).Taken(start, now)
    {
      var candidates := ScanFree(start, now);
      if |candidates| == 0 {
        return -1, "", false;
      }
      var best := PickLowest(candidates, now);
      inUse := inUse[best := true];
      assert Rows() == old(Rows())[best := old(Rows())[best].(inUse := true)];
      return best, keys[best], true;
    }

    method Next(now: Time) returns (idx: int, key: string, ok: bool)
      requires Valid()
      modifies this
      ensures Valid() && cbs == old(cbs)
      ensures HandsOut(old(Value()), old(Value()).NextKey(now), idx, key, ok)
      ensures if ok then 0 <= idx < |old(keys)| && key == old(keys)[idx] else idx == -1 && key == ""
      ensures Value() == old(Value()).Reserved(now)
    {
      var n := |keys|;
      if n == 0 {
        return -1, "", false;
      }
      var start := counter % n;
      counter := Succ(counter);
      assert Rows() == old(Rows());
      idx, key, ok := Take(start, now);
    }

    method CleanupOldRequests(idx: int, now: Time)
      requires Valid() && 0 <= idx < |keys|
      modifies this
      ensures Valid() && cbs == old(cbs)
      ensures Value() == old(Value()).Cleaned(idx, now)
    {
      var cutoff := now - MINUTE;
      var h := requestHistory[idx];
      var filtered := [];
      for i := 0 to |h|
        invariant unchanged(this) && filtered == Recent(h[..i], cutoff)
      {
        RecentPrefix(h, i, cutoff);
        if h[i] > cutoff {
          filtered := filtered + [h[i]];
        }
      }
      assert h[..|h|] == h;
      requestHistory := requestHistory[idx := filtered];
      assert Rows() == old(Value()).Cleaned(idx, now).rows;
    }

    method IncrementRequestCount(idx: int, now: Time)
      requires Valid() && 0 <= idx < |keys|
      modifies this
      ensures Valid() && cbs == old(cbs)
      ensures Value() == old(Value()).Incremented(idx, now)
    {
      CleanupOldRequests(idx, now);
      ghost var cleaned := Rows();
      assert cleaned == old(Value()).Cleaned(idx, now).rows;
      assert cleaned[idx] == RowAt(idx);
      assert forall i :: 0 <= i < |keys| ==> RowAt(i) == cleaned[i];
      requestHistory := requestHistory[idx := requestHistory[idx] + [now]];
      lastUsed := lastUsed[idx := now];
      assert Rows() == cleaned[idx := cleaned[idx].(history := cleaned[idx].history + [now], lastUsed := now)];
      assert Rows() == old(Value()).Incremented(idx, now).rows;
    }

    predicate InRange(idx: int)
      reads this
    {
      0 <= idx < |keys| && idx < |names|
    }

    /** Touching one breaker changes the breaker of one row. */
    twostate lemma OnlyBreakerChanged(idx: int)
      requires old(Valid()) && Valid() && 0 <= idx < |keys|
      requires unchanged(this)
      requires forall i :: 0 <= i < |cbs| && i != idx ==> unchanged(cbs[i])
      ensures Value() == old(Value()).WithBreaker(idx, cbs[idx].Value())
    {
      assert Rows() == old(Value()).WithBreaker(idx, cbs[idx].Value()).rows;
    }

    method Cooldown(idx: int, now: Time, d: Duration) returns (ok: bool)
      requires Valid()
      modifies cbs
      ensures Valid() && ok == old(Value()).Has(idx)
      ensures Value() == old(Value()).Cooled(idx, now, d)
    {
      if !InRange(idx) {
        return false;
      }
      cbs[idx].ForceCooldown(now, d);
      OnlyBreakerChanged(idx);
      return true;
    }

    method Disable(idx: int) returns (ok: bool)
      requires Valid()
      modifies cbs
      ensures Valid() && ok == old(Value()).Has(idx)
      ensures Value() == old(Value()).Disabled(idx)
    {
      if !InRange(idx) {
        return false;
      }
      cbs[idx].RecordPerma("manual");
      OnlyBreakerChanged(idx);
      return true;
    }

    method Enable(idx: int) returns (ok: bool)
      requires Valid()
      modifies cbs
      ensures Valid() && ok == old(Value()).Has(idx)
      ensures Value() == old(Value()).Enabled(idx)
    {
      if !InRange(idx) {
        return false;
      }
      cbs[idx].Reset();
      OnlyBreakerChanged(idx);
      return true;
    }

    method RecordFailure(idx: int, now: Time, draw: nat) returns (cooldown: Duration)
      requires Valid()
      modifies cbs
      ensures Valid()
      ensures Value() == old(Value()).Failed(idx, now, draw)
      ensures cooldown == if !old(Value()).Has(idx) then 0 else
                            var b := old(Value()).rows[idx].breaker;
                            b.FailureCooldown(DefaultJitter(b.RawBackoff(), draw))
    {
      if idx < 0 || idx >= |cbs| {
        return 0;
      }
      cooldown := cbs[idx].RecordFailure(now, draw);
      OnlyBreakerChanged(idx);
    }

    method RecordAuthFailure(idx: int, now: Time) returns (disable: bool)
      requires Valid()
      modifies cbs
      ensures Valid()
      ensures Value() == old(Value()).AuthFailed(idx, now)
      ensures disable == (old(Value()).Has(idx) && old(Value()).rows[idx].breaker.AuthLimit())
    {
      if idx < 0 || idx >= |cbs| {
        return false;
      }
      disable := cbs[idx].RecordAuthFailure(now);
      OnlyBreakerChanged(idx);
    }

    method RecordSuccess(idx: int)
      requires Valid()
      modifies cbs
      ensures Valid()
      ensures Value() == old(Value()).Succeeded(idx)
    {
      if idx < 0 || idx >= |cbs| {
        return;
      }
      cbs[idx].RecordSuccess();
      OnlyBreakerChanged(idx);
    }

    method Release(idx: int)
      requires Valid()
      modifies this
      ensures Valid() && cbs == old(cbs)
      ensures Value() == old(Value()).Released(idx)
    {
      if 0 <= idx < |inUse| {
        inUse := inUse[idx := false];
      }
      assert Rows() == old(Value()).Released(idx).rows;
    }

    method IsDisabled(idx: int) returns (disabled: bool)
      requires Valid()
      ensures disabled == (Value().Has(idx) && Permanently(Value().rows[idx]))
    {
      if idx < 0 || idx >= |cbs| {
        return false;
      }
      return cbs[idx].state == Permanent;
    }

    method CountActive() returns (n: nat)
      requires Valid()
      ensures n == ActiveCount(Value().rows)
    {
      n := 0;
      ghost var rows := Value().rows;
      for i := 0 to |keys|
        invariant n == ActiveCount(rows[..i])
      {
        assert rows[..i + 1][..i] == rows[..i];
        if cbs[i].state != Permanent {
          n := n + 1;
        }
      }
      assert rows[..|keys|] == rows;
    }

    method AnyActive() returns (any: bool)
      requires Valid()
      ensures any <==> exists i :: Value().Has(i) && !Permanently(Value().rows[i])
    {
      for i := 0 to |cbs|
        invariant forall j :: 0 <= j < i ==> Permanently(Value().rows[j])
      {
        if cbs[i].state != Permanent {
          assert !Permanently(Value().rows[i]);
          return true;
        }
      }
      return false;
    }

    /** A breaker with new parameters that keeps only permanent disablement. */
    static method Renew(cb: KeyCircuitBreaker, base: Duration, backoffCap: Duration, multiplier: real)
      returns (renewed: KeyCircuitBreaker)
      ensures fresh(renewed) && renewed.jitterFn == None
      ensures renewed.Value() == Reconfigured(cb.Value(), base, backoffCap, multiplier)
    {
      renewed := new KeyCircuitBreaker(base, backoffCap, multiplier, 0);
      if cb.state == Permanent {
        if cb.trippedReason != "" {
          renewed.RecordPerma(cb.trippedReason);
        } else {
          renewed.RecordPerma("preserved");
        }
      }
    }

    method ConfigureCBs(base: Duration, backoffCap: Duration, multiplier: real)
      requires Valid()
      modifies this`cbs
      ensures Valid() && fresh(cbs)
      ensures Value() == old(Value()).Configured(base, backoffCap, multiplier)
    {
      var renewed: seq<KeyCircuitBreaker> := [];
      for i := 0 to |cbs|
        invariant |renewed| == i && fresh(renewed) && cbs == old(cbs)
        invariant forall j :: 0 <= j < i ==>
                    && renewed[j].jitterFn == None
                    && renewed[j].Value() == Reconfigured(cbs[j].Value(), base, backoffCap, multiplier)
        invariant forall j, k :: 0 <= j < k < i ==> renewed[j] != renewed[k]
      {
        var cb := Renew(cbs[i], base, backoffCap, multiplier);
        renewed := renewed + [cb];
      }
      cbs := renewed;
      assert Rows() == old(Value()).Configured(base, backoffCap, multiplier).rows;
    }

    method AddKey(key: string, name: string) returns (idx: int)
      requires Valid()
      modifies this
      ensures Valid() && idx == |old(keys)|
      ensures |cbs| == |old(cbs)| + 1 && cbs[..|old(cbs)|] == old(cbs) && fresh(cbs[|old(cbs)|])
      ensures Value() == old(Value()).Added(key, name)
    {
      var cb := new KeyCircuitBreaker(0, 0, 0.0, 0);
      keys := keys + [key];
      names := names + [name];
      cbs := cbs + [cb];
      requestHistory := requestHistory + [[]];
      lastUsed := lastUsed + [ZERO_TIME];
      inUse := inUse + [false];
      idx := |keys| - 1;
      assert Rows() == old(Value()).Added(key, name).rows;
    }

    method RemoveKey(idx: int) returns (ok: bool)
      requires Valid()
      modifies this
      ensures Valid() && ok == old(Value()).Has(idx)
      ensures cbs == if ok then RemoveAt(old(cbs), idx) else old(cbs)
      ensures Value() == old(Value()).Removed(idx)
    {
      if !InRange(idx) {
        return false;
      }
      keys := RemoveAt(keys, idx);
      names := RemoveAt(names, idx);
      cbs := RemoveAt(cbs, idx);
      requestHistory := RemoveAt(requestHistory, idx);
      lastUsed := RemoveAt(lastUsed, idx);
      inUse := RemoveAt(inUse, idx);
      assert Rows() == RemoveAt(old(Rows()), idx);
      return true;
    }
  }
}
