/** What the operations of a key pool mean for its keys, one operation at a time:
    who is picked, what changes about the key concerned, and what stays. */
module PoolEffects {
  import opened Common
  import opened KeyBreaker
  import opened PoolModel
  import opened Rotation
  import opened Window
  import KeyBreakerRuns
  import PoolRuns

  // ----- picking a key -----

  /** In "random" mode a selection picks the least loaded key that allows a
      request, the one with the lowest index among several; in every other mode
      the first that allows one, from the polling position on. */
  lemma SelectPicks(p: Pool, now: Time, w: nat)
    requires p.SelectedKey(now) == Some(w)
    ensures w < |p.rows| && p.rows[w].breaker.Allows(now)
    ensures forall c :: 0 <= c < |p.rows| && p.rows[c].breaker.Allows(now) ==>
              if p.mode == "random" then
                var rw, rc := LastMinute(p.rows[w].history, now), LastMinute(p.rows[c].history, now);
                rw < rc || (rw == rc && w <= c)
              else
                var start := p.pollingIndex % |p.rows|;
                Dist(|p.rows|, start, w) <= Dist(|p.rows|, start, c)
  {
    var ok := p.Allowing(now);
    assert forall c :: 0 <= c < |p.rows| ==> ok[c] == p.rows[c].breaker.Allows(now);
    if p.mode == "random" {
      PoolRuns.RandomPicksLeastLoaded(p, now);
    } else {
      CyclicFirstNearest(ok, p.pollingIndex % |p.rows|, 0);
    }
  }

  /** A selection changes nothing but the polling position, which moves behind the
      key picked; "random" mode and a failed selection move nothing. */
  lemma SelectMoves(p: Pool, now: Time)
    ensures var q := p.Selected(now);
            && q == p.(pollingIndex := q.pollingIndex)
            && (p.mode == "random" || p.SelectedKey(now).None? ==> q == p)
            && (p.mode != "random" && p.SelectedKey(now).Some? ==>
                  q.pollingIndex == Wrap(|p.rows|, p.SelectedKey(now).value + 1))
  {
    if p.mode != "random" && p.SelectedKey(now).Some? {
      WrapIsRemainder(|p.rows|, p.SelectedKey(now).value + 1);
    }
  }

  /** Next counts its call, whether it finds a key or not, unless the pool is
      empty, and reserves the key that it hands out. */
  lemma NextReserves(p: Pool, now: Time)
    ensures var q := p.Reserved(now);
            if p.rows == [] then q == p
            else
              && q == p.(rows := q.rows, counter := q.counter)
              && q.counter == (if p.counter == 0xffff_ffff_ffff_ffff then 0 else p.counter + 1)
              && |q.rows| == |p.rows|
              && forall c :: 0 <= c < |p.rows| ==>
                   q.rows[c] == if p.NextKey(now) == Some(c) then p.rows[c].(inUse := true) else p.rows[c]
  {
  }

  // ----- one key at a time -----

  /** The operation at position i leaves the pool as it is when there is no such
      key, and otherwise every other key and everything that is not about keys. */
  ghost predicate OnlyKey(p: Pool, q: Pool, i: int) {
    && q == p.(rows := q.rows) && |q.rows| == |p.rows|
    && (forall c :: 0 <= c < |p.rows| && c != i ==> q.rows[c] == p.rows[c])
    && (!(0 <= i < |p.rows|) ==> q == p)
  }

  /** Only the breaker of key i changes. */
  ghost predicate OnlyBreaker(p: Pool, q: Pool, i: int) {
    && OnlyKey(p, q, i)
    && (0 <= i < |p.rows| ==> q.rows[i] == p.rows[i].(breaker := q.rows[i].breaker))
  }

  /** The operations on a breaker reach the breaker of the key named, each its own
      operation, and nothing else. */
  lemma BreakerOperations(p: Pool, i: int, now: Time, d: Duration, draw: nat)
    ensures OnlyBreaker(p, p.Failed(i, now, draw), i)
    ensures OnlyBreaker(p, p.AuthFailed(i, now), i)
    ensures OnlyBreaker(p, p.Succeeded(i), i)
    ensures OnlyBreaker(p, p.Cooled(i, now, d), i)
    ensures OnlyBreaker(p, p.Disabled(i), i)
    ensures OnlyBreaker(p, p.Enabled(i), i)
    ensures 0 <= i < |p.rows| ==>
              var b := p.rows[i].breaker;
              && p.Failed(i, now, draw).rows[i].breaker ==
                 KeyBreakerRuns.Step(b, KeyBreakerRuns.Failure(now, DefaultJitter(b.RawBackoff(), draw)))
              && p.AuthFailed(i, now).rows[i].breaker == KeyBreakerRuns.Step(b, KeyBreakerRuns.AuthFailure(now))
              && p.Succeeded(i).rows[i].breaker == KeyBreakerRuns.Step(b, KeyBreakerRuns.Success)
              && p.Cooled(i, now, d).rows[i].breaker == KeyBreakerRuns.Step(b, KeyBreakerRuns.Force(now, d))
              && p.Disabled(i).rows[i].breaker == KeyBreakerRuns.Step(b, KeyBreakerRuns.Perma("manual"))
              && p.Enabled(i).rows[i].breaker == KeyBreakerRuns.Step(b, KeyBreakerRuns.Reset)
  {
  }

  /** A release gives back the reservation of the key named and nothing else. A key
      that allows a request can then be handed out again: with nothing else
      available, it is the one that Next picks. */
  lemma ReleasedIsAvailable(p: Pool, i: int, now: Time)
    ensures var q := p.Released(i);
            && OnlyKey(p, q, i)
            && (0 <= i < |p.rows| ==>
                  && q.rows[i] == p.rows[i].(inUse := false)
                  && (p.rows[i].breaker.Allows(now) ==> q.NextKey(now).Some?)
                  && (p.rows[i].breaker.Allows(now) && p.NextKey(now).None? ==> q.NextKey(now) == Some(i)))
  {
    PoolRuns.NextPicksLeastLoaded(p, now);
    PoolRuns.NextPicksLeastLoaded(p.Released(i), now);
  }

  lemma RecentHolds(h: seq<Time>, now: Time)
    ensures LastMinute(Recent(h, now - MINUTE), now) == LastMinute(h, now)
    ensures LastMinute(Recent(h, now - MINUTE) + [now], now) == LastMinute(h, now) + 1
  {
    PruneTwice(h, now - MINUTE, now - MINUTE);
    RecentSnoc(Recent(h, now - MINUTE), now, now - MINUTE);
  }

  /** Counting a request adds one to the rate of the key named and notes its use;
      pruning changes no rate. Neither keeps a time that is sixty seconds old. */
  lemma CountingRequests(p: Pool, i: int, now: Time)
    ensures OnlyKey(p, p.Incremented(i, now), i) && OnlyKey(p, p.Cleaned(i, now), i)
    ensures 0 <= i < |p.rows| ==>
              var row, counted, cleaned := p.rows[i], p.Incremented(i, now).rows[i], p.Cleaned(i, now).rows[i];
              && counted == row.(history := counted.history, lastUsed := now)
              && cleaned == row.(history := cleaned.history)
              && LastMinute(counted.history, now) == LastMinute(row.history, now) + 1
              && LastMinute(cleaned.history, now) == LastMinute(row.history, now)
              && counted.history == cleaned.history + [now]
              && |cleaned.history| == LastMinute(cleaned.history, now)
  {
    if 0 <= i < |p.rows| {
      RecentHolds(p.rows[i].history, now);
    }
  }

  // ----- all keys -----

  /** Reconfiguring gives every key a breaker with the new parameters. It starts
      over unless the key is permanently disabled; then it stays so, for its old
      reason or, without one, as "preserved". Nothing else about a key changes. */
  lemma ReconfiguredKeys(p: Pool, base: Duration, cap: Duration, m: real)
    ensures var q := p.Configured(base, cap, m);
            && q == p.(rows := q.rows) && |q.rows| == |p.rows|
            && forall c :: 0 <= c < |p.rows| ==>
                 var was, now := p.rows[c], q.rows[c];
                 && now == was.(breaker := now.breaker)
                 && now.breaker.base == base && now.breaker.backoffCap == cap && now.breaker.multiplier == m
                 && now.breaker.permaThreshold == 0 && now.breaker.attempt == 0 && now.breaker.authFails == 0
                 && (Permanently(now) <==> Permanently(was))
                 && (!Permanently(was) ==> now.breaker.reason == "" && KeyBreakerRuns.StartsOver(now.breaker))
                 && (Permanently(was) ==>
                       now.breaker.reason == if was.breaker.reason != "" then was.breaker.reason else "preserved")
  {
  }

  /** A breaker without parameters that starts over. */
  ghost predicate Unconfigured(b: Breaker) {
    && KeyBreakerRuns.StartsOver(b) && b.reason == ""
    && b.base == 0 && b.backoffCap == 0 && b.multiplier == 0.0 && b.permaThreshold == 0
  }

  /** A new key comes last, unused and ready; all others stay as they are. */
  lemma AddedKey(p: Pool, key: string, name: string)
    ensures var q, n := p.Added(key, name), |p.rows|;
            && q == p.(rows := q.rows) && |q.rows| == n + 1 && q.rows[..n] == p.rows
            && q.rows[n].key == key && q.rows[n].name == name
            && q.rows[n].history == [] && !q.rows[n].inUse && q.rows[n].lastUsed == 0
            && Unconfigured(q.rows[n].breaker)
  {
  }

  /** Removing a key moves every later one down by one, with all that belongs to
      it; a position without a key removes nothing. */
  lemma RemovedKey(p: Pool, i: int)
    ensures var q := p.Removed(i);
            if 0 <= i < |p.rows| then
              && q == p.(rows := q.rows) && |q.rows| == |p.rows| - 1
              && forall c :: 0 <= c < |q.rows| ==> q.rows[c] == p.rows[if c < i then c else c + 1]
            else q == p
  {
  }

  /** A new pool holds the keys in order, each ready and unused, with its name if
      it has one; it polls from the first. */
  lemma NewPoolKeys(keys: seq<string>, names: seq<string>, draw: Word)
    ensures var q := NewPool(keys, names, draw);
            && q.counter == draw && q.pollingIndex == 0 && q.mode == "polling" && |q.rows| == |keys|
            && forall c :: 0 <= c < |keys| ==>
                 && q.rows[c].key == keys[c] && q.rows[c].name == (if c < |names| then names[c] else "")
                 && q.rows[c].history == [] && !q.rows[c].inUse && q.rows[c].lastUsed == 0
                 && Unconfigured(q.rows[c].breaker)
  {
  }

  /** The active keys are those that are not permanently disabled. */
  ghost function Active(rows: seq<Row>): set<nat> {
    set c: nat | c < |rows| && rows[c].breaker.state != State.Permanent
  }

  lemma {:induction false} ActiveCountIs(rows: seq<Row>)
    ensures ActiveCount(rows) == |Active(rows)|
  {
    if rows == [] {
      assert Active(rows) == {};
    } else {
      var last := |rows| - 1;
      ActiveCountIs(rows[..last]);
      assert Active(rows) == Active(rows[..last]) + if rows[last].breaker.state != State.Permanent then {last} else {};
    }
  }
}
