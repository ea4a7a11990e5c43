/** The sliding one-minute window of request times. */
module Window {
  import opened Common

  const MINUTE: Duration := 60 * SECOND

  /** The times strictly after the cutoff, in order. */
  function Recent(h: seq<Time>, cutoff: Time): seq<Time> {
    if h == [] then []
    else
      var last := |h| - 1;
      var before := Recent(h[..last], cutoff);
      if h[last] > cutoff then before + [h[last]] else before
  }

  function LastMinute(h: seq<Time>, now: Time): nat {
    |Recent(h, now - MINUTE)|
  }

  lemma RecentSnoc(h: seq<Time>, t: Time, cutoff: Time)
    ensures Recent(h + [t], cutoff) == if t > cutoff then Recent(h, cutoff) + [t] else Recent(h, cutoff)
  {
    assert (h + [t])[..|h|] == h;
  }

  lemma RecentPrefix(h: seq<Time>, i: nat, cutoff: Time)
    requires i < |h|
    ensures Recent(h[..i + 1], cutoff) ==
            if h[i] > cutoff then Recent(h[..i], cutoff) + [h[i]] else Recent(h[..i], cutoff)
  {
    assert h[..i + 1][..i] == h[..i];
  }

  /** Dropping what an earlier cutoff already excludes changes nothing. */
  lemma {:induction false} PruneTwice(h: seq<Time>, early: Time, late: Time)
    requires early <= late
    ensures Recent(Recent(h, early), late) == Recent(h, late)
  {
    if h != [] {
      var last := |h| - 1;
      PruneTwice(h[..last], early, late);
      if h[last] > early {
        RecentSnoc(Recent(h[..last], early), h[last], late);
      }
    }
  }

  lemma SnocMoves(a: seq<Time>, b: seq<Time>, t: Time)
    ensures a + (b + [t]) == (a + b) + [t]
  {
  }

  /** Pruning is a filter: it keeps the order and looks at each time alone. */
  lemma {:induction false} RecentAppend(a: seq<Time>, b: seq<Time>, cutoff: Time)
    ensures Recent(a + b, cutoff) == Recent(a, cutoff) + Recent(b, cutoff)
  {
    if b == [] {
      assert a + b == a;
    } else {
      var front, t := b[..|b| - 1], b[|b| - 1];
      assert b == front + [t];
      RecentAppend(a, front, cutoff);
      SnocMoves(a, front, t);
      RecentSnoc(a + front, t, cutoff);
      RecentSnoc(front, t, cutoff);
      SnocMoves(Recent(a, cutoff), Recent(front, cutoff), t);
    }
  }

  lemma RecentOne(t: Time, cutoff: Time)
    ensures Recent([t], cutoff) == if t > cutoff then [t] else []
  {
    assert [t][..0] == [];
  }

  /** The positions of the requests made less than sixty seconds ago. */
  ghost function InLastMinute(h: seq<Time>, now: Time): set<nat> {
    set i: nat | i < |h| && now - h[i] < 60_000_000_000
  }

  /** The last-minute count is the number of those requests; one made exactly
      sixty seconds ago no longer counts. */
  lemma {:induction false} LastMinuteCounts(h: seq<Time>, now: Time)
    ensures LastMinute(h, now) == |InLastMinute(h, now)|
  {
    if h == [] {
      assert InLastMinute(h, now) == {};
    } else {
      var last := |h| - 1;
      LastMinuteCounts(h[..last], now);
      assert InLastMinute(h, now) ==
             InLastMinute(h[..last], now) + if now - h[last] < 60_000_000_000 then {last} else {};
    }
  }
}
