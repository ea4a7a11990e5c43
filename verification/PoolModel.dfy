/** The value of a key pool: one row per key, and the transitions that the
    pool's methods carry out on its parallel slices. */
module PoolModel {
  import opened Common
  import opened KeyBreaker
  import opened Rotation
  import opened Window

  /** Everything the pool records about one key. */
  datatype Row = Row(
    key: string,
    name: string,
    breaker: Breaker,
    history: seq<Time>,
    lastUsed: Time,
    inUse: bool)

  const WORD: nat := 0x1_0000_0000_0000_0000

  /** An unsigned 64-bit counter. */
  type Word = x: nat | x < WORD

  /** Counting up and down with wrap-around. */
  function Succ(w: Word): Word {
    if w == WORD - 1 then 0 else w + 1
  }

  function Pred(w: Word): Word {
    if w == 0 then WORD - 1 else w - 1
  }

  /** A slice without its element i, the rest moved up. */
  function RemoveAt<T>(s: seq<T>, i: nat): (r: seq<T>)
    requires i < |s|
    ensures |r| == |s| - 1
    ensures forall j :: 0 <= j < |r| ==> r[j] == s[if j < i then j else j + 1]
  {
    s[..i] + s[i + 1..]
  }

  const RANDOM_MODE: string := "random"

  function NewRow(key: string, name: string): Row {
    Row(key, name, New(0, 0, 0.0, 0), [], ZERO_TIME, false)
  }

  predicate Permanently(row: Row) {
    row.breaker.state == Permanent
  }

  function ActiveCount(rows: seq<Row>): nat {
    if rows == [] then 0
    else
      var last := |rows| - 1;
      ActiveCount(rows[..last]) + if Permanently(rows[last]) then 0 else 1
  }

  /** A breaker rebuilt with new parameters: only permanent disablement and its
      reason survive. */
  function Reconfigured(b: Breaker, base: Duration, cap: Duration, m: real): Breaker {
    var renewed := New(base, cap, m, 0);
    if b.state != Permanent then renewed
    else renewed.Disabled(if b.reason != "" then b.reason else "preserved")
  }

  datatype Pool = Pool(rows: seq<Row>, counter: Word, pollingIndex: nat, mode: string) {

    // ----- what the selection strategies see -----

    function Allowing(now: Time): seq<bool> {
      seq(|rows|, i requires 0 <= i < |rows| => rows[i].breaker.Allows(now))
    }

    function Free(now: Time): seq<bool> {
      seq(|rows|, i requires 0 <= i < |rows| => rows[i].breaker.Allows(now) && !rows[i].inUse)
    }

    function Rates(now: Time): seq<nat> {
      seq(|rows|, i requires 0 <= i < |rows| => LastMinute(rows[i].history, now))
    }

    function LeastLoaded(cands: seq<nat>, now: Time): (pick: Option<nat>)
      requires forall k :: 0 <= k < |cands| ==> cands[k] < |rows|
      ensures pick.Some? ==> pick.value < |rows|
    {
      if cands == [] then None else Some(Lowest(cands, Rates(now), cands[0], 1))
    }

    function PolledKey(now: Time): (pick: Option<nat>)
      ensures pick.Some? ==> pick.value < |rows|
    {
      if rows == [] then None else CyclicFirst(Allowing(now), pollingIndex % |rows|, 0)
    }

    function RandomKey(now: Time): (pick: Option<nat>)
      ensures pick.Some? ==> pick.value < |rows|
    {
      LeastLoaded(Ascending(Allowing(now), 0, |rows|), now)
    }

    function SelectedKey(now: Time): (pick: Option<nat>)
      ensures pick.Some? ==> pick.value < |rows|
    {
      if mode == RANDOM_MODE then RandomKey(now) else PolledKey(now)
    }

    /** The least loaded key that is allowed and unreserved, scanning from `start`. */
    function NextKeyFrom(start: nat, now: Time): (pick: Option<nat>)
      requires start < |rows|
      ensures pick.Some? ==> pick.value < |rows|
    {
      LeastLoaded(CyclicScan(Free(now), start, 0), now)
    }

    function NextKey(now: Time): (pick: Option<nat>)
      ensures pick.Some? ==> pick.value < |rows|
    {
      if rows == [] then None else NextKeyFrom(counter % |rows|, now)
    }

    /** The keys that may be used now, in rotation order. */
    function Rotation(now: Time): seq<nat> {
      if rows == [] then []
      else CyclicScan(Allowing(now), Pred(counter) % |rows|, 0)
    }

    // ----- transitions -----

    function Counted(): Pool {
      this.(counter := Succ(counter))
    }

    function Polled(now: Time): Pool {
      match PolledKey(now)
      case None => this
      case Some(i) => this.(pollingIndex := (i + 1) % |rows|)
    }

    function Selected(now: Time): Pool {
      if mode == RANDOM_MODE then this else Polled(now)
    }

    function WithRow(i: nat, row: Row): Pool
      requires i < |rows|
    {
      this.(rows := rows[i := row])
    }

    predicate Has(i: int) {
      0 <= i < |rows|
    }

    function Taken(start: nat, now: Time): Pool
      requires start < |rows|
    {
      match NextKeyFrom(start, now)
      case None => this
      case Some(i) => WithRow(i, rows[i].(inUse := true))
    }

    function Reserved(now: Time): Pool {
      if rows == [] then this else Counted().Taken(counter % |rows|, now)
    }

    function WithBreaker(i: int, b: Breaker): Pool {
      if Has(i) then WithRow(i, rows[i].(breaker := b)) else this
    }

    function Released(i: int): Pool {
      if Has(i) then WithRow(i, rows[i].(inUse := false)) else this
    }

    function Cleaned(i: int, now: Time): Pool {
      if Has(i) then WithRow(i, rows[i].(history := Recent(rows[i].history, now - MINUTE))) else this
    }

    function Incremented(i: int, now: Time): Pool {
      if Has(i) then
        WithRow(i, rows[i].(history := Recent(rows[i].history, now - MINUTE) + [now], lastUsed := now))
      else this
    }

    function Failed(i: int, now: Time, draw: nat): Pool {
      if Has(i) then
        WithBreaker(i, rows[i].breaker.Failed(now, DefaultJitter(rows[i].breaker.RawBackoff(), draw)))
      else this
    }

    function AuthFailed(i: int, now: Time): Pool {
      if Has(i) then WithBreaker(i, rows[i].breaker.AuthFailed(now)) else this
    }

    function Succeeded(i: int): Pool {
      if Has(i) then WithBreaker(i, rows[i].breaker.Succeeded()) else this
    }

    function Cooled(i: int, now: Time, d: Duration): Pool {
      if Has(i) then WithBreaker(i, rows[i].breaker.Cooled(now, d)) else this
    }

    function Disabled(i: int): Pool {
      if Has(i) then WithBreaker(i, rows[i].breaker.Disabled("manual")) else this
    }

    function Enabled(i: int): Pool {
      if Has(i) then WithBreaker(i, rows[i].breaker.Cleared()) else this
    }

    function Configured(base: Duration, cap: Duration, m: real): Pool {
      this.(rows := seq(|rows|, i requires 0 <= i < |rows| =>
        rows[i].(breaker := Reconfigured(rows[i].breaker, base, cap, m))))
    }

    function Added(key: string, name: string): Pool {
      this.(rows := rows + [NewRow(key, name)])
    }

    function Removed(i: int): Pool {
      if Has(i) then this.(rows := RemoveAt(rows, i)) else this
    }
  }

  /** A new pool; the counter starts at a random value. */
  function NewPool(keys: seq<string>, names: seq<string>, draw: Word): Pool {
    Pool(seq(|keys|, i requires 0 <= i < |keys| => NewRow(keys[i], if i < |names| then names[i] else "")),
         draw, 0, "polling")
  }
}
