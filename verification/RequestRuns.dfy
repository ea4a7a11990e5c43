/** What becomes of a key over a sequence of requests. */
module RequestRuns {
  import opened Common
  import opened Backoff
  import opened KeyBreaker
  import opened PoolModel
  import opened Executor
  import opened ExecutorRuns
  import Keys = KeyBreakerRuns

  /** One request: the mode it is served in and what each of its rounds takes from
      the outside. */
  datatype Request = Request(buffer: bool, rounds: seq<Round>)

  /** The state after the requests have been served one after another. */
  ghost function Served(w: World, reqs: seq<Request>): World {
    if reqs == [] then w
    else
      var last := reqs[|reqs| - 1];
      Rounds(last.buffer, Served(w, reqs[..|reqs| - 1]), last.rounds).world
  }

  /** All sends that counted for a key, in order. */
  ghost function AllMarks(w: World, reqs: seq<Request>): seq<Mark> {
    if reqs == [] then []
    else
      var before, last := reqs[..|reqs| - 1], reqs[|reqs| - 1];
      AllMarks(w, before) + Marks(last.buffer, Trace(last.buffer, Served(w, before), last.rounds))
  }

  lemma {:induction false} ServedReplays(w: World, reqs: seq<Request>)
    ensures Breakers(Served(w, reqs).pool) == Replay(Breakers(w.pool), AllMarks(w, reqs))
  {
    if reqs != [] {
      var before, last := reqs[..|reqs| - 1], reqs[|reqs| - 1];
      ServedReplays(w, before);
      KeysAnswerForTheirOwn(last.buffer, Served(w, before), last.rounds);
      ReplayAppend(Breakers(w.pool), AllMarks(w, before),
                   Marks(last.buffer, Trace(last.buffer, Served(w, before), last.rounds)));
    }
  }

  // ----- the marks of one key -----

  /** The 429s of key k since its last commit. */
  function LimitStreak(marks: seq<Mark>, k: nat): nat {
    if marks == [] then 0
    else
      var before := LimitStreak(marks[..|marks| - 1], k);
      match marks[|marks| - 1]
      case RateLimit(i, _) => if i == k then before + 1 else before
      case Credit(i) => if i == k then 0 else before
      case Rejection(_, _) => before
  }

  /** The longest streak of 429s that key k ever had between its commits. */
  function LongestLimits(marks: seq<Mark>, k: nat): nat {
    if marks == [] then 0
    else Max(LongestLimits(marks[..|marks| - 1], k), LimitStreak(marks, k))
  }

  ghost predicate NeverRejected(marks: seq<Mark>, k: nat) {
    forall i :: 0 <= i < |marks| && marks[i].Rejection? ==> marks[i].idx != k
  }

  function OpsOfOne(b: Breaker, m: Mark): seq<Keys.Op> {
    match m
    case RateLimit(_, r) =>
      var jitter := DefaultJitter(b.RawBackoff(), r.draw);
      var retryAfter := if r.reply.Response? then r.reply.retryAfter else "";
      [Keys.Failure(r.recordAt, jitter), Keys.Force(r.coolAt, CooldownFor(b.FailureCooldown(jitter), retryAfter))]
    case Credit(_) => [Keys.Success]
    case Rejection(_, _) => []
  }

  /** What the marks of key k are as operations of its breaker b. */
  function OpsOf(b: Breaker, marks: seq<Mark>, k: nat): seq<Keys.Op> {
    if marks == [] then []
    else
      var before, m := OpsOf(b, marks[..|marks| - 1], k), marks[|marks| - 1];
      if m.idx == k then before + OpsOfOne(Keys.Run(b, before), m) else before
  }

  lemma RunSnoc(b: Breaker, ops: seq<Keys.Op>, a: Keys.Op)
    ensures Keys.Run(b, ops + [a]) == Keys.Step(Keys.Run(b, ops), a)
    ensures Keys.Streak(ops + [a]) == match a case Failure(_, _) => Keys.Streak(ops) + 1
                                              case Success | Reset => 0
                                              case _ => Keys.Streak(ops)
    ensures !a.Reset? ==> Keys.Peak(ops + [a]) == Max(Keys.Peak(ops), Keys.Streak(ops + [a]))
  {
    assert (ops + [a])[..|ops|] == ops;
  }

  /** A mark does to a breaker what its operations do. */
  lemma MarkRuns(b: Breaker, ops: seq<Keys.Op>, m: Mark)
    requires !m.Rejection?
    ensures var after := ops + OpsOfOne(Keys.Run(b, ops), m);
            && Keys.Run(b, after) == MarkedBreaker(Keys.Run(b, ops), m)
            && Keys.Streak(after) == (if m.Credit? then 0 else Keys.Streak(ops) + 1)
            && Keys.Peak(after) == Max(Keys.Peak(ops), Keys.Streak(after))
  {
    var more := OpsOfOne(Keys.Run(b, ops), m);
    Keys.StreakAtMostPeak(ops);
    RunSnoc(b, ops, more[0]);
    if m.RateLimit? {
      RunSnoc(b, ops + [more[0]], more[1]);
      assert ops + more == ops + [more[0]] + [more[1]];
    }
  }

  lemma ReplayLast(bs: seq<Breaker>, m: Mark)
    ensures Replay(bs, [m]) == if m.idx < |bs| then bs[m.idx := MarkedBreaker(bs[m.idx], m)] else bs
  {
    assert [m][1..] == [];
  }

  /** A replay runs each breaker through the operations of its own marks. */
  lemma {:induction false} MarksRun(bs: seq<Breaker>, marks: seq<Mark>, k: nat)
    requires k < |bs| && NeverRejected(marks, k)
    ensures |Replay(bs, marks)| == |bs|
    ensures Replay(bs, marks)[k] == Keys.Run(bs[k], OpsOf(bs[k], marks, k))
  {
    if marks != [] {
      var before, m := marks[..|marks| - 1], marks[|marks| - 1];
      MarksRun(bs, before, k);
      assert marks == before + [m];
      ReplayAppend(bs, before, [m]);
      ReplayLast(Replay(bs, before), m);
      if m.idx == k {
        MarkRuns(bs[k], OpsOf(bs[k], before, k), m);
      }
    }
  }

  /** And those operations have the streaks of 429s that the marks have. */
  lemma {:induction false} MarksCount(b: Breaker, marks: seq<Mark>, k: nat)
    requires NeverRejected(marks, k)
    ensures Keys.Streak(OpsOf(b, marks, k)) == LimitStreak(marks, k) <= LongestLimits(marks, k)
    ensures Keys.Peak(OpsOf(b, marks, k)) == LongestLimits(marks, k)
  {
    if marks != [] {
      var before, m := marks[..|marks| - 1], marks[|marks| - 1];
      MarksCount(b, before, k);
      if m.idx == k {
        MarkRuns(b, OpsOf(b, before, k), m);
        assert OpsOf(b, marks, k) == OpsOf(b, before, k) + OpsOfOne(Keys.Run(b, OpsOf(b, before, k)), m);
      } else {
        assert OpsOf(b, marks, k) == OpsOf(b, before, k);
      }
    }
  }

  lemma {:induction false} NoneDisables(b: Breaker, marks: seq<Mark>, k: nat)
    ensures Keys.Without(OpsOf(b, marks, k), (op: Keys.Op) => op.Perma?)
  {
    if marks != [] {
      NoneDisables(b, marks[..|marks| - 1], k);
    }
  }

  /** End to end: over any sequence of requests, with any replies, clocks and
      jitter, a fresh key that is never rejected is given up exactly when the
      upstream has limited it with 429 more than n times between two of its
      commits, n being the first attempt whose backoff reaches the cap. Nothing
      that happens to other keys or to the upstream matters. */
  lemma LimitsGiveUpExactly(w: World, reqs: seq<Request>, k: nat, n: nat)
    requires k < |w.pool.rows| && Keys.Fresh(w.pool.rows[k].breaker)
    requires var b := w.pool.rows[k].breaker; FirstTrip(b.base, b.backoffCap, b.multiplier, n)
    requires NeverRejected(AllMarks(w, reqs), k)
    ensures var rows := Served(w, reqs).pool.rows;
            && k < |rows|
            && (Permanently(rows[k]) <==> LongestLimits(AllMarks(w, reqs), k) > n)
            && (Permanently(rows[k]) ==> rows[k].breaker.reason == "quota_exhausted")
  {
    var marks, end := AllMarks(w, reqs), Served(w, reqs).pool;
    ServedReplays(w, reqs);
    MarksRun(Breakers(w.pool), marks, k);
    MarksCount(w.pool.rows[k].breaker, marks, k);
    NoneDisables(w.pool.rows[k].breaker, marks, k);
    Keys.TripsExactly(w.pool.rows[k].breaker, OpsOf(w.pool.rows[k].breaker, marks, k), n);
    assert Breakers(end)[k] == end.rows[k].breaker;
  }
}
