/** What a whole request guarantees, for every sequence of replies. */
module ExecutorRuns {
  import opened Common
  import opened Decimal
  import opened KeyBreaker
  import opened PoolModel
  import opened Sse
  import opened UpstreamBreaker
  import opened Executor
  import opened Provider
  import opened Window
  import opened Rotation
  import Polling
  import PoolRuns
  import Up = UpstreamBreakerRuns

  // ----- single rounds -----

  /** The client gave up while its request was being sent. */
  predicate Aborts(e: Event) {
    e.Sent? && e.round.reply.TransportError? && e.round.reply.canceled
  }

  ghost predicate WellAnswered(o: Outcome) {
    && (!o.done ==> o.answers == [])
    && (o.done ==> |o.answers| == if Aborts(o.event) then 0 else 1)
    && (Aborts(o.event) ==> o.done)
    && o.answers != [EXHAUSTED]
  }

  lemma ReplyShape(buffer: bool, w: World, idx: nat, r: Round)
    requires idx < |w.pool.rows|
    ensures var o := OnReply(buffer, w, idx, r);
            && o.event == Sent(idx, r)
            && |o.world.pool.rows| == |w.pool.rows|
            && WellAnswered(o)
  {
  }

  /** The upstream breaker granted the round, and the breaker of the key used
      allowed a request when the key was selected. */
  ghost predicate Licensed(w: World, r: Round, e: Event)
    requires e.Sent?
  {
    && e.round == r
    && w.up.Grants(r.allowAt)
    && e.idx < |w.pool.rows|
    && w.pool.rows[e.idx].breaker.Allows(r.selectAt)
  }

  lemma RoundShape(buffer: bool, w: World, r: Round)
    ensures var o := OnRound(buffer, w, r);
            && |o.world.pool.rows| == |w.pool.rows|
            && WellAnswered(o)
            && (o.event.Sent? ==> Licensed(w, r, o.event))
  {
    PoolRuns.SelectFindsAllowed(w.pool, r.selectAt);
    if w.up.Grants(r.allowAt) && w.pool.SelectedKey(r.selectAt).Some? && r.buildOk {
      var selected := World(w.pool.Selected(r.selectAt), w.up.Asked(r.allowAt), w.stored);
      ReplyShape(buffer, selected, w.pool.SelectedKey(r.selectAt).value, r);
    }
  }

  // ----- runs, round by round -----

  ghost function Trace(buffer: bool, w: World, rounds: seq<Round>): seq<Event> {
    Rounds(buffer, w, rounds).trace
  }

  /** Entry t of the trace is a send with key k. */
  predicate SentWith(trace: seq<Event>, t: nat, k: nat) {
    t < |trace| && trace[t].Sent? && trace[t].idx == k
  }

  /** The state at the start of round number t. */
  ghost function WorldAt(buffer: bool, w: World, rounds: seq<Round>, t: nat): World
    requires t <= |rounds|
    decreases t
  {
    if t == 0 then w else OnRound(buffer, WorldAt(buffer, w, rounds, t - 1), rounds[t - 1]).world
  }

  /** The trace of a request is that of its first round, followed by that of the
      rest unless the first round is done. */
  lemma TraceUnfolds(buffer: bool, w: World, rounds: seq<Round>)
    requires rounds != []
    ensures var o := OnRound(buffer, w, rounds[0]);
            Trace(buffer, w, rounds) ==
            if o.done then [o.event] else [o.event] + Trace(buffer, o.world, rounds[1..])
  {
  }

  /** Beyond the first round of a longer trace, all is as in the remaining run. */
  lemma RunTail(buffer: bool, w: World, rounds: seq<Round>)
    requires |Trace(buffer, w, rounds)| > 1
    ensures rounds != []
    ensures var o := OnRound(buffer, w, rounds[0]);
            && Trace(buffer, w, rounds)[1..] == Trace(buffer, o.world, rounds[1..])
            && Rounds(buffer, w, rounds).world == Rounds(buffer, o.world, rounds[1..]).world
  {
    assert rounds != [];
    TraceUnfolds(buffer, w, rounds);
  }

  /** From round t on a request runs as one that starts in the state at t. */
  lemma {:induction false} RunFrom(buffer: bool, w: World, rounds: seq<Round>, t: nat)
    requires t < |Trace(buffer, w, rounds)|
    ensures t < |rounds|
    ensures var at := WorldAt(buffer, w, rounds, t);
            && Trace(buffer, w, rounds)[t..] == Trace(buffer, at, rounds[t..])
            && Rounds(buffer, w, rounds).world == Rounds(buffer, at, rounds[t..]).world
    decreases t
  {
    if t == 0 {
      assert rounds[0..] == rounds;
    } else {
      RunFrom(buffer, w, rounds, t - 1);
      RunTail(buffer, WorldAt(buffer, w, rounds, t - 1), rounds[t - 1..]);
      assert rounds[t - 1..][1..] == rounds[t..];
      assert Trace(buffer, w, rounds)[t - 1..][1..] == Trace(buffer, w, rounds)[t..];
    }
  }

  /** Entry t of the trace is what round t does in the state that it finds. */
  lemma TraceAt(buffer: bool, w: World, rounds: seq<Round>, t: nat)
    requires t < |Trace(buffer, w, rounds)|
    ensures t < |rounds|
    ensures Trace(buffer, w, rounds)[t] == OnRound(buffer, WorldAt(buffer, w, rounds, t), rounds[t]).event
  {
    RunFrom(buffer, w, rounds, t);
    TraceUnfolds(buffer, WorldAt(buffer, w, rounds, t), rounds[t..]);
    assert Trace(buffer, w, rounds)[t] == Trace(buffer, w, rounds)[t..][0];
  }

  lemma OneRoundEnds(buffer: bool, w: World, rounds: seq<Round>)
    requires |Trace(buffer, w, rounds)| == 1
    ensures rounds != [] && Rounds(buffer, w, rounds).world == OnRound(buffer, w, rounds[0]).world
  {
    assert rounds != [];
    TraceUnfolds(buffer, w, rounds);
  }

  lemma NoRoundEnds(buffer: bool, w: World, rounds: seq<Round>)
    requires Trace(buffer, w, rounds) == []
    ensures Rounds(buffer, w, rounds).world == w
  {
  }

  lemma LastRoundEnds(buffer: bool, w: World, rounds: seq<Round>, last: nat)
    requires |Trace(buffer, w, rounds)| == last + 1
    ensures last < |rounds|
    ensures Rounds(buffer, w, rounds).world == OnRound(buffer, WorldAt(buffer, w, rounds, last), rounds[last]).world
  {
    RunFrom(buffer, w, rounds, last);
    OneRoundEnds(buffer, WorldAt(buffer, w, rounds, last), rounds[last..]);
  }

  /** A request ends in the state after as many rounds as its trace is long. */
  lemma EndsAt(buffer: bool, w: World, rounds: seq<Round>)
    ensures |Trace(buffer, w, rounds)| <= |rounds|
    ensures Rounds(buffer, w, rounds).world == WorldAt(buffer, w, rounds, |Trace(buffer, w, rounds)|)
  {
    var n := |Trace(buffer, w, rounds)|;
    if n > 0 {
      LastRoundEnds(buffer, w, rounds, n - 1);
    } else {
      NoRoundEnds(buffer, w, rounds);
    }
  }

  // ----- one answer, licensed sends -----

  /** Every request is answered exactly once, unless the client aborts, and then
      not at all. It takes at most one round per retry allowed, and answers that
      the retries are exhausted only when it has used them all. */
  lemma {:induction false} OneAnswer(buffer: bool, w: World, rounds: seq<Round>)
    ensures var res := Rounds(buffer, w, rounds);
            && |res.trace| <= |rounds|
            && |res.answers| == (if res.trace != [] && Aborts(res.trace[|res.trace| - 1]) then 0 else 1)
            && (forall t :: 0 <= t < |res.trace| - 1 ==> !Aborts(res.trace[t]))
            && (res.answers == [EXHAUSTED] ==> |res.trace| == |rounds|)
    decreases |rounds|
  {
    if rounds != [] {
      RoundShape(buffer, w, rounds[0]);
      var o := OnRound(buffer, w, rounds[0]);
      if !o.done {
        OneAnswer(buffer, o.world, rounds[1..]);
      }
    }
  }

  /** Each send of a request happens in its own round, in which the upstream
      breaker granted, with a key whose breaker allowed it. */
  lemma SendsAreLicensed(buffer: bool, w: World, rounds: seq<Round>, t: nat)
    requires t < |Trace(buffer, w, rounds)| && Trace(buffer, w, rounds)[t].Sent?
    ensures t < |rounds|
    ensures Licensed(WorldAt(buffer, w, rounds, t), rounds[t], Trace(buffer, w, rounds)[t])
  {
    TraceAt(buffer, w, rounds, t);
    RoundShape(buffer, WorldAt(buffer, w, rounds, t), rounds[t]);
  }

  // ----- who is penalised for what -----

  /** The dispatch, as ranges of status codes. */
  lemma KindsAre(status: int)
    ensures KindOf(status) == RateLimited <==> status == 429
    ensures KindOf(status) == AuthRejected <==> status in {401, 403}
    ensures KindOf(status) == PassThrough <==> (400 <= status < 500 && status !in {401, 403, 429}) || status == 501
    ensures KindOf(status) == ServerError <==> status >= 500 && status != 501
    ensures KindOf(status) == Successful <==> status < 400
  {
  }

  /** The trace entries that count for a key. */
  datatype Mark = RateLimit(idx: nat, round: Round) | Rejection(idx: nat, round: Round) | Credit(idx: nat)

  ghost function MarkOf(buffer: bool, e: Event): Option<Mark> {
    if !e.Sent? || !e.round.reply.Response? then None
    else
      var reply := e.round.reply;
      if reply.status == 429 then Some(RateLimit(e.idx, e.round))
      else if reply.status == 401 || reply.status == 403 then Some(Rejection(e.idx, e.round))
      else if reply.status < 400 && Commits(buffer, reply) then Some(Credit(e.idx))
      else None
  }

  ghost function Marks(buffer: bool, trace: seq<Event>): seq<Mark> {
    if trace == [] then []
    else
      var rest := Marks(buffer, trace[1..]);
      match MarkOf(buffer, trace[0])
      case Some(m) => [m] + rest
      case None => rest
  }

  function MarkedBreaker(b: Breaker, m: Mark): Breaker {
    match m
    case RateLimit(_, r) =>
      var jitter := DefaultJitter(b.RawBackoff(), r.draw);
      var retryAfter := if r.reply.Response? then r.reply.retryAfter else "";
      b.Failed(r.recordAt, jitter).Cooled(r.coolAt, CooldownFor(b.FailureCooldown(jitter), retryAfter))
    case Rejection(_, r) =>
      if b.AuthLimit() then b.AuthFailed(r.recordAt).Disabled("manual") else b.AuthFailed(r.recordAt)
    case Credit(_) => b.Succeeded()
  }

  function Replay(bs: seq<Breaker>, marks: seq<Mark>): seq<Breaker>
    decreases |marks|
  {
    if marks == [] then bs
    else
      var m := marks[0];
      Replay(if m.idx < |bs| then bs[m.idx := MarkedBreaker(bs[m.idx], m)] else bs, marks[1..])
  }

  function Breakers(p: Pool): seq<Breaker> {
    seq(|p.rows|, i requires 0 <= i < |p.rows| => p.rows[i].breaker)
  }

  lemma WithBreakerOnly(p: Pool, i: nat, b: Breaker)
    requires i < |p.rows|
    ensures Breakers(p.WithBreaker(i, b)) == Breakers(p)[i := b]
  {
  }

  lemma BreakersUntouched(p: Pool, i: nat, now: Time)
    ensures Breakers(p.Selected(now)) == Breakers(p)
    ensures Breakers(p.Released(i)) == Breakers(p)
    ensures Breakers(p.Incremented(i, now)) == Breakers(p)
  {
  }

  lemma RateLimitedRow(p: Pool, idx: nat, r: Round)
    requires idx < |p.rows| && r.reply.Response?
    ensures RateLimitedPool(p, idx, r) ==
            p.WithBreaker(idx, MarkedBreaker(p.rows[idx].breaker, RateLimit(idx, r)))
    ensures Breakers(RateLimitedPool(p, idx, r)) ==
            Breakers(p)[idx := MarkedBreaker(p.rows[idx].breaker, RateLimit(idx, r))]
  {
    WithBreakerOnly(p, idx, MarkedBreaker(p.rows[idx].breaker, RateLimit(idx, r)));
  }

  lemma AuthRejectedRow(p: Pool, idx: nat, r: Round)
    requires idx < |p.rows|
    ensures AuthRejectedPool(p, idx, r) ==
            p.WithBreaker(idx, MarkedBreaker(p.rows[idx].breaker, Rejection(idx, r)))
    ensures Breakers(AuthRejectedPool(p, idx, r)) ==
            Breakers(p)[idx := MarkedBreaker(p.rows[idx].breaker, Rejection(idx, r))]
  {
    WithBreakerOnly(p, idx, MarkedBreaker(p.rows[idx].breaker, Rejection(idx, r)));
  }

  lemma ReplyMarks(buffer: bool, w: World, idx: nat, r: Round)
    requires idx < |w.pool.rows|
    ensures var o := OnReply(buffer, w, idx, r);
            o.event == Sent(idx, r) &&
            Breakers(o.world.pool) ==
            match MarkOf(buffer, Sent(idx, r))
            case Some(m) => Breakers(w.pool)[idx := MarkedBreaker(w.pool.rows[idx].breaker, m)]
            case None => Breakers(w.pool)
  {
    var p, b := w.pool, w.pool.rows[idx].breaker;
    if r.reply.TransportError? {
      BreakersUntouched(p, idx, 0);
    } else if r.reply.status == 429 {
      RateLimitedRow(p, idx, r);
    } else if r.reply.status == 401 || r.reply.status == 403 {
      AuthRejectedRow(p, idx, r);
    } else if r.reply.status < 400 && Commits(buffer, r.reply) {
      WithBreakerOnly(p, idx, b.Succeeded());
      BreakersUntouched(p.Succeeded(idx), idx, r.countAt);
    }
  }

  lemma RoundMarks(buffer: bool, w: World, r: Round)
    ensures var o := OnRound(buffer, w, r);
            match MarkOf(buffer, o.event)
            case Some(m) =>
              m.idx < |w.pool.rows| && m.idx == o.event.idx &&
              Breakers(o.world.pool) == Breakers(w.pool)[m.idx := MarkedBreaker(w.pool.rows[m.idx].breaker, m)]
            case None => Breakers(o.world.pool) == Breakers(w.pool)
  {
    var o := OnRound(buffer, w, r);
    BreakersUntouched(w.pool, 0, r.selectAt);
    if w.up.Grants(r.allowAt) && w.pool.SelectedKey(r.selectAt).Some? && r.buildOk {
      var idx := w.pool.SelectedKey(r.selectAt).value;
      var selected := World(w.pool.Selected(r.selectAt), w.up.Asked(r.allowAt), w.stored);
      ReplyMarks(buffer, selected, idx, r);
      assert o == OnReply(buffer, selected, idx, r);
      assert selected.pool.rows == w.pool.rows;
    }
  }

  lemma ReplayOne(bs: seq<Breaker>, buffer: bool, e: Event)
    ensures Replay(bs, Marks(buffer, [e])) ==
            match MarkOf(buffer, e)
            case Some(m) => if m.idx < |bs| then bs[m.idx := MarkedBreaker(bs[m.idx], m)] else bs
            case None => bs
  {
    assert [e][1..] == [];
  }

  lemma {:induction false} ReplayAppend(bs: seq<Breaker>, a: seq<Mark>, b: seq<Mark>)
    ensures Replay(bs, a + b) == Replay(Replay(bs, a), b)
    decreases |a|
  {
    if a == [] {
      assert a + b == b;
    } else {
      var m := a[0];
      ReplayAppend(if m.idx < |bs| then bs[m.idx := MarkedBreaker(bs[m.idx], m)] else bs, a[1..], b);
      assert (a + b)[1..] == a[1..] + b;
    }
  }

  lemma MarksCons(buffer: bool, e: Event, trace: seq<Event>)
    ensures Marks(buffer, [e] + trace) == Marks(buffer, [e]) + Marks(buffer, trace)
  {
    assert ([e] + trace)[1..] == trace && [e][1..] == [];
  }

  /** A request changes the key breakers exactly as its 429s, its 401s and 403s
      and its committed successes would on their own: transport errors, server
      errors, other client errors, refusals and incomplete buffered streams
      leave every key breaker as it was. */
  lemma {:induction false} KeysAnswerForTheirOwn(buffer: bool, w: World, rounds: seq<Round>)
    ensures var res := Rounds(buffer, w, rounds);
            Breakers(res.world.pool) == Replay(Breakers(w.pool), Marks(buffer, res.trace))
    decreases |rounds|
  {
    if rounds != [] {
      var o := OnRound(buffer, w, rounds[0]);
      RoundMarks(buffer, w, rounds[0]);
      ReplayOne(Breakers(w.pool), buffer, o.event);
      if !o.done {
        var rest := Rounds(buffer, o.world, rounds[1..]);
        KeysAnswerForTheirOwn(buffer, o.world, rounds[1..]);
        MarksCons(buffer, o.event, rest.trace);
        ReplayAppend(Breakers(w.pool), Marks(buffer, [o.event]), Marks(buffer, rest.trace));
      }
    }
  }

  /** The operations of the upstream breaker that one round performs. */
  ghost function UpstreamOps(buffer: bool, r: Round, e: Event): seq<Up.Op> {
    if !e.Sent? then [Up.Allow(r.allowAt)]
    else match r.reply
      case TransportError(canceled) =>
        if canceled then [Up.Allow(r.allowAt)] else [Up.Allow(r.allowAt), Up.Failure(r.recordAt)]
      case Response(status, _, _, _, _) =>
        if status >= 500 && status != 501 then [Up.Allow(r.allowAt), Up.Failure(r.recordAt)]
        else if status < 400 && Commits(buffer, r.reply) then [Up.Allow(r.allowAt), Up.Success]
        else [Up.Allow(r.allowAt)]
  }

  ghost function AllUpstreamOps(buffer: bool, rounds: seq<Round>, trace: seq<Event>): seq<Up.Op>
    requires |trace| <= |rounds|
    decreases |trace|
  {
    if trace == [] then []
    else UpstreamOps(buffer, rounds[0], trace[0]) + AllUpstreamOps(buffer, rounds[1..], trace[1..])
  }

  lemma RunOne(u: Upstream, a: Up.Op)
    ensures Up.Run(u, [a]) == Up.Step(u, a)
  {
    assert [a][..0] == [];
  }

  lemma RunTwo(u: Upstream, a: Up.Op, b: Up.Op)
    ensures Up.Run(u, [a, b]) == Up.Step(Up.Step(u, a), b)
  {
    assert [a, b][..1] == [a];
    RunOne(u, a);
  }

  lemma ReplyUpstream(buffer: bool, w: World, idx: nat, r: Round)
    requires idx < |w.pool.rows|
    ensures var up := OnReply(buffer, w, idx, r).world.up;
            match r.reply
            case TransportError(canceled) => up == if canceled then w.up else w.up.Failed(r.recordAt)
            case Response(status, _, _, _, _) =>
              up == if status >= 500 && status != 501 then w.up.Failed(r.recordAt)
                    else if status < 400 && Commits(buffer, r.reply) then w.up.Succeeded()
                    else w.up
  {
  }

  lemma RoundUpstream(buffer: bool, w: World, r: Round)
    ensures var o := OnRound(buffer, w, r);
            o.world.up == Up.Run(w.up, UpstreamOps(buffer, r, o.event))
  {
    RunOne(w.up, Up.Allow(r.allowAt));
    RunTwo(w.up, Up.Allow(r.allowAt), Up.Failure(r.recordAt));
    RunTwo(w.up, Up.Allow(r.allowAt), Up.Success);
    if w.up.Grants(r.allowAt) && w.pool.SelectedKey(r.selectAt).Some? && r.buildOk {
      var idx := w.pool.SelectedKey(r.selectAt).value;
      var selected := World(w.pool.Selected(r.selectAt), w.up.Asked(r.allowAt), w.stored);
      ReplyUpstream(buffer, selected, idx, r);
      ReplyShape(buffer, selected, idx, r);
      assert OnRound(buffer, w, r) == OnReply(buffer, selected, idx, r);
    }
  }

  /** A request changes the upstream breaker exactly as its Allow calls, its
      transport errors, its server errors other than 501 and its committed
      successes would on their own: no rejected or rate-limited key, client
      error, client abort or incomplete buffered stream ever counts against or
      in favour of the upstream. */
  lemma {:induction false} UpstreamAnswersForItself(buffer: bool, w: World, rounds: seq<Round>)
    ensures var res := Rounds(buffer, w, rounds);
            && |res.trace| <= |rounds|
            && res.world.up == Up.Run(w.up, AllUpstreamOps(buffer, rounds, res.trace))
    decreases |rounds|
  {
    if rounds != [] {
      var o := OnRound(buffer, w, rounds[0]);
      RoundUpstream(buffer, w, rounds[0]);
      var first := UpstreamOps(buffer, rounds[0], o.event);
      if o.done {
        assert first + [] == first;
      } else {
        var rest := Rounds(buffer, o.world, rounds[1..]);
        UpstreamAnswersForItself(buffer, o.world, rounds[1..]);
        assert ([o.event] + rest.trace)[1..] == rest.trace;
        Up.RunAppend(w.up, first, AllUpstreamOps(buffer, rounds[1..], rest.trace));
      }
    }
  }

  // ----- what the error codes mean -----

  ghost predicate AllPermanent(p: Pool) {
    forall i :: 0 <= i < |p.rows| ==> Permanently(p.rows[i])
  }

  ghost predicate NoneAllows(p: Pool, now: Time) {
    forall i :: 0 <= i < |p.rows| ==> !p.rows[i].breaker.Allows(now)
  }

  /** The last event leaves the answer to the state of the keys: no key could be
      selected, or a key has just been rate limited or rejected. */
  predicate KeysDecide(e: Event) {
    e.NoKey? || (e.Sent? && e.round.reply.Response? && e.round.reply.status in {401, 403, 429})
  }

  ghost predicate CodesMeanWhatTheySay(end: World, last: Event, r: Round, answers: seq<Answer>) {
    && (answers == [ALL_INVALID] <==> KeysDecide(last) && AllPermanent(end.pool))
    && (answers == [ALL_COOLING] <==> last.NoKey? && !AllPermanent(end.pool))
    && (last.NoKey? ==> NoneAllows(end.pool, r.selectAt))
  }

  lemma ReplyCodes(buffer: bool, w: World, idx: nat, r: Round)
    requires idx < |w.pool.rows|
    ensures var o := OnReply(buffer, w, idx, r);
            CodesMeanWhatTheySay(o.world, o.event, r, o.answers)
  {
    var o := OnReply(buffer, w, idx, r);
    NoneActive(o.world.pool.rows);
    if r.reply.Response? && r.reply.status == 429 {
      assert AllPermanent(o.world.pool) ==> Permanently(o.world.pool.rows[idx]);
    }
  }

  lemma RoundCodes(buffer: bool, w: World, r: Round)
    ensures var o := OnRound(buffer, w, r);
            CodesMeanWhatTheySay(o.world, o.event, r, o.answers)
  {
    NoneActive(w.pool.rows);
    PoolRuns.SelectFindsAllowed(w.pool, r.selectAt);
    if w.up.Grants(r.allowAt) && w.pool.SelectedKey(r.selectAt).Some? && r.buildOk {
      var idx := w.pool.SelectedKey(r.selectAt).value;
      var selected := World(w.pool.Selected(r.selectAt), w.up.Asked(r.allowAt), w.stored);
      ReplyCodes(buffer, selected, idx, r);
      assert OnRound(buffer, w, r) == OnReply(buffer, selected, idx, r);
    }
  }

  /** ALL_KEYS_INVALID is answered exactly when the request ends with a failed
      selection, a 429 or a 401 or 403 at a point where every key is permanently
      disabled; ALL_KEYS_COOLING exactly when it ends with a failed selection
      while some key is not, and then none of them allows a request. */
  lemma {:induction false} CodesAreSound(buffer: bool, w: World, rounds: seq<Round>)
    requires Rounds(buffer, w, rounds).trace != []
    ensures var res := Rounds(buffer, w, rounds);
            && |res.trace| <= |rounds|
            && CodesMeanWhatTheySay(res.world, res.trace[|res.trace| - 1], rounds[|res.trace| - 1], res.answers)
    decreases |rounds|
  {
    var o := OnRound(buffer, w, rounds[0]);
    RoundCodes(buffer, w, rounds[0]);
    RoundShape(buffer, w, rounds[0]);
    if !o.done {
      var rest := Rounds(buffer, o.world, rounds[1..]);
      if rest.trace != [] {
        CodesAreSound(buffer, o.world, rounds[1..]);
      }
    }
  }

  // ----- a key once given up is not used again -----

  /** What a round makes of the breaker of each key. */
  lemma RoundBreaker(buffer: bool, w: World, r: Round, k: nat)
    requires k < |w.pool.rows|
    ensures var o := OnRound(buffer, w, r);
            && |o.world.pool.rows| == |w.pool.rows|
            && o.world.pool.rows[k].breaker ==
               match MarkOf(buffer, o.event)
               case Some(m) =>
                 if m.idx == k then MarkedBreaker(w.pool.rows[k].breaker, m) else w.pool.rows[k].breaker
               case None => w.pool.rows[k].breaker
  {
    RoundShape(buffer, w, r);
    RoundMarks(buffer, w, r);
    var o := OnRound(buffer, w, r);
    assert Breakers(o.world.pool)[k] == o.world.pool.rows[k].breaker;
  }

  lemma MarkKeeps(b: Breaker, m: Mark)
    ensures MarkedBreaker(b, m).permaThreshold == b.permaThreshold
    ensures b.state == Permanent ==> MarkedBreaker(b, m).state == Permanent
    ensures m.Rejection? && b.permaThreshold <= 0 ==> MarkedBreaker(b, m).state == Permanent
  {
  }

  lemma RoundKeepsPermanent(buffer: bool, w: World, r: Round, k: nat)
    requires k < |w.pool.rows| && Permanently(w.pool.rows[k])
    ensures var o := OnRound(buffer, w, r);
            && |o.world.pool.rows| == |w.pool.rows|
            && Permanently(o.world.pool.rows[k])
            && (o.event.Sent? ==> o.event.idx != k)
  {
    RoundShape(buffer, w, r);
    RoundBreaker(buffer, w, r, k);
  }

  lemma {:induction false} PermanentFrom(buffer: bool, w: World, rounds: seq<Round>, k: nat, i: nat, j: nat)
    requires i <= j <= |rounds|
    requires var p := WorldAt(buffer, w, rounds, i).pool; k < |p.rows| && Permanently(p.rows[k])
    ensures var p := WorldAt(buffer, w, rounds, j).pool; k < |p.rows| && Permanently(p.rows[k])
    decreases j
  {
    if i < j {
      PermanentFrom(buffer, w, rounds, k, i, j - 1);
      RoundKeepsPermanent(buffer, WorldAt(buffer, w, rounds, j - 1), rounds[j - 1], k);
    }
  }

  lemma PermanentNotSent(buffer: bool, w: World, rounds: seq<Round>, k: nat, i: nat, t: nat)
    requires i <= t < |Trace(buffer, w, rounds)| && i <= |rounds|
    requires var p := WorldAt(buffer, w, rounds, i).pool; k < |p.rows| && Permanently(p.rows[k])
    ensures !SentWith(Trace(buffer, w, rounds), t, k)
  {
    TraceAt(buffer, w, rounds, t);
    PermanentFrom(buffer, w, rounds, k, i, t);
    RoundKeepsPermanent(buffer, WorldAt(buffer, w, rounds, t), rounds[t], k);
  }

  /** A key that is permanently disabled is not used by any round. */
  lemma PermanentNeverUsed(buffer: bool, w: World, rounds: seq<Round>, k: nat, t: nat)
    requires k < |w.pool.rows| && Permanently(w.pool.rows[k])
    ensures !SentWith(Trace(buffer, w, rounds), t, k)
  {
    if t < |Trace(buffer, w, rounds)| {
      PermanentNotSent(buffer, w, rounds, k, 0, t);
    }
  }

  predicate IsRejection(e: Event) {
    e.Sent? && e.round.reply.Response? && e.round.reply.status in {401, 403}
  }

  /** Every key is to be disabled at its first rejection. */
  ghost predicate NoThresholds(p: Pool) {
    forall k :: 0 <= k < |p.rows| ==> p.rows[k].breaker.permaThreshold <= 0
  }

  lemma RejectionDisables(buffer: bool, w: World, r: Round)
    requires IsRejection(OnRound(buffer, w, r).event)
    requires NoThresholds(w.pool)
    ensures var o := OnRound(buffer, w, r);
            o.event.idx < |o.world.pool.rows| && Permanently(o.world.pool.rows[o.event.idx])
  {
    var e := OnRound(buffer, w, r).event;
    RoundShape(buffer, w, r);
    RoundBreaker(buffer, w, r, e.idx);
    MarkKeeps(w.pool.rows[e.idx].breaker, Rejection(e.idx, e.round));
  }

  lemma ThresholdsKept(buffer: bool, w: World, r: Round)
    ensures var rows := OnRound(buffer, w, r).world.pool.rows;
            |rows| == |w.pool.rows| &&
            forall k :: 0 <= k < |rows| ==>
              rows[k].breaker.permaThreshold == w.pool.rows[k].breaker.permaThreshold
  {
    RoundShape(buffer, w, r);
    var mark := MarkOf(buffer, OnRound(buffer, w, r).event);
    forall k | 0 <= k < |w.pool.rows|
      ensures OnRound(buffer, w, r).world.pool.rows[k].breaker.permaThreshold ==
              w.pool.rows[k].breaker.permaThreshold
    {
      RoundBreaker(buffer, w, r, k);
      if mark.Some? {
        MarkKeeps(w.pool.rows[k].breaker, mark.value);
      }
    }
  }

  lemma {:induction false} NoThresholdsAt(buffer: bool, w: World, rounds: seq<Round>, t: nat)
    requires NoThresholds(w.pool) && t <= |rounds|
    ensures NoThresholds(WorldAt(buffer, w, rounds, t).pool)
    decreases t
  {
    if t > 0 {
      NoThresholdsAt(buffer, w, rounds, t - 1);
      ThresholdsKept(buffer, WorldAt(buffer, w, rounds, t - 1), rounds[t - 1]);
    }
  }

  /** A rejection disables its key from the next round on. */
  lemma RejectedAt(buffer: bool, w: World, rounds: seq<Round>, i: nat)
    requires NoThresholds(w.pool)
    requires i < |Trace(buffer, w, rounds)| && IsRejection(Trace(buffer, w, rounds)[i])
    ensures i < |rounds|
    ensures var p := WorldAt(buffer, w, rounds, i + 1).pool; var k := Trace(buffer, w, rounds)[i].idx;
            k < |p.rows| && Permanently(p.rows[k])
  {
    TraceAt(buffer, w, rounds, i);
    NoThresholdsAt(buffer, w, rounds, i);
    RejectionDisables(buffer, WorldAt(buffer, w, rounds, i), rounds[i]);
  }

  /** Within one request no key is sent to the upstream again after the upstream
      has rejected it with a 401 or 403. */
  lemma RejectedKeyNotReused(buffer: bool, w: World, rounds: seq<Round>, i: nat, j: nat)
    requires NoThresholds(w.pool)
    requires i < j < |Trace(buffer, w, rounds)| && IsRejection(Trace(buffer, w, rounds)[i])
    ensures !SentWith(Trace(buffer, w, rounds), j, Trace(buffer, w, rounds)[i].idx)
  {
    RejectedAt(buffer, w, rounds, i);
    PermanentNotSent(buffer, w, rounds, Trace(buffer, w, rounds)[i].idx, i + 1, j);
  }

  // ----- a pool of rejected credentials -----

  lemma {:induction false} ActiveCountDrops(rows: seq<Row>, i: nat, row: Row)
    requires i < |rows| && !Permanently(rows[i]) && Permanently(row)
    ensures ActiveCount(rows[i := row]) == ActiveCount(rows) - 1
  {
    var last := |rows| - 1;
    if i == last {
      assert rows[i := row][..last] == rows[..last];
    } else {
      ActiveCountDrops(rows[..last], i, row);
      assert rows[i := row][..last] == rows[..last][i := row];
    }
  }

  /** Every key is either closed, and gone at its first rejection, or gone. */
  ghost predicate ClosedOrGone(p: Pool) {
    forall i :: 0 <= i < |p.rows| ==>
      var b := p.rows[i].breaker; b.permaThreshold <= 0 && (b.state == Closed || b.state == Permanent)
  }

  predicate Rejects(r: Round) {
    r.buildOk && r.reply.Response? && r.reply.status in {401, 403}
  }

  lemma RejectedReply(w: World, idx: nat, r: Round)
    requires ClosedOrGone(w.pool) && Rejects(r) && idx < |w.pool.rows| && !Permanently(w.pool.rows[idx])
    ensures var o := OnAuthRejected(w, idx, r);
            && o.event == Sent(idx, r) && ClosedOrGone(o.world.pool) && o.world.up == w.up
            && ActiveCount(o.world.pool.rows) == ActiveCount(w.pool.rows) - 1
            && (o.done <==> ActiveCount(o.world.pool.rows) == 0)
            && (o.done ==> o.answers == [ALL_INVALID])
  {
    var row := w.pool.rows[idx].(breaker := MarkedBreaker(w.pool.rows[idx].breaker, Rejection(idx, r)));
    AuthRejectedRow(w.pool, idx, r);
    MarkKeeps(w.pool.rows[idx].breaker, Rejection(idx, r));
    ActiveCountDrops(w.pool.rows, idx, row);
    assert AuthRejectedPool(w.pool, idx, r).rows == w.pool.rows[idx := row];
  }

  lemma RejectedRound(buffer: bool, w: World, r: Round)
    requires ClosedOrGone(w.pool) && w.up.state == Closed && Rejects(r)
    requires ActiveCount(w.pool.rows) > 0
    ensures var o := OnRound(buffer, w, r);
            && IsRejection(o.event) && ClosedOrGone(o.world.pool) && o.world.up == w.up
            && ActiveCount(o.world.pool.rows) == ActiveCount(w.pool.rows) - 1
            && (o.done <==> ActiveCount(o.world.pool.rows) == 0)
            && (o.done ==> o.answers == [ALL_INVALID])
  {
    NoneActive(w.pool.rows);
    PoolRuns.SelectFindsAllowed(w.pool, r.selectAt);
    var idx := w.pool.SelectedKey(r.selectAt).value;
    var selected := World(w.pool.Selected(r.selectAt), w.up.Asked(r.allowAt), w.stored);
    assert selected.pool.rows == w.pool.rows;
    RejectedReply(selected, idx, r);
    assert OnRound(buffer, w, r) == OnAuthRejected(selected, idx, r);
  }

  ghost predicate AllRejections(trace: seq<Event>) {
    forall t :: 0 <= t < |trace| ==> IsRejection(trace[t])
  }

  lemma RejectionsCons(e: Event, trace: seq<Event>)
    requires IsRejection(e) && AllRejections(trace)
    ensures AllRejections([e] + trace)
  {
  }

  lemma {:induction false} RejectedToTheEnd(buffer: bool, w: World, rounds: seq<Round>)
    requires ClosedOrGone(w.pool) && w.up.state == Closed
    requires forall i :: 0 <= i < |rounds| ==> Rejects(rounds[i])
    requires 0 < ActiveCount(w.pool.rows) <= |rounds|
    ensures Rounds(buffer, w, rounds).answers == [ALL_INVALID]
    ensures |Trace(buffer, w, rounds)| == ActiveCount(w.pool.rows)
    ensures AllRejections(Trace(buffer, w, rounds))
    decreases |rounds|
  {
    var o := OnRound(buffer, w, rounds[0]);
    RejectedRound(buffer, w, rounds[0]);
    TraceUnfolds(buffer, w, rounds);
    if !o.done {
      RejectedToTheEnd(buffer, o.world, rounds[1..]);
      RejectionsCons(o.event, Trace(buffer, o.world, rounds[1..]));
    }
  }

  lemma {:induction false} ReplayOthers(bs: seq<Breaker>, marks: seq<Mark>, k: nat)
    requires k < |bs| && forall i :: 0 <= i < |marks| ==> marks[i].idx != k
    ensures k < |Replay(bs, marks)| && Replay(bs, marks)[k] == bs[k]
    decreases |marks|
  {
    if marks != [] {
      var m := marks[0];
      ReplayOthers(if m.idx < |bs| then bs[m.idx := MarkedBreaker(bs[m.idx], m)] else bs, marks[1..], k);
    }
  }

  lemma {:induction false} MarksAreSends(buffer: bool, trace: seq<Event>, k: nat)
    requires forall t: nat :: !SentWith(trace, t, k)
    ensures forall i :: 0 <= i < |Marks(buffer, trace)| ==> Marks(buffer, trace)[i].idx != k
  {
    if trace != [] {
      assert !SentWith(trace, 0, k);
      forall t: nat
        ensures !SentWith(trace[1..], t, k)
      {
        assert !SentWith(trace, t + 1, k);
      }
      MarksAreSends(buffer, trace[1..], k);
    }
  }

  /** A key that no round is sent with keeps its breaker. */
  lemma UnsentKeeps(buffer: bool, w: World, rounds: seq<Round>, k: nat)
    requires k < |w.pool.rows|
    requires forall t: nat :: !SentWith(Trace(buffer, w, rounds), t, k)
    ensures var rows := Rounds(buffer, w, rounds).world.pool.rows;
            k < |rows| && rows[k].breaker == w.pool.rows[k].breaker
  {
    var end := Rounds(buffer, w, rounds).world.pool;
    KeysAnswerForTheirOwn(buffer, w, rounds);
    MarksAreSends(buffer, Trace(buffer, w, rounds), k);
    ReplayOthers(Breakers(w.pool), Marks(buffer, Trace(buffer, w, rounds)), k);
    assert Breakers(end)[k] == end.rows[k].breaker;
  }

  lemma EachActiveTried(buffer: bool, w: World, rounds: seq<Round>, k: nat)
    requires ClosedOrGone(w.pool) && w.up.state == Closed
    requires forall i :: 0 <= i < |rounds| ==> Rejects(rounds[i])
    requires k < |w.pool.rows| && !Permanently(w.pool.rows[k])
    requires ActiveCount(w.pool.rows) <= |rounds|
    ensures exists t: nat :: SentWith(Trace(buffer, w, rounds), t, k)
  {
    NoneActive(w.pool.rows);
    RejectedToTheEnd(buffer, w, rounds);
    CodesAreSound(buffer, w, rounds);
    if forall t: nat :: !SentWith(Trace(buffer, w, rounds), t, k) {
      UnsentKeeps(buffer, w, rounds, k);
      assert false;
    }
  }

  lemma ActiveIffTried(buffer: bool, w: World, rounds: seq<Round>, k: nat)
    requires ClosedOrGone(w.pool) && w.up.state == Closed
    requires forall i :: 0 <= i < |rounds| ==> Rejects(rounds[i])
    requires k < |w.pool.rows| && ActiveCount(w.pool.rows) <= |rounds|
    ensures !Permanently(w.pool.rows[k]) <==> exists t: nat :: SentWith(Trace(buffer, w, rounds), t, k)
  {
    if Permanently(w.pool.rows[k]) {
      forall t: nat
        ensures !SentWith(Trace(buffer, w, rounds), t, k)
      {
        PermanentNeverUsed(buffer, w, rounds, k, t);
      }
    } else {
      EachActiveTried(buffer, w, rounds, k);
    }
  }

  /** Different rounds are sent with different keys. */
  ghost predicate DistinctKeys(trace: seq<Event>) {
    forall i, j :: 0 <= i < j < |trace| && trace[i].Sent? && trace[j].Sent? ==> trace[i].idx != trace[j].idx
  }

  lemma RejectedDistinct(buffer: bool, w: World, rounds: seq<Round>)
    requires NoThresholds(w.pool)
    requires AllRejections(Trace(buffer, w, rounds))
    ensures DistinctKeys(Trace(buffer, w, rounds))
  {
    var trace := Trace(buffer, w, rounds);
    forall i, j | 0 <= i < j < |trace|
      ensures trace[i].idx != trace[j].idx
    {
      RejectedKeyNotReused(buffer, w, rounds, i, j);
      assert !SentWith(trace, j, trace[i].idx);
    }
  }

  /** When every active key is closed, the upstream breaker is closed and every
      reply is a 401 or 403, a request with enough retries is sent with each
      active key exactly once, with no other key, and then answers
      ALL_KEYS_INVALID. */
  lemma RejectedKeysAllTried(buffer: bool, w: World, rounds: seq<Round>)
    requires ClosedOrGone(w.pool) && w.up.state == Closed
    requires forall i :: 0 <= i < |rounds| ==> Rejects(rounds[i])
    requires 0 < ActiveCount(w.pool.rows) <= |rounds|
    ensures Rounds(buffer, w, rounds).answers == [ALL_INVALID]
    ensures var trace := Trace(buffer, w, rounds);
            && |trace| == ActiveCount(w.pool.rows)
            && AllRejections(trace) && DistinctKeys(trace)
            && (forall k: nat :: k < |w.pool.rows| ==>
                  (!Permanently(w.pool.rows[k]) <==> exists t: nat :: SentWith(trace, t, k)))
  {
    RejectedToTheEnd(buffer, w, rounds);
    RejectedDistinct(buffer, w, rounds);
    forall k: nat | k < |w.pool.rows|
      ensures !Permanently(w.pool.rows[k]) <==> exists t: nat :: SentWith(Trace(buffer, w, rounds), t, k)
    {
      ActiveIffTried(buffer, w, rounds, k);
    }
  }

  // ----- what counts as a request -----

  /** The history of key k after an event. */
  ghost function HistoryAfter(buffer: bool, h: seq<Time>, e: Event, k: nat): seq<Time> {
    match MarkOf(buffer, e)
    case Some(Credit(idx)) =>
      if idx == k then Recent(h, e.round.countAt - MINUTE) + [e.round.countAt] else h
    case _ => h
  }

  lemma RateLimitedKeeps(w: World, idx: nat, r: Round, k: nat)
    requires idx < |w.pool.rows| && k < |w.pool.rows| && r.reply.Response?
    ensures var rows := OnRateLimited(w, idx, r).world.pool.rows;
            k < |rows| && rows[k] == w.pool.rows[k].(breaker := rows[k].breaker)
  {
    RateLimitedRow(w.pool, idx, r);
  }

  lemma AuthRejectedKeeps(w: World, idx: nat, r: Round, k: nat)
    requires idx < |w.pool.rows| && k < |w.pool.rows|
    ensures var rows := OnAuthRejected(w, idx, r).world.pool.rows;
            k < |rows| && rows[k] == w.pool.rows[k].(breaker := rows[k].breaker)
  {
    AuthRejectedRow(w.pool, idx, r);
  }

  /** A reply that is not a success changes at most a breaker and a reservation. */
  lemma FailedReplyRow(buffer: bool, w: World, idx: nat, r: Round, k: nat)
    requires idx < |w.pool.rows| && k < |w.pool.rows|
    requires r.reply.Response? ==> r.reply.status >= 400
    ensures var rows := OnReply(buffer, w, idx, r).world.pool.rows;
            k < |rows| && rows[k] == w.pool.rows[k].(breaker := rows[k].breaker, inUse := rows[k].inUse)
  {
    if r.reply.Response? {
      if r.reply.status == 429 {
        RateLimitedKeeps(w, idx, r, k);
      } else if r.reply.status == 401 || r.reply.status == 403 {
        AuthRejectedKeeps(w, idx, r, k);
      }
    }
  }

  lemma ReplyHistory(buffer: bool, w: World, idx: nat, r: Round, k: nat)
    requires idx < |w.pool.rows| && k < |w.pool.rows|
    ensures var o := OnReply(buffer, w, idx, r);
            && k < |o.world.pool.rows|
            && o.world.pool.rows[k].history == HistoryAfter(buffer, w.pool.rows[k].history, o.event, k)
            && (!o.done ==> o.world.pool.rows[k].history == w.pool.rows[k].history)
  {
    if r.reply.Response? && r.reply.status < 400 {
      assert OnReply(buffer, w, idx, r) == OnSuccess(buffer, w, idx, r);
    } else {
      ReplyShape(buffer, w, idx, r);
      FailedReplyRow(buffer, w, idx, r, k);
    }
  }

  lemma RoundHistory(buffer: bool, w: World, r: Round, k: nat)
    requires k < |w.pool.rows|
    ensures var o := OnRound(buffer, w, r);
            && k < |o.world.pool.rows|
            && o.world.pool.rows[k].history == HistoryAfter(buffer, w.pool.rows[k].history, o.event, k)
            && (!o.done ==> o.world.pool.rows[k].history == w.pool.rows[k].history)
  {
    RoundShape(buffer, w, r);
    if w.up.Grants(r.allowAt) && w.pool.SelectedKey(r.selectAt).Some? && r.buildOk {
      var idx := w.pool.SelectedKey(r.selectAt).value;
      var selected := World(w.pool.Selected(r.selectAt), w.up.Asked(r.allowAt), w.stored);
      ReplyHistory(buffer, selected, idx, r, k);
      assert OnRound(buffer, w, r) == OnReply(buffer, selected, idx, r);
    }
  }

  function LastOf(trace: seq<Event>): Event
    requires trace != []
  {
    trace[|trace| - 1]
  }

  lemma LastOfCons(e: Event, trace: seq<Event>)
    ensures LastOf([e] + trace) == if trace == [] then e else LastOf(trace)
  {
  }

  /** A request counts towards the rate of a key at most once, and exactly when
      it ends in a response committed with that key: no failed attempt counts. */
  lemma {:induction false} OnlyCommitsCount(buffer: bool, w: World, rounds: seq<Round>, k: nat)
    requires k < |w.pool.rows|
    ensures var rows, trace := Rounds(buffer, w, rounds).world.pool.rows, Trace(buffer, w, rounds);
            && k < |rows|
            && rows[k].history ==
               if trace == [] then w.pool.rows[k].history
               else HistoryAfter(buffer, w.pool.rows[k].history, LastOf(trace), k)
    decreases |rounds|
  {
    if rounds != [] {
      var o := OnRound(buffer, w, rounds[0]);
      RoundHistory(buffer, w, rounds[0], k);
      TraceUnfolds(buffer, w, rounds);
      if !o.done {
        OnlyCommitsCount(buffer, o.world, rounds[1..], k);
        LastOfCons(o.event, Trace(buffer, o.world, rounds[1..]));
      }
    }
  }

  // ----- rejections reach the store -----

  ghost predicate SameKeys(a: Pool, b: Pool) {
    && |a.rows| == |b.rows|
    && forall k :: 0 <= k < |a.rows| ==> a.rows[k].key == b.rows[k].key && a.rows[k].name == b.rows[k].name
  }

  lemma ReplyKeepsKeys(buffer: bool, w: World, idx: nat, r: Round)
    requires idx < |w.pool.rows|
    ensures SameKeys(OnReply(buffer, w, idx, r).world.pool, w.pool)
  {
    ReplyShape(buffer, w, idx, r);
    if r.reply.Response? && r.reply.status < 400 {
      assert OnReply(buffer, w, idx, r) == OnSuccess(buffer, w, idx, r);
    } else {
      var rows := OnReply(buffer, w, idx, r).world.pool.rows;
      forall k | 0 <= k < |w.pool.rows|
        ensures rows[k].key == w.pool.rows[k].key && rows[k].name == w.pool.rows[k].name
      {
        FailedReplyRow(buffer, w, idx, r, k);
      }
    }
  }

  predicate RejectedAndSaved(r: Round) {
    r.reply.Response? && r.reply.status in {401, 403} && r.saveOk
  }

  lemma ReplyStored(buffer: bool, w: World, idx: nat, r: Round)
    requires idx < |w.pool.rows|
    ensures var o := OnReply(buffer, w, idx, r);
            && (o.world.stored == w.stored || o.world.stored == Persisted(o.world.pool))
            && (RejectedAndSaved(r) && w.pool.rows[idx].breaker.AuthLimit() ==>
                  o.world.stored == Persisted(o.world.pool))
  {
  }

  predicate AtLimit(p: Pool, idx: nat) {
    idx < |p.rows| && p.rows[idx].breaker.AuthLimit()
  }

  lemma RoundStored(buffer: bool, w: World, r: Round)
    ensures var o := OnRound(buffer, w, r);
            && SameKeys(o.world.pool, w.pool)
            && (o.world.stored == w.stored || o.world.stored == Persisted(o.world.pool))
            && (IsRejection(o.event) && r.saveOk && AtLimit(w.pool, o.event.idx) ==>
                  o.world.stored == Persisted(o.world.pool))
  {
    RoundShape(buffer, w, r);
    if w.up.Grants(r.allowAt) && w.pool.SelectedKey(r.selectAt).Some? && r.buildOk {
      var idx := w.pool.SelectedKey(r.selectAt).value;
      var selected := World(w.pool.Selected(r.selectAt), w.up.Asked(r.allowAt), w.stored);
      ReplyKeepsKeys(buffer, selected, idx, r);
      ReplyStored(buffer, selected, idx, r);
      ReplyShape(buffer, selected, idx, r);
      assert OnRound(buffer, w, r) == OnReply(buffer, selected, idx, r);
    }
  }

  /** Key k is permanently disabled, and the store says so. */
  ghost predicate SavedAsDisabled(w: World, k: nat) {
    && k < |w.pool.rows| && Permanently(w.pool.rows[k])
    && |w.stored| == |w.pool.rows| && w.stored[k].disabled && w.stored[k].key == w.pool.rows[k].key
  }

  lemma RejectionSavedAtOnce(buffer: bool, w: World, r: Round)
    requires NoThresholds(w.pool)
    requires r.saveOk && IsRejection(OnRound(buffer, w, r).event)
    ensures var o := OnRound(buffer, w, r); SavedAsDisabled(o.world, o.event.idx)
  {
    RoundShape(buffer, w, r);
    RoundStored(buffer, w, r);
    RejectionDisables(buffer, w, r);
  }

  lemma SavedStaysSaved(buffer: bool, w: World, rounds: seq<Round>, k: nat, t: nat)
    requires t < |rounds| && SavedAsDisabled(WorldAt(buffer, w, rounds, t), k)
    ensures SavedAsDisabled(WorldAt(buffer, w, rounds, t + 1), k)
  {
    RoundStored(buffer, WorldAt(buffer, w, rounds, t), rounds[t]);
    RoundKeepsPermanent(buffer, WorldAt(buffer, w, rounds, t), rounds[t], k);
  }

  lemma {:induction false} SavedFrom(buffer: bool, w: World, rounds: seq<Round>, k: nat, i: nat, j: nat)
    requires i <= j <= |rounds| && SavedAsDisabled(WorldAt(buffer, w, rounds, i), k)
    ensures SavedAsDisabled(WorldAt(buffer, w, rounds, j), k)
    decreases j
  {
    if i < j {
      SavedFrom(buffer, w, rounds, k, i, j - 1);
      SavedStaysSaved(buffer, w, rounds, k, j - 1);
    }
  }

  /** When saving works, every key that the upstream rejects during a request is
      disabled in the store once the request is over. */
  lemma RejectionsAreSaved(buffer: bool, w: World, rounds: seq<Round>, t: nat)
    requires NoThresholds(w.pool)
    requires forall i :: 0 <= i < |rounds| ==> rounds[i].saveOk
    requires t < |Trace(buffer, w, rounds)| && IsRejection(Trace(buffer, w, rounds)[t])
    ensures SavedAsDisabled(Rounds(buffer, w, rounds).world, Trace(buffer, w, rounds)[t].idx)
  {
    TraceAt(buffer, w, rounds, t);
    NoThresholdsAt(buffer, w, rounds, t);
    RejectionSavedAtOnce(buffer, WorldAt(buffer, w, rounds, t), rounds[t]);
    EndsAt(buffer, w, rounds);
    SavedFrom(buffer, w, rounds, Trace(buffer, w, rounds)[t].idx, t + 1, |Trace(buffer, w, rounds)|);
  }

  // ----- what else a round changes -----

  /** The send broke off with a transport error. */
  predicate BrokeOff(e: Event) {
    e.Sent? && e.round.reply.TransportError?
  }

  /** The send was answered with a response that reached the client as a success. */
  ghost predicate Committed(buffer: bool, e: Event) {
    e.Sent? && e.round.reply.Response? && e.round.reply.status < 400 && Commits(buffer, e.round.reply)
  }

  /** Beyond breakers and histories, an event changes two things about a key: a
      transport error releases it, and a commit notes when it was used. */
  ghost predicate KeyTouched(buffer: bool, was: Row, row: Row, e: Event, k: nat) {
    && row.key == was.key && row.name == was.name
    && (row.inUse <==> was.inUse && !(BrokeOff(e) && e.idx == k))
    && row.lastUsed == if Committed(buffer, e) && e.idx == k then e.round.countAt else was.lastUsed
  }

  /** The store changes exactly when a rejection disables a key and saving works;
      then it holds the keys of the pool. */
  ghost predicate StoreTouched(before: World, after: World, e: Event) {
    after.stored ==
    if IsRejection(e) && e.round.saveOk && AtLimit(before.pool, e.idx) then Persisted(after.pool) else before.stored
  }

  lemma SuccessTouches(buffer: bool, w: World, idx: nat, r: Round, k: nat)
    requires idx < |w.pool.rows| && k < |w.pool.rows| && r.reply.Response? && r.reply.status < 400
    ensures var o := OnSuccess(buffer, w, idx, r);
            && |o.world.pool.rows| == |w.pool.rows|
            && KeyTouched(buffer, w.pool.rows[k], o.world.pool.rows[k], Sent(idx, r), k)
  {
  }

  lemma FailureTouches(buffer: bool, w: World, idx: nat, r: Round, k: nat)
    requires idx < |w.pool.rows| && k < |w.pool.rows| && (r.reply.Response? ==> r.reply.status >= 400)
    ensures var rows := OnReply(buffer, w, idx, r).world.pool.rows;
            |rows| == |w.pool.rows| && KeyTouched(buffer, w.pool.rows[k], rows[k], Sent(idx, r), k)
  {
    if r.reply.Response? {
      if r.reply.status == 429 {
        RateLimitedKeeps(w, idx, r, k);
      } else if r.reply.status in {401, 403} {
        AuthRejectedKeeps(w, idx, r, k);
      }
    }
  }

  lemma ReplyTouches(buffer: bool, w: World, idx: nat, r: Round, k: nat)
    requires idx < |w.pool.rows| && k < |w.pool.rows|
    ensures var o := OnReply(buffer, w, idx, r);
            && |o.world.pool.rows| == |w.pool.rows|
            && KeyTouched(buffer, w.pool.rows[k], o.world.pool.rows[k], o.event, k)
  {
    ReplyShape(buffer, w, idx, r);
    if r.reply.Response? && r.reply.status < 400 {
      SuccessTouches(buffer, w, idx, r, k);
      assert OnReply(buffer, w, idx, r) == OnSuccess(buffer, w, idx, r);
    } else {
      FailureTouches(buffer, w, idx, r, k);
    }
  }

  lemma ReplyRest(buffer: bool, w: World, idx: nat, r: Round)
    requires idx < |w.pool.rows|
    ensures var o := OnReply(buffer, w, idx, r);
            && o.world.pool == w.pool.(rows := o.world.pool.rows)
            && StoreTouched(w, o.world, o.event)
  {
    if r.reply.Response? && r.reply.status == 429 {
      RateLimitedRow(w.pool, idx, r);
    } else if r.reply.Response? && r.reply.status in {401, 403} {
      AuthRejectedRow(w.pool, idx, r);
    }
  }

  /** What a round changes about key k, the store and the rest of the pool. */
  lemma RoundTouches(buffer: bool, w: World, r: Round, k: nat)
    requires k < |w.pool.rows|
    ensures var o := OnRound(buffer, w, r); var p := o.world.pool;
            && |p.rows| == |w.pool.rows|
            && KeyTouched(buffer, w.pool.rows[k], p.rows[k], o.event, k)
            && StoreTouched(w, o.world, o.event)
            && p == (if o.event.Denied? then w.pool else w.pool.Selected(r.selectAt)).(rows := p.rows)
  {
    if w.up.Grants(r.allowAt) && w.pool.SelectedKey(r.selectAt).Some? && r.buildOk {
      var idx := w.pool.SelectedKey(r.selectAt).value;
      var selected := World(w.pool.Selected(r.selectAt), w.up.Asked(r.allowAt), w.stored);
      ReplyTouches(buffer, selected, idx, r, k);
      ReplyRest(buffer, selected, idx, r);
      assert OnRound(buffer, w, r) == OnReply(buffer, selected, idx, r);
    }
  }

  lemma NoneBrokeCons(e: Event, trace: seq<Event>, k: nat)
    ensures (forall t: nat :: SentWith([e] + trace, t, k) ==> !BrokeOff(([e] + trace)[t])) <==>
            !(BrokeOff(e) && e.idx == k) && (forall t: nat :: SentWith(trace, t, k) ==> !BrokeOff(trace[t]))
  {
    var all := [e] + trace;
    if BrokeOff(e) && e.idx == k {
      assert SentWith(all, 0, k);
    }
    forall t: nat | SentWith(trace, t, k)
      ensures SentWith(all, t + 1, k) && all[t + 1] == trace[t]
    {
    }
    forall t: nat | SentWith(all, t + 1, k)
      ensures SentWith(trace, t, k) && all[t + 1] == trace[t]
    {
    }
  }

  /** A request gives back the reservation of exactly the keys whose sends broke
      off; it takes none. */
  lemma {:induction false} ReservationsGivenBack(buffer: bool, w: World, rounds: seq<Round>, k: nat)
    requires k < |w.pool.rows|
    ensures var rows, trace := Rounds(buffer, w, rounds).world.pool.rows, Trace(buffer, w, rounds);
            && k < |rows|
            && (rows[k].inUse <==>
                  w.pool.rows[k].inUse && forall t: nat :: SentWith(trace, t, k) ==> !BrokeOff(trace[t]))
    decreases |rounds|
  {
    if rounds != [] {
      var o := OnRound(buffer, w, rounds[0]);
      RoundTouches(buffer, w, rounds[0], k);
      TraceUnfolds(buffer, w, rounds);
      var rest := if o.done then [] else Trace(buffer, o.world, rounds[1..]);
      assert Trace(buffer, w, rounds) == [o.event] + rest;
      NoneBrokeCons(o.event, rest, k);
      if !o.done {
        ReservationsGivenBack(buffer, o.world, rounds[1..], k);
      }
    }
  }

  lemma RoundStoreKept(buffer: bool, w: World, r: Round)
    requires !IsRejection(OnRound(buffer, w, r).event)
    ensures OnRound(buffer, w, r).world.stored == w.stored
  {
    if w.up.Grants(r.allowAt) && w.pool.SelectedKey(r.selectAt).Some? && r.buildOk {
      var idx := w.pool.SelectedKey(r.selectAt).value;
      var selected := World(w.pool.Selected(r.selectAt), w.up.Asked(r.allowAt), w.stored);
      ReplyRest(buffer, selected, idx, r);
      assert OnRound(buffer, w, r) == OnReply(buffer, selected, idx, r);
    }
  }

  /** A request in which no send is rejected leaves the store as it was. */
  lemma {:induction false} StoreKept(buffer: bool, w: World, rounds: seq<Round>)
    requires forall t :: 0 <= t < |Trace(buffer, w, rounds)| ==> !IsRejection(Trace(buffer, w, rounds)[t])
    ensures Rounds(buffer, w, rounds).world.stored == w.stored
    decreases |rounds|
  {
    if rounds != [] {
      var o := OnRound(buffer, w, rounds[0]);
      TraceUnfolds(buffer, w, rounds);
      assert !IsRejection(Trace(buffer, w, rounds)[0]);
      RoundStoreKept(buffer, w, rounds[0]);
      if !o.done {
        var rest := Trace(buffer, o.world, rounds[1..]);
        assert forall t :: 0 <= t < |rest| ==> rest[t] == Trace(buffer, w, rounds)[t + 1];
        StoreKept(buffer, o.world, rounds[1..]);
      }
    }
  }

  // ----- a rate-limited key rests -----

  /** After a 429 a key is either given up or blocked, at least, until the
      instant it recorded plus its own cooldown, and until the cooldown was
      forced plus the delay the upstream asked for and two seconds. */
  lemma RateLimitRests(b: Breaker, idx: nat, r: Round, t: Time)
    requires r.reply.Response? && b.state in {Closed, Open}
    ensures var after := MarkedBreaker(b, RateLimit(idx, r));
            var own := b.FailureCooldown(DefaultJitter(b.RawBackoff(), r.draw));
            after.state == Permanent ||
            (after.Allows(t) <==>
               && t > r.recordAt + own
               && t > r.coolAt + own
               && match Atoi(r.reply.retryAfter)
                  case Some(secs) => t > r.coolAt + (secs + 2) * SECOND
                  case None => true)
  {
  }

  /** The key is given up, or blocked up to and including the instant `until`. */
  predicate RestsUntil(b: Breaker, until: Time) {
    b.state == Permanent || (b.state == Open && b.cooldownUntil >= until)
  }

  lemma RestingRound(buffer: bool, w: World, r: Round, k: nat, until: Time)
    requires k < |w.pool.rows| && RestsUntil(w.pool.rows[k].breaker, until) && r.selectAt <= until
    ensures var o := OnRound(buffer, w, r);
            && k < |o.world.pool.rows| && o.world.pool.rows[k].breaker == w.pool.rows[k].breaker
            && !(o.event.Sent? && o.event.idx == k)
  {
    RoundShape(buffer, w, r);
    RoundBreaker(buffer, w, r, k);
  }

  /** A resting key keeps resting while rounds select before its rest ends. */
  lemma {:induction false} RestingFrom(buffer: bool, w: World, rounds: seq<Round>, k: nat, until: Time, i: nat, j: nat)
    requires i <= j <= |rounds|
    requires forall t :: i <= t < j ==> rounds[t].selectAt <= until
    requires var p := WorldAt(buffer, w, rounds, i).pool; k < |p.rows| && RestsUntil(p.rows[k].breaker, until)
    ensures var p := WorldAt(buffer, w, rounds, j).pool; k < |p.rows| && RestsUntil(p.rows[k].breaker, until)
    decreases j
  {
    if i < j {
      RestingFrom(buffer, w, rounds, k, until, i, j - 1);
      RestingRound(buffer, WorldAt(buffer, w, rounds, j - 1), rounds[j - 1], k, until);
    }
  }

  /** The send was rate limited and the upstream asked for a delay of secs. */
  predicate AskedToWait(e: Event, secs: int) {
    e.Sent? && e.round.reply.Response? && e.round.reply.status == 429 && Atoi(e.round.reply.retryAfter) == Some(secs)
  }

  /** The end of the rest that a limited key is due: the delay asked for, and two
      seconds more. */
  function RestEnd(r: Round, secs: int): Time {
    r.coolAt + (secs + 2) * SECOND
  }

  lemma RateLimitedRound(buffer: bool, w: World, r: Round, secs: int)
    requires AskedToWait(OnRound(buffer, w, r).event, secs)
    ensures var o := OnRound(buffer, w, r);
            && o.event.round == r && o.event.idx < |o.world.pool.rows|
            && RestsUntil(o.world.pool.rows[o.event.idx].breaker, RestEnd(r, secs))
  {
    RoundShape(buffer, w, r);
    RoundBreaker(buffer, w, r, OnRound(buffer, w, r).event.idx);
  }

  /** A rate-limited key rests from the next round on. */
  lemma LimitedAt(buffer: bool, w: World, rounds: seq<Round>, i: nat, secs: int)
    requires i < |Trace(buffer, w, rounds)| && AskedToWait(Trace(buffer, w, rounds)[i], secs)
    ensures i < |rounds| && Trace(buffer, w, rounds)[i].round == rounds[i]
    ensures var p := WorldAt(buffer, w, rounds, i + 1).pool; var k := Trace(buffer, w, rounds)[i].idx;
            k < |p.rows| && RestsUntil(p.rows[k].breaker, RestEnd(rounds[i], secs))
  {
    TraceAt(buffer, w, rounds, i);
    RateLimitedRound(buffer, WorldAt(buffer, w, rounds, i), rounds[i], secs);
  }

  lemma RestingNotSent(buffer: bool, w: World, rounds: seq<Round>, k: nat, until: Time, i: nat, j: nat)
    requires i <= j < |Trace(buffer, w, rounds)| && j < |rounds|
    requires forall t :: i <= t <= j ==> rounds[t].selectAt <= until
    requires var p := WorldAt(buffer, w, rounds, i).pool; k < |p.rows| && RestsUntil(p.rows[k].breaker, until)
    ensures !SentWith(Trace(buffer, w, rounds), j, k)
  {
    TraceAt(buffer, w, rounds, j);
    RestingFrom(buffer, w, rounds, k, until, i, j);
    RestingRound(buffer, WorldAt(buffer, w, rounds, j), rounds[j], k, until);
  }

  /** Within one request no key that was rate limited with a Retry-After delay is
      used again by a round that selects before that delay, plus two seconds,
      has passed. */
  lemma RateLimitedKeyRests(buffer: bool, w: World, rounds: seq<Round>, i: nat, j: nat, secs: int)
    requires i < j < |Trace(buffer, w, rounds)| && AskedToWait(Trace(buffer, w, rounds)[i], secs)
    requires forall t :: i < t <= j && t < |rounds| ==>
               rounds[t].selectAt <= RestEnd(Trace(buffer, w, rounds)[i].round, secs)
    ensures !SentWith(Trace(buffer, w, rounds), j, Trace(buffer, w, rounds)[i].idx)
  {
    var k, until := Trace(buffer, w, rounds)[i].idx, RestEnd(Trace(buffer, w, rounds)[i].round, secs);
    EndsAt(buffer, w, rounds);
    LimitedAt(buffer, w, rounds, i, secs);
    RestingNotSent(buffer, w, rounds, k, until, i + 1, j);
  }

  // ----- a good key is found -----

  predicate Accepts(reply: Reply) {
    reply.Response? && reply.status < 400
  }

  /** The upstream takes the good keys and rejects the others. */
  ghost predicate JudgesBy(buffer: bool, trace: seq<Event>, good: set<nat>) {
    forall t :: 0 <= t < |trace| && trace[t].Sent? ==>
      var e := trace[t];
      if e.idx in good then Accepts(e.round.reply) && Commits(buffer, e.round.reply) else Rejects(e.round)
  }

  lemma AcceptedRound(buffer: bool, w: World, r: Round)
    requires var o := OnRound(buffer, w, r);
             o.event.Sent? && Accepts(r.reply) && Commits(buffer, r.reply)
    ensures var o := OnRound(buffer, w, r);
            o.done && |o.answers| == 1 && o.answers[0].Passed?
  {
  }

  lemma ClosedRoundSends(buffer: bool, w: World, r: Round)
    requires ClosedOrGone(w.pool) && w.up.state == Closed && r.buildOk
    requires ActiveCount(w.pool.rows) > 0
    ensures OnRound(buffer, w, r).event.Sent? && OnRound(buffer, w, r).event.round == r
  {
    NoneActive(w.pool.rows);
    PoolRuns.SelectFindsAllowed(w.pool, r.selectAt);
    var idx := w.pool.SelectedKey(r.selectAt).value;
    var selected := World(w.pool.Selected(r.selectAt), w.up.Asked(r.allowAt), w.stored);
    ReplyShape(buffer, selected, idx, r);
    assert OnRound(buffer, w, r) == OnReply(buffer, selected, idx, r);
  }

  lemma JudgesTail(buffer: bool, e: Event, trace: seq<Event>, good: set<nat>)
    requires JudgesBy(buffer, [e] + trace, good)
    ensures JudgesBy(buffer, trace, good)
  {
    assert forall t :: 0 <= t < |trace| ==> trace[t] == ([e] + trace)[t + 1];
  }

  lemma RejectedOther(buffer: bool, w: World, r: Round, g: nat)
    requires ClosedOrGone(w.pool) && w.up.state == Closed && Rejects(r)
    requires g < |w.pool.rows| && !Permanently(w.pool.rows[g])
    requires OnRound(buffer, w, r).event.Sent? && OnRound(buffer, w, r).event.idx != g
    ensures var o := OnRound(buffer, w, r);
            && !o.done && ClosedOrGone(o.world.pool) && o.world.up == w.up
            && ActiveCount(o.world.pool.rows) == ActiveCount(w.pool.rows) - 1
            && g < |o.world.pool.rows| && !Permanently(o.world.pool.rows[g])
  {
    NoneActive(w.pool.rows);
    RejectedRound(buffer, w, r);
    RoundBreaker(buffer, w, r, g);
    NoneActive(OnRound(buffer, w, r).world.pool.rows);
  }

  /** When the active keys and the upstream breaker are closed, the upstream takes
      at least one active key and rejects the others with 401 or 403, a request
      with as many retries as there are active keys is answered by the upstream. */
  lemma {:induction false} GoodKeyIsFound(buffer: bool, w: World, rounds: seq<Round>, good: set<nat>, g: nat)
    requires ClosedOrGone(w.pool) && w.up.state == Closed
    requires forall i :: 0 <= i < |rounds| ==> rounds[i].buildOk
    requires g in good && g < |w.pool.rows| && !Permanently(w.pool.rows[g])
    requires ActiveCount(w.pool.rows) <= |rounds|
    requires JudgesBy(buffer, Rounds(buffer, w, rounds).trace, good)
    ensures var res := Rounds(buffer, w, rounds);
            |res.answers| == 1 && res.answers[0].Passed? && |res.trace| <= ActiveCount(w.pool.rows)
    decreases |rounds|
  {
    NoneActive(w.pool.rows);
    assert ActiveCount(w.pool.rows) > 0;
    var o := OnRound(buffer, w, rounds[0]);
    ClosedRoundSends(buffer, w, rounds[0]);
    assert Rounds(buffer, w, rounds).trace[0] == o.event;
    if o.event.idx in good {
      AcceptedRound(buffer, w, rounds[0]);
    } else {
      RejectedOther(buffer, w, rounds[0], g);
      var rest := Rounds(buffer, o.world, rounds[1..]);
      assert Rounds(buffer, w, rounds) == rest.(trace := [o.event] + rest.trace);
      JudgesTail(buffer, o.event, rest.trace, good);
      GoodKeyIsFound(buffer, o.world, rounds[1..], good, g);
    }
  }

  /** Whether or not other keys are usable, a closed key lets a round send. */
  lemma ClosedKeySends(buffer: bool, w: World, r: Round, g: nat)
    requires w.up.state == Closed && r.buildOk
    requires g < |w.pool.rows| && w.pool.rows[g].breaker.state == Closed
    ensures var e := OnRound(buffer, w, r).event;
            e.Sent? && e.round == r && w.pool.SelectedKey(r.selectAt) == Some(e.idx)
  {
    PoolRuns.SelectFindsAllowed(w.pool, r.selectAt);
    assert w.pool.rows[g].breaker.Allows(r.selectAt);
    var idx := w.pool.SelectedKey(r.selectAt).value;
    var selected := World(w.pool.Selected(r.selectAt), w.up.Asked(r.allowAt), w.stored);
    ReplyShape(buffer, selected, idx, r);
    assert OnRound(buffer, w, r) == OnReply(buffer, selected, idx, r);
  }

  /** The reply neither reaches the client nor counts against the upstream: the key
      was rejected or limited, or a buffered stream was incomplete. */
  ghost predicate Spares(buffer: bool, reply: Reply) {
    reply.Response? && (reply.status in {401, 403, 429} || (reply.status < 400 && !Commits(buffer, reply)))
  }

  lemma SparedReply(buffer: bool, w: World, idx: nat, r: Round, g: nat)
    requires Spares(buffer, r.reply) && idx < |w.pool.rows| && g < |w.pool.rows| && idx != g
    requires w.pool.rows[g].breaker.state == Closed
    ensures var o := OnReply(buffer, w, idx, r);
            && !o.done && o.world.up == w.up && |o.world.pool.rows| == |w.pool.rows|
            && o.world.pool.rows[g].breaker == w.pool.rows[g].breaker
            && o.world.pool.mode == w.pool.mode && o.world.pool.pollingIndex == w.pool.pollingIndex
  {
    if r.reply.status == 429 {
      var after := RateLimitedPool(w.pool, idx, r);
      RateLimitedRow(w.pool, idx, r);
      assert after.rows[g] == w.pool.rows[g];
      NoneActive(after.rows);
    } else if r.reply.status == 401 || r.reply.status == 403 {
      var after := AuthRejectedPool(w.pool, idx, r);
      AuthRejectedRow(w.pool, idx, r);
      assert after.rows[g] == w.pool.rows[g];
      NoneActive(after.rows);
    }
  }

  /** How many slots the polling scan has before it comes to key g. */
  function ScanDistance(p: Pool, g: nat): nat
    requires g < |p.rows|
  {
    Dist(|p.rows|, p.pollingIndex % |p.rows|, g)
  }

  /** Each round that is spared brings the scan strictly closer to a closed key. */
  lemma SparedRound(buffer: bool, w: World, r: Round, g: nat)
    requires w.pool.mode != RANDOM_MODE && w.up.state == Closed && r.buildOk
    requires g < |w.pool.rows| && w.pool.rows[g].breaker.state == Closed
    requires Spares(buffer, r.reply) && w.pool.SelectedKey(r.selectAt) != Some(g)
    ensures var o := OnRound(buffer, w, r); var p := o.world.pool;
            && !o.done && o.world.up == w.up && p.mode == w.pool.mode
            && g < |p.rows| && p.rows[g].breaker.state == Closed
            && ScanDistance(p, g) < ScanDistance(w.pool, g)
  {
    ClosedKeySends(buffer, w, r, g);
    var idx := w.pool.SelectedKey(r.selectAt).value;
    var selected := World(w.pool.Selected(r.selectAt), w.up.Asked(r.allowAt), w.stored);
    PoolRuns.SelectionAdvances(w.pool, r.selectAt);
    Polling.StepTowards(w.pool.Allowing(r.selectAt), w.pool.pollingIndex % |w.pool.rows|, g);
    SparedReply(buffer, selected, idx, r, g);
    assert OnRound(buffer, w, r) == OnReply(buffer, selected, idx, r);
  }

  /** Key g commits whenever it is used; all other replies are spared. */
  ghost predicate OnlyTakes(buffer: bool, trace: seq<Event>, g: nat) {
    forall t :: 0 <= t < |trace| && trace[t].Sent? ==>
      var reply := trace[t].round.reply;
      if trace[t].idx == g then Accepts(reply) && Commits(buffer, reply) else Spares(buffer, reply)
  }

  lemma OnlyTakesTail(buffer: bool, e: Event, trace: seq<Event>, g: nat)
    requires OnlyTakes(buffer, [e] + trace, g)
    ensures OnlyTakes(buffer, trace, g)
  {
    assert forall t :: 0 <= t < |trace| ==> trace[t] == ([e] + trace)[t + 1];
  }

  /** In polling mode and with a closed upstream breaker, one closed key that the
      upstream takes is reached, whatever the state of the other keys, as long as
      their requests end in a 401, 403 or 429 or in an incomplete buffered stream:
      the upstream answers within one round more than there are slots between the
      polling position and that key. */
  lemma {:induction false} PollingReachesGoodKey(buffer: bool, w: World, rounds: seq<Round>, g: nat)
    requires w.pool.mode != RANDOM_MODE && w.up.state == Closed
    requires g < |w.pool.rows| && w.pool.rows[g].breaker.state == Closed
    requires forall i :: 0 <= i < |rounds| ==> rounds[i].buildOk
    requires ScanDistance(w.pool, g) < |rounds|
    requires OnlyTakes(buffer, Trace(buffer, w, rounds), g)
    ensures var answers := Rounds(buffer, w, rounds).answers;
            |answers| == 1 && answers[0].Passed?
    ensures |Trace(buffer, w, rounds)| <= ScanDistance(w.pool, g) + 1
    decreases |rounds|
  {
    var o := OnRound(buffer, w, rounds[0]);
    ClosedKeySends(buffer, w, rounds[0], g);
    TraceUnfolds(buffer, w, rounds);
    assert Trace(buffer, w, rounds)[0] == o.event;
    if o.event.idx == g {
      AcceptedRound(buffer, w, rounds[0]);
    } else {
      SparedRound(buffer, w, rounds[0], g);
      OnlyTakesTail(buffer, o.event, Trace(buffer, o.world, rounds[1..]), g);
      PollingReachesGoodKey(buffer, o.world, rounds[1..], g);
    }
  }

  // ----- the upstream probe -----

  /** While the upstream breaker is half open with its probe used, a request is
      refused in every round, sends nothing, changes nothing and answers that
      its retries are exhausted. */
  lemma {:induction false} UsedProbeBlocks(buffer: bool, w: World, rounds: seq<Round>)
    requires w.up.state == HalfOpen && w.up.halfOpenProbed
    ensures var res := Rounds(buffer, w, rounds);
            && res.world == w && res.answers == [EXHAUSTED] && |res.trace| == |rounds|
            && (forall t :: 0 <= t < |res.trace| ==> res.trace[t] == Denied)
    decreases |rounds|
  {
    if rounds != [] {
      UsedProbeBlocks(buffer, w, rounds[1..]);
    }
  }

  /** Round t asks an open breaker that grants its probe, and reports no outcome. */
  ghost predicate ProbeUnsettled(buffer: bool, w: World, rounds: seq<Round>, t: nat) {
    && t < |Trace(buffer, w, rounds)| && t < |rounds|
    && var u := WorldAt(buffer, w, rounds, t).up;
       && u.state == Open && u.Grants(rounds[t].allowAt)
       && UpstreamOps(buffer, rounds[t], Trace(buffer, w, rounds)[t]) == [Up.Allow(rounds[t].allowAt)]
  }

  predicate ProbeUsed(u: Upstream) {
    u.state == HalfOpen && u.halfOpenProbed
  }

  /** What one round makes of a breaker whose probe is not used. */
  lemma ProbeRound(buffer: bool, w: World, r: Round)
    requires w.up.state in {Closed, Open}
    ensures var o := OnRound(buffer, w, r);
            if w.up.state == Open && w.up.Grants(r.allowAt) && UpstreamOps(buffer, r, o.event) == [Up.Allow(r.allowAt)]
            then ProbeUsed(o.world.up) else o.world.up.state in {Closed, Open}
  {
    RoundUpstream(buffer, w, r);
    RunOne(w.up, Up.Allow(r.allowAt));
    RunTwo(w.up, Up.Allow(r.allowAt), Up.Failure(r.recordAt));
    RunTwo(w.up, Up.Allow(r.allowAt), Up.Success);
  }

  lemma UsedProbeRound(buffer: bool, w: World, r: Round)
    requires ProbeUsed(w.up)
    ensures OnRound(buffer, w, r).world == w
  {
  }

  /** A used probe stays used. */
  lemma {:induction false} ProbeStaysUsed(buffer: bool, w: World, rounds: seq<Round>, i: nat, t: nat)
    requires i <= t <= |rounds| && ProbeUsed(WorldAt(buffer, w, rounds, i).up)
    ensures ProbeUsed(WorldAt(buffer, w, rounds, t).up)
    decreases t
  {
    if i < t {
      ProbeStaysUsed(buffer, w, rounds, i, t - 1);
      UsedProbeRound(buffer, WorldAt(buffer, w, rounds, t - 1), rounds[t - 1]);
    }
  }

  lemma UnsettledUses(buffer: bool, w: World, rounds: seq<Round>, t: nat)
    requires ProbeUnsettled(buffer, w, rounds, t)
    ensures ProbeUsed(WorldAt(buffer, w, rounds, t + 1).up)
  {
    TraceAt(buffer, w, rounds, t);
    ProbeRound(buffer, WorldAt(buffer, w, rounds, t), rounds[t]);
  }

  lemma UsedUnsettled(buffer: bool, w: World, rounds: seq<Round>, t: nat)
    requires t < |Trace(buffer, w, rounds)| && t < |rounds|
    requires WorldAt(buffer, w, rounds, t).up.state in {Closed, Open}
    ensures ProbeUnsettled(buffer, w, rounds, t) || WorldAt(buffer, w, rounds, t + 1).up.state in {Closed, Open}
  {
    TraceAt(buffer, w, rounds, t);
    ProbeRound(buffer, WorldAt(buffer, w, rounds, t), rounds[t]);
  }

  /** As long as no round leaves its probe unsettled, the breaker is closed or open. */
  lemma {:induction false} SettledUpTo(buffer: bool, w: World, rounds: seq<Round>, t: nat)
    requires w.up.state in {Closed, Open} && t <= |Trace(buffer, w, rounds)| && t <= |rounds|
    requires forall i: nat :: !ProbeUnsettled(buffer, w, rounds, i)
    ensures WorldAt(buffer, w, rounds, t).up.state in {Closed, Open}
    decreases t
  {
    if t > 0 {
      SettledUpTo(buffer, w, rounds, t - 1);
      UsedUnsettled(buffer, w, rounds, t - 1);
      assert !ProbeUnsettled(buffer, w, rounds, t - 1);
    }
  }

  /** A request that finds the breaker closed or open leaves it half open, with its
      probe used, exactly when one of its rounds is granted the probe of an open
      breaker and neither fails nor succeeds: its key is rejected or limited, its
      client gives up, or the reply is passed through or incomplete. */
  lemma ProbeLeftUsed(buffer: bool, w: World, rounds: seq<Round>)
    requires w.up.state in {Closed, Open}
    ensures var end := Rounds(buffer, w, rounds).world.up;
            && (end.state == HalfOpen <==> exists t: nat :: ProbeUnsettled(buffer, w, rounds, t))
            && (end.state == HalfOpen ==> end.halfOpenProbed)
  {
    var n := |Trace(buffer, w, rounds)|;
    EndsAt(buffer, w, rounds);
    if t: nat :| ProbeUnsettled(buffer, w, rounds, t) {
      UnsettledUses(buffer, w, rounds, t);
      ProbeStaysUsed(buffer, w, rounds, t + 1, n);
    } else {
      SettledUpTo(buffer, w, rounds, n);
    }
  }

  // ----- what the client receives -----

  /** What a round with this event answers, given the keys that it leaves behind. */
  ghost function DueAnswers(buffer: bool, e: Event, end: Pool): seq<Answer> {
    match e
    case Denied => []
    case NoKey => [if AllPermanent(end) then ProxyError(503, AllKeysInvalid) else ProxyError(429, AllKeysCooling)]
    case Unbuilt(_) => [ProxyError(500, UpstreamError)]
    case Sent(_, r) =>
      match r.reply
      case TransportError(_) => []
      case Response(status, _, eventStream, body, readOk) =>
        if status in {401, 403, 429} then (if AllPermanent(end) then [ProxyError(503, AllKeysInvalid)] else [])
        else if 400 <= status < 500 || status == 501 then [Passed(status, body)]
        else if status >= 500 then []
        else if !eventStream then [Passed(status, if readOk then body else "")]
        else if !buffer then [Passed(status, Streamed(body))]
        else if readOk && IsCompleteStream(body) then [Passed(status, body)]
        else []
  }

  /** A round is done when it has an answer, or the client has given up. */
  ghost predicate AnswersAsDue(buffer: bool, o: Outcome) {
    && o.answers == DueAnswers(buffer, o.event, o.world.pool)
    && (o.done <==> o.answers != [] || Aborts(o.event))
  }

  lemma ResponseAnswers(buffer: bool, w: World, idx: nat, r: Round)
    requires idx < |w.pool.rows| && r.reply.Response? && r.reply.status !in {401, 403, 429}
    ensures AnswersAsDue(buffer, OnReply(buffer, w, idx, r))
  {
    KindsAre(r.reply.status);
  }

  lemma RateLimitedAnswers(buffer: bool, w: World, idx: nat, r: Round)
    requires idx < |w.pool.rows| && r.reply.Response?
    ensures var o := OnRateLimited(w, idx, r);
            && o.event == Sent(idx, r)
            && o.answers == (if AllPermanent(o.world.pool) then [ProxyError(503, AllKeysInvalid)] else [])
            && (o.done <==> o.answers != [])
  {
    NoneActive(RateLimitedPool(w.pool, idx, r).rows);
  }

  lemma AuthRejectedAnswers(buffer: bool, w: World, idx: nat, r: Round)
    requires idx < |w.pool.rows|
    ensures var o := OnAuthRejected(w, idx, r);
            && o.event == Sent(idx, r)
            && o.answers == (if AllPermanent(o.world.pool) then [ProxyError(503, AllKeysInvalid)] else [])
            && (o.done <==> o.answers != [])
  {
    NoneActive(AuthRejectedPool(w.pool, idx, r).rows);
  }

  lemma ReplyAnswers(buffer: bool, w: World, idx: nat, r: Round)
    requires idx < |w.pool.rows|
    ensures AnswersAsDue(buffer, OnReply(buffer, w, idx, r))
  {
    if r.reply.Response? && r.reply.status == 429 {
      RateLimitedAnswers(buffer, w, idx, r);
    } else if r.reply.Response? && r.reply.status in {401, 403} {
      AuthRejectedAnswers(buffer, w, idx, r);
    } else if r.reply.Response? {
      ResponseAnswers(buffer, w, idx, r);
    }
  }

  lemma RoundAnswers(buffer: bool, w: World, r: Round)
    ensures AnswersAsDue(buffer, OnRound(buffer, w, r))
  {
    NoneActive(w.pool.rows);
    if w.up.Grants(r.allowAt) && w.pool.SelectedKey(r.selectAt).Some? && r.buildOk {
      var idx := w.pool.SelectedKey(r.selectAt).value;
      var selected := World(w.pool.Selected(r.selectAt), w.up.Asked(r.allowAt), w.stored);
      ReplyAnswers(buffer, selected, idx, r);
      assert OnRound(buffer, w, r) == OnReply(buffer, selected, idx, r);
    }
  }

  /** The whole answer of a request, status codes and bodies included, is that due
      to its last event; when nothing is due and the client has not given up, it is
      that the retries are exhausted. */
  lemma {:induction false} AnswerIs(buffer: bool, w: World, rounds: seq<Round>)
    ensures var answers, trace := Rounds(buffer, w, rounds).answers, Trace(buffer, w, rounds);
            if trace == [] then answers == [ProxyError(503, ExhaustedRetries)]
            else
              var due := DueAnswers(buffer, LastOf(trace), Rounds(buffer, w, rounds).world.pool);
              answers == if due != [] || Aborts(LastOf(trace)) then due else [ProxyError(503, ExhaustedRetries)]
    decreases |rounds|
  {
    if rounds != [] {
      var o := OnRound(buffer, w, rounds[0]);
      RoundAnswers(buffer, w, rounds[0]);
      TraceUnfolds(buffer, w, rounds);
      if !o.done {
        AnswerIs(buffer, o.world, rounds[1..]);
        LastOfCons(o.event, Trace(buffer, o.world, rounds[1..]));
      }
    }
  }

  /** A request that ends with a response below 400 which is no event stream passes
      its status and body on, or an empty body if it could not be read. */
  lemma PlainResponsesArePassed(buffer: bool, w: World, rounds: seq<Round>)
    requires Trace(buffer, w, rounds) != [] && LastOf(Trace(buffer, w, rounds)).Sent?
    requires var reply := LastOf(Trace(buffer, w, rounds)).round.reply;
             reply.Response? && reply.status < 400 && !reply.eventStream
    ensures var reply := LastOf(Trace(buffer, w, rounds)).round.reply;
            Rounds(buffer, w, rounds).answers ==
            [Passed(reply.status, if reply.bodyReadOk then reply.body else "")]
  {
    AnswerIs(buffer, w, rounds);
  }

  /** A request that ends with a client error other than 401, 403 and 429, or with a
      501, passes its status and body on. */
  lemma ClientErrorsArePassed(buffer: bool, w: World, rounds: seq<Round>)
    requires Trace(buffer, w, rounds) != [] && LastOf(Trace(buffer, w, rounds)).Sent?
    requires var reply := LastOf(Trace(buffer, w, rounds)).round.reply;
             reply.Response? && reply.status !in {401, 403, 429} && (400 <= reply.status < 500 || reply.status == 501)
    ensures var reply := LastOf(Trace(buffer, w, rounds)).round.reply;
            Rounds(buffer, w, rounds).answers == [Passed(reply.status, reply.body)]
  {
    AnswerIs(buffer, w, rounds);
  }

  /** The round brought a response below 400 that is an event stream. */
  predicate EventStreamTaken(e: Event) {
    e.Sent? && e.round.reply.Response? && e.round.reply.status < 400 && e.round.reply.eventStream
  }

  /** The client gets the status of the reply and a complete stream, or an empty
      one outside buffer mode; in buffer mode, the very stream of the reply. */
  ghost predicate StreamAnswered(buffer: bool, reply: Reply, answers: seq<Answer>)
    requires reply.Response?
  {
    && |answers| == 1 && answers[0].Passed? && answers[0].status == reply.status
    && (IsCompleteStream(answers[0].body) || (!buffer && answers[0].body == ""))
    && (buffer ==> answers[0].body == reply.body)
  }

  lemma StreamRoundIsComplete(buffer: bool, w: World, r: Round)
    requires OnRound(buffer, w, r).done && EventStreamTaken(OnRound(buffer, w, r).event)
    ensures var o := OnRound(buffer, w, r);
            StreamAnswered(buffer, o.event.round.reply, o.answers)
  {
    RoundShape(buffer, w, r);
    ClientStreamIsComplete(r.reply.body);
  }

  /** A client whose request ends in a committed event stream receives a complete
      stream. In buffer mode it is the upstream's own; otherwise it may have been
      completed by an error and a stop event, or be empty if the upstream's first
      line was missing or too long. */
  lemma {:induction false} CommittedStreamsAreComplete(buffer: bool, w: World, rounds: seq<Round>)
    requires Trace(buffer, w, rounds) != [] && EventStreamTaken(LastOf(Trace(buffer, w, rounds)))
    ensures Rounds(buffer, w, rounds).answers == [EXHAUSTED] ||
            StreamAnswered(buffer, LastOf(Trace(buffer, w, rounds)).round.reply, Rounds(buffer, w, rounds).answers)
    decreases |rounds|
  {
    var o := OnRound(buffer, w, rounds[0]);
    TraceUnfolds(buffer, w, rounds);
    if o.done {
      StreamRoundIsComplete(buffer, w, rounds[0]);
    } else if Trace(buffer, o.world, rounds[1..]) != [] {
      CommittedStreamsAreComplete(buffer, o.world, rounds[1..]);
    }
  }
}
