/** One request among others. Between the points where a round touches shared
    state (asking the upstream breaker, selecting a key, handling the reply)
    other requests, health checks and administrators may change that state in any
    way, up to replacing the pool. A round remembers the key it selected by
    position only: at its reply there may be another key at that position, or
    none, and then the program may stop the request with a run-time error.
    `MarkFallsOnSelected` and `AmidOthers` say exactly when. */
module ExecutorInterleaving {
  import opened Common
  import opened KeyBreaker
  import opened PoolModel
  import opened Executor
  import opened ExecutorRuns
  import opened Rotation
  import PoolRuns
  import Up = UpstreamBreakerRuns
  import UpstreamBreaker

  /** The shared state that a round finds at each of its three points. */
  datatype Found = Found(asking: World, selecting: World, replying: World)

  /** What a round does, and whether a run-time error stops it at its end. */
  datatype Turn = Turn(outcome: Outcome, crashed: bool)

  /** A reply to a request whose position is no longer in the pool. Recording a
      failure, a success or a release there has no effect. But after a 429, 401 or
      403 the program reads the missing breaker before it answers, and after a
      commit it counts the request in the missing history. */
  ghost function OnGone(buffer: bool, w: World, idx: nat, r: Round): Turn
    requires idx >= |w.pool.rows|
  {
    var event := Sent(idx, r);
    match r.reply
    case TransportError(canceled) =>
      if CategorizeError(canceled) == ClientAbort then Turn(Outcome(w, event, true, []), false)
      else Turn(Outcome(w.(up := w.up.Failed(r.recordAt)), event, false, []), false)
    case Response(status, _, _, body, _) =>
      match KindOf(status)
      case RateLimited | AuthRejected => Turn(Outcome(w, event, true, []), true)
      case ServerError => Turn(Outcome(w.(up := w.up.Failed(r.recordAt)), event, false, []), false)
      case PassThrough => Turn(Outcome(w, event, true, [Passed(status, body)]), false)
      case Successful =>
        if !Commits(buffer, r.reply) then Turn(Outcome(w, event, false, []), false)
        else
          Turn(Outcome(w.(up := w.up.Succeeded()), event, true, [Passed(status, ClientBody(buffer, r.reply))]), true)
  }

  /** One round, given the state that it finds. */
  ghost function RoundAmid(buffer: bool, f: Found, r: Round): Turn {
    if !f.asking.up.Grants(r.allowAt) then
      Turn(Outcome(f.asking.(up := f.asking.up.Asked(r.allowAt)), Denied, false, []), false)
    else match f.selecting.pool.SelectedKey(r.selectAt)
      case None =>
        Turn(Outcome(f.selecting, NoKey, true,
                     [if ActiveCount(f.selecting.pool.rows) == 0 then ALL_INVALID else ALL_COOLING]), false)
      case Some(idx) =>
        if !r.buildOk then
          Turn(Outcome(f.selecting.(pool := f.selecting.pool.Selected(r.selectAt)), Unbuilt(idx), true,
                       [ProxyError(500, UpstreamError)]), false)
        else if idx < |f.replying.pool.rows| then Turn(OnReply(buffer, f.replying, idx, r), false)
        else OnGone(buffer, f.replying, idx, r)
  }

  /** With nothing in between, this is the round of the executor. */
  lemma UndisturbedRound(buffer: bool, w: World, r: Round)
    ensures var asked := w.(up := w.up.Asked(r.allowAt));
            var f := Found(w, asked, asked.(pool := asked.pool.Selected(r.selectAt)));
            RoundAmid(buffer, f, r) == Turn(OnRound(buffer, w, r), false)
  {
  }

  /** What each round does, given the state that it finds. */
  ghost function Due(buffer: bool, found: seq<Found>, rounds: seq<Round>): seq<Turn>
    requires |found| == |rounds|
  {
    seq(|rounds|, i requires 0 <= i < |rounds| == |found| => RoundAmid(buffer, found[i], rounds[i]))
  }

  /** What a request does: its answers and, round by round, its turns. */
  datatype Course = Course(answers: seq<Answer>, turns: seq<Turn>)

  /** The retry loop: rounds follow one another until one is done. */
  function CourseOf(due: seq<Turn>): Course {
    if due == [] then Course([EXHAUSTED], [])
    else if due[0].outcome.done then Course(due[0].outcome.answers, [due[0]])
    else
      var rest := CourseOf(due[1..]);
      rest.(turns := [due[0]] + rest.turns)
  }

  /** The rounds that take place are the first ones due, up to and including the
      first that is done; that one answers, or the retries are exhausted. */
  lemma {:induction false} CourseEndsWithFirstDone(due: seq<Turn>)
    ensures var c := CourseOf(due); var n := |c.turns|;
            && n <= |due| && c.turns == due[..n]
            && (forall t :: 0 <= t < n - 1 ==> !due[t].outcome.done)
            && (if n > 0 && due[n - 1].outcome.done then c.answers == due[n - 1].outcome.answers
                else n == |due| && c.answers == [EXHAUSTED])
  {
    if due != [] && !due[0].outcome.done {
      CourseEndsWithFirstDone(due[1..]);
    }
  }

  // ----- what every round keeps -----

  /** The client gave up, or a run-time error came before the answer: after a 429,
      401 or 403, and not after a commit. */
  predicate Unanswered(t: Turn) {
    var e := t.outcome.event;
    Aborts(e) || (t.crashed && e.Sent? && e.round.reply.Response? && e.round.reply.status >= 400)
  }

  /** A round that is not done answers nothing; one that is done answers once, or
      not at all exactly when it is unanswered. */
  ghost predicate AnswersOnce(t: Turn) {
    var o := t.outcome;
    && (!o.done ==> o.answers == [])
    && (o.done ==> |o.answers| == if Unanswered(t) then 0 else 1)
    && (Unanswered(t) || t.crashed ==> o.done)
    && o.answers != [EXHAUSTED]
  }

  /** A send needs the grant that the round got when it asked and a key that
      allowed a request when it was selected. */
  ghost predicate LicensedAmid(f: Found, r: Round, e: Event)
    requires e.Sent?
  {
    && e.round == r
    && f.asking.up.Grants(r.allowAt)
    && f.selecting.pool.SelectedKey(r.selectAt) == Some(e.idx)
    && e.idx < |f.selecting.pool.rows|
    && f.selecting.pool.rows[e.idx].breaker.Allows(r.selectAt)
  }

  /** A reply changes the key breakers that it finds at most at the position that
      was selected, there by its own mark; if the position is gone, nothing in the
      pool or the store changes. */
  ghost predicate MarksPosition(buffer: bool, w: World, o: Outcome)
    requires o.event.Sent?
  {
    var bs := Breakers(w.pool);
    && (o.event.idx >= |bs| ==> o.world.pool == w.pool && o.world.stored == w.stored)
    && Breakers(o.world.pool) ==
       match MarkOf(buffer, o.event)
       case Some(m) => if m.idx < |bs| then bs[m.idx := MarkedBreaker(bs[m.idx], m)] else bs
       case None => bs
  }

  /** A run-time error happens exactly when the position is gone and the reply
      counts for a key; the upstream is counted or credited in any case. */
  ghost predicate GoodReply(buffer: bool, w: World, t: Turn)
    requires t.outcome.event.Sent?
  {
    var e := t.outcome.event;
    && (t.crashed <==> e.idx >= |w.pool.rows| && MarkOf(buffer, e).Some?)
    && MarksPosition(buffer, w, t.outcome)
    && t.outcome.world.up == Up.Run(w.up, UpstreamOps(buffer, e.round, e)[1..])
  }

  ghost predicate GoodTurn(buffer: bool, f: Found, r: Round, t: Turn) {
    var o := t.outcome;
    && AnswersOnce(t)
    && (if o.event.Sent? then LicensedAmid(f, r, o.event) && GoodReply(buffer, f.replying, t) else !t.crashed)
    && o.answers == (if Unanswered(t) then [] else DueAnswers(buffer, o.event, o.world.pool))
    && (!t.crashed ==> CodesMeanWhatTheySay(o.world, o.event, r, o.answers))
  }

  /** The outcome that a send reports to the upstream breaker. */
  lemma SettledOps(buffer: bool, u: UpstreamBreaker.Upstream, idx: nat, r: Round)
    ensures var ops := UpstreamOps(buffer, r, Sent(idx, r))[1..];
            match r.reply
            case TransportError(canceled) => Up.Run(u, ops) == if canceled then u else u.Failed(r.recordAt)
            case Response(status, _, _, _, _) =>
              Up.Run(u, ops) == if status >= 500 && status != 501 then u.Failed(r.recordAt)
                                else if status < 400 && Commits(buffer, r.reply) then u.Succeeded()
                                else u
  {
    var ops := UpstreamOps(buffer, r, Sent(idx, r))[1..];
    RunOne(u, Up.Failure(r.recordAt));
    RunOne(u, Up.Success);
    assert ops == [] || ops == [Up.Failure(r.recordAt)] || ops == [Up.Success];
  }

  lemma ReplyIsGood(buffer: bool, w: World, idx: nat, r: Round)
    requires idx < |w.pool.rows|
    ensures var t := Turn(OnReply(buffer, w, idx, r), false);
            t.outcome.event == Sent(idx, r) && AnswersOnce(t) && GoodReply(buffer, w, t)
  {
    ReplyShape(buffer, w, idx, r);
    ReplyMarks(buffer, w, idx, r);
    ReplyUpstream(buffer, w, idx, r);
    SettledOps(buffer, w.up, idx, r);
  }

  lemma GoneIsGood(buffer: bool, w: World, idx: nat, r: Round)
    requires idx >= |w.pool.rows|
    ensures var t := OnGone(buffer, w, idx, r);
            && t.outcome.event == Sent(idx, r) && AnswersOnce(t) && GoodReply(buffer, w, t)
            && t.outcome.answers ==
               (if Unanswered(t) then [] else DueAnswers(buffer, t.outcome.event, t.outcome.world.pool))
  {
    SettledOps(buffer, w.up, idx, r);
  }

  lemma RoundAmidIsGood(buffer: bool, f: Found, r: Round)
    ensures GoodTurn(buffer, f, r, RoundAmid(buffer, f, r))
  {
    PoolRuns.SelectFindsAllowed(f.selecting.pool, r.selectAt);
    NoneActive(f.selecting.pool.rows);
    if f.asking.up.Grants(r.allowAt) && f.selecting.pool.SelectedKey(r.selectAt).Some? && r.buildOk {
      var idx := f.selecting.pool.SelectedKey(r.selectAt).value;
      if idx < |f.replying.pool.rows| {
        ReplyCodes(buffer, f.replying, idx, r);
        ReplyAnswers(buffer, f.replying, idx, r);
        ReplyIsGood(buffer, f.replying, idx, r);
        assert RoundAmid(buffer, f, r) == Turn(OnReply(buffer, f.replying, idx, r), false);
      } else {
        GoneIsGood(buffer, f.replying, idx, r);
        assert RoundAmid(buffer, f, r) == OnGone(buffer, f.replying, idx, r);
      }
    }
  }

  lemma DueIsGood(buffer: bool, found: seq<Found>, rounds: seq<Round>)
    requires |found| == |rounds|
    ensures forall t :: 0 <= t < |rounds| ==>
              GoodTurn(buffer, found[t], rounds[t], Due(buffer, found, rounds)[t])
  {
    forall t | 0 <= t < |rounds|
      ensures GoodTurn(buffer, found[t], rounds[t], Due(buffer, found, rounds)[t])
    {
      RoundAmidIsGood(buffer, found[t], rounds[t]);
    }
  }

  /** Whatever others do meanwhile: a request is answered exactly once, or not at
      all exactly when its client aborts or a run-time error follows a 429, 401 or
      403; it takes at most one round per retry, and all of them before it answers
      that they are exhausted; every send is licensed; a run-time error happens
      exactly when a reply that counts for a key finds its position gone; every
      round marks at most the position it selected, as its reply deserves, and the
      upstream as its reply deserves; the answer is the one that is due; and the
      error codes hold of the state in which they are decided. */
  lemma AmidOthers(buffer: bool, found: seq<Found>, rounds: seq<Round>)
    requires |found| == |rounds|
    ensures var c := CourseOf(Due(buffer, found, rounds)); var n := |c.turns|;
            && n <= |rounds|
            && |c.answers| == (if n > 0 && Unanswered(c.turns[n - 1]) then 0 else 1)
            && (c.answers == [EXHAUSTED] ==> n == |rounds|)
            && (forall t :: 0 <= t < n - 1 ==> !c.turns[t].crashed)
            && (forall t :: 0 <= t < n ==> GoodTurn(buffer, found[t], rounds[t], c.turns[t]))
  {
    CourseEndsWithFirstDone(Due(buffer, found, rounds));
    DueIsGood(buffer, found, rounds);
  }

  // ----- whom the mark of a round falls on -----

  /** The pool operations that others performed between the selection and the
      reply of a round. */
  ghost predicate RanBetween(f: Found, r: Round, between: seq<PoolRuns.Op>) {
    f.replying.pool == PoolRuns.Run(f.selecting.pool.Selected(r.selectAt), between)
  }

  /** The breaker of a key after a reply that marks it, or after one that does not. */
  ghost function Penalised(buffer: bool, b: Breaker, e: Event, hit: bool): Breaker {
    match MarkOf(buffer, e)
    case Some(m) => if hit then MarkedBreaker(b, m) else b
    case None => b
  }

  lemma ReplyAt(buffer: bool, w: World, idx: nat, r: Round, q: nat)
    requires idx < |w.pool.rows| && q < |w.pool.rows|
    ensures var o := OnReply(buffer, w, idx, r);
            && o.event == Sent(idx, r) && |o.world.pool.rows| == |w.pool.rows|
            && o.world.pool.rows[q].key == w.pool.rows[q].key
            && o.world.pool.rows[q].name == w.pool.rows[q].name
            && o.world.pool.rows[q].breaker == Penalised(buffer, w.pool.rows[q].breaker, o.event, q == idx)
  {
    var o := OnReply(buffer, w, idx, r);
    ReplyShape(buffer, w, idx, r);
    ReplyMarks(buffer, w, idx, r);
    ReplyKeepsKeys(buffer, w, idx, r);
    assert Breakers(o.world.pool)[q] == o.world.pool.rows[q].breaker;
    assert Breakers(w.pool)[q] == w.pool.rows[q].breaker;
  }

  /** The same for any reply, also one that finds its position gone. */
  lemma AmidAt(buffer: bool, f: Found, r: Round, q: nat)
    requires RoundAmid(buffer, f, r).outcome.event.Sent? && q < |f.replying.pool.rows|
    ensures var o := RoundAmid(buffer, f, r).outcome;
            var before, after := f.replying.pool.rows, o.world.pool.rows;
            && f.selecting.pool.SelectedKey(r.selectAt) == Some(o.event.idx)
            && |after| == |before| && after[q].key == before[q].key && after[q].name == before[q].name
            && after[q].breaker == Penalised(buffer, before[q].breaker, o.event, q == o.event.idx)
  {
    var idx := f.selecting.pool.SelectedKey(r.selectAt).value;
    if idx < |f.replying.pool.rows| {
      ReplyAt(buffer, f.replying, idx, r, q);
      assert RoundAmid(buffer, f, r) == Turn(OnReply(buffer, f.replying, idx, r), false);
    } else {
      GoneIsGood(buffer, f.replying, idx, r);
      assert RoundAmid(buffer, f, r) == OnGone(buffer, f.replying, idx, r);
    }
  }

  /** The key that a round selected, if it is still in the pool, receives the
      mark of its reply exactly when no key at or before its position was removed
      in between; otherwise its breaker stays as the others left it. A position is
      only ever gone after such a removal. */
  lemma MarkFallsOnSelected(buffer: bool, f: Found, r: Round, between: seq<PoolRuns.Op>)
    requires RanBetween(f, r, between)
    requires RoundAmid(buffer, f, r).outcome.event.Sent?
    ensures var o := RoundAmid(buffer, f, r).outcome; var idx := o.event.idx;
            var start, before, after := f.selecting.pool, f.replying.pool, o.world.pool;
            && idx < |start.rows|
            && (idx >= |before.rows| ==> !PoolRuns.RemovesNoneUpTo(between, idx))
            && match PoolRuns.Place(start.Selected(r.selectAt), between, idx)
               case Some(q) =>
                 && q < |before.rows| == |after.rows|
                 && (q == idx <==> PoolRuns.RemovesNoneUpTo(between, idx))
                 && after.rows[q].key == start.rows[idx].key
                 && after.rows[q].name == start.rows[idx].name
                 && after.rows[q].breaker == Penalised(buffer, before.rows[q].breaker, o.event, q == idx)
               case None => !PoolRuns.RemovesNoneUpTo(between, idx)
  {
    var idx := f.selecting.pool.SelectedKey(r.selectAt).value;
    var p := f.selecting.pool.Selected(r.selectAt);
    assert p.rows == f.selecting.pool.rows;
    RoundAmidIsGood(buffer, f, r);
    PoolRuns.PlaceKeptExactly(p, between, idx);
    if PoolRuns.Place(p, between, idx).Some? {
      PoolRuns.PlaceHoldsKey(p, between, idx);
      AmidAt(buffer, f, r, PoolRuns.Place(p, between, idx).value);
    }
  }

  /** Three keys, of which the first is permanently disabled. */
  function FirstShut(): seq<Row> {
    [NewRow("A", "A").(breaker := New(0, 0, 0.0, 0).Disabled("manual")), NewRow("B", "B"), NewRow("C", "C")]
  }

  lemma SecondSelected(rows: seq<Row>)
    requires |rows| > 1 && Permanently(rows[0]) && rows[1].breaker.state == Closed
    ensures var p := Pool(rows, 0, 0, "polling");
            p.SelectedKey(0) == Some(1) && p.Selected(0).rows == rows
  {
    var p := Pool(rows, 0, 0, "polling");
    var ok := p.Allowing(0);
    assert !ok[0] && ok[1];
    assert CyclicFirst(ok, 0, 1) == Some(1);
    assert p.pollingIndex % |rows| == 0;
  }

  lemma RunRemove(p: Pool, i: int)
    ensures PoolRuns.Run(p, [PoolRuns.Remove(i)]) == p.Removed(i)
  {
    assert [PoolRuns.Remove(i)][..0] == [];
    assert PoolRuns.Run(p, []) == p;
  }

  /** Key 1 of these rows is selected, and key 0 is removed before the reply. */
  function FirstRemoved(rows: seq<Row>): Found {
    var w := World(Pool(rows, 0, 0, "polling"), UpstreamBreaker.New(5, 30), []);
    Found(w, w, w.(pool := PoolRuns.Run(w.pool.Selected(0), [PoolRuns.Remove(0)])))
  }

  /** Without that condition: a round selects B, since A is disabled; A is removed
      before the reply, a 401, arrives. C, which was not used, is disabled for it,
      and B is not touched. */
  lemma WrongKeyDisabled(buffer: bool, r: Round)
    requires r.allowAt == r.selectAt == 0 && r.buildOk && r.reply.Response? && r.reply.status == 401
    ensures var t := RoundAmid(buffer, FirstRemoved(FirstShut()), r); var o := t.outcome;
            && !t.crashed && o.event == Sent(1, r) && |o.world.pool.rows| == 2
            && o.world.pool.rows[0] == FirstShut()[1]
            && o.world.pool.rows[1].key == "C" && Permanently(o.world.pool.rows[1])
  {
    var p := Pool(FirstShut(), 0, 0, "polling");
    SecondSelected(FirstShut());
    RunRemove(p.Selected(0), 0);
    AuthRejectedRow(p.Selected(0).Removed(0), 1, r);
    MarkKeeps(NewRow("C", "C").breaker, Rejection(1, r));
  }

  /** And if B is the last key, the 401 is never answered: the request ends in a
      run-time error, and B, now the only key, is not touched. */
  lemma ReplyBehindTheEnd(buffer: bool, r: Round)
    requires r.allowAt == r.selectAt == 0 && r.buildOk && r.reply.Response? && r.reply.status == 401
    ensures var t := RoundAmid(buffer, FirstRemoved(FirstShut()[..2]), r); var o := t.outcome;
            && t.crashed && o.done && o.answers == [] && o.event == Sent(1, r)
            && o.world.pool.rows == [FirstShut()[1]]
  {
    var p := Pool(FirstShut()[..2], 0, 0, "polling");
    SecondSelected(FirstShut()[..2]);
    RunRemove(p.Selected(0), 0);
  }
}
