/** The retry executor: up to MaxRetries rounds, each of which asks the upstream
    breaker, selects a key, sends the request and dispatches on the reply. */
module Executor {
  import opened Common
  import opened Decimal
  import opened KeyEntries
  import opened KeyBreaker
  import opened PoolModel
  import opened Sse
  import opened UpstreamBreaker
  import opened Provider
  import KeyPool

  // ----- replies and answers -----

  /** What a send brings back: a transport error, or a response whose body may
      break off while it is read. */
  datatype Reply =
    | TransportError(canceled: bool)
    | Response(status: int, retryAfter: string, eventStream: bool, body: string, bodyReadOk: bool)

  /** Everything one round takes from the outside: clock readings, the random
      draw for jitter, whether the request could be built, the reply, and
      whether a save of the keys succeeds. */
  datatype Round = Round(
    allowAt: Time,
    selectAt: Time,
    buildOk: bool,
    reply: Reply,
    recordAt: Time,
    coolAt: Time,
    countAt: Time,
    draw: nat,
    saveOk: bool)

  datatype ErrorCode = BadRequest | UpstreamError | AllKeysInvalid | AllKeysCooling | ExhaustedRetries

  /** What the client is sent: an error of the proxy, or an upstream response. */
  datatype Answer =
    | ProxyError(status: int, code: ErrorCode)
    | Passed(status: int, body: string)

  class ResponseWriter {
    var answers: seq<Answer>

    constructor ()
      ensures answers == []
    {
      answers := [];
    }

    method Write(a: Answer)
      modifies this
      ensures answers == old(answers) + [a]
    {
      answers := answers + [a];
    }
  }

  // ----- dispatch -----

  datatype Category = Retryable | NonRetryable | ClientAbort

  function CategorizeStatus(status: int): Category {
    if status in {400, 405, 406, 413, 414, 415, 422, 501} then NonRetryable else Retryable
  }

  function CategorizeError(canceled: bool): Category {
    if canceled then ClientAbort else Retryable
  }

  datatype Kind = RateLimited | AuthRejected | ServerError | PassThrough | Successful

  /** The cases of the dispatch, in the order in which they are tried. */
  function KindOf(status: int): Kind {
    if status == 429 then RateLimited
    else if status == 401 || status == 403 then AuthRejected
    else if status == 502 || status == 503 then ServerError
    else if 400 <= status < 500 || CategorizeStatus(status) == NonRetryable then PassThrough
    else if status >= 500 then ServerError
    else Successful
  }

  /** A successful response reaches the client unless it is a buffered event
      stream that turns out to be incomplete. */
  ghost predicate Commits(buffer: bool, reply: Reply)
    requires reply.Response?
  {
    buffer && reply.eventStream ==> reply.bodyReadOk && IsCompleteStream(reply.body)
  }

  ghost function ClientBody(buffer: bool, reply: Reply): string
    requires reply.Response?
  {
    if !reply.eventStream then (if reply.bodyReadOk then reply.body else "")
    else if buffer then reply.body
    else Streamed(reply.body)
  }

  /** The cooldown after a 429: the breaker's own, or the delay the upstream asks
      for plus two seconds when that is longer. */
  function CooldownFor(own: Duration, retryAfter: string): Duration {
    match Atoi(retryAfter)
    case Some(secs) => if (secs + 2) * SECOND > own then (secs + 2) * SECOND else own
    case None => own
  }

  // ----- one round on values -----

  datatype World = World(pool: Pool, up: Upstream, stored: seq<KeyEntry>)

  /** What happened in a round. */
  datatype Event = Denied | NoKey | Unbuilt(idx: nat) | Sent(idx: nat, round: Round)

  datatype Outcome = Outcome(world: World, event: Event, done: bool, answers: seq<Answer>)

  function OwnCooldown(p: Pool, idx: nat, draw: nat): Duration
    requires idx < |p.rows|
  {
    var b := p.rows[idx].breaker;
    b.FailureCooldown(DefaultJitter(b.RawBackoff(), draw))
  }

  function RateLimitedPool(p: Pool, idx: nat, r: Round): (after: Pool)
    requires idx < |p.rows| && r.reply.Response?
    ensures |after.rows| == |p.rows|
  {
    p.Failed(idx, r.recordAt, r.draw)
    .Cooled(idx, r.coolAt, CooldownFor(OwnCooldown(p, idx, r.draw), r.reply.retryAfter))
  }

  function AuthRejectedPool(p: Pool, idx: nat, r: Round): (after: Pool)
    requires idx < |p.rows|
    ensures |after.rows| == |p.rows|
  {
    if p.rows[idx].breaker.AuthLimit()
    then p.AuthFailed(idx, r.recordAt).Disabled(idx)
    else p.AuthFailed(idx, r.recordAt)
  }

  const ALL_INVALID := ProxyError(503, AllKeysInvalid)
  const ALL_COOLING := ProxyError(429, AllKeysCooling)
  const EXHAUSTED := ProxyError(503, ExhaustedRetries)

  function OnRateLimited(w: World, idx: nat, r: Round): Outcome
    requires idx < |w.pool.rows| && r.reply.Response?
  {
    var pool := RateLimitedPool(w.pool, idx, r);
    var world, event := w.(pool := pool), Sent(idx, r);
    if Permanently(pool.rows[idx]) && ActiveCount(pool.rows) == 0
    then Outcome(world, event, true, [ALL_INVALID])
    else Outcome(world, event, false, [])
  }

  function OnAuthRejected(w: World, idx: nat, r: Round): Outcome
    requires idx < |w.pool.rows|
  {
    var pool := AuthRejectedPool(w.pool, idx, r);
    var stored := if w.pool.rows[idx].breaker.AuthLimit() && r.saveOk then Persisted(pool) else w.stored;
    var world, event := World(pool, w.up, stored), Sent(idx, r);
    if ActiveCount(pool.rows) == 0
    then Outcome(world, event, true, [ALL_INVALID])
    else Outcome(world, event, false, [])
  }

  ghost function OnSuccess(buffer: bool, w: World, idx: nat, r: Round): Outcome
    requires idx < |w.pool.rows| && r.reply.Response?
  {
    if !Commits(buffer, r.reply) then Outcome(w, Sent(idx, r), false, [])
    else
      Outcome(
        World(w.pool.Succeeded(idx).Incremented(idx, r.countAt), w.up.Succeeded(), w.stored),
        Sent(idx, r), true, [Passed(r.reply.status, ClientBody(buffer, r.reply))])
  }

  function OnTransportError(w: World, idx: nat, r: Round): Outcome
    requires idx < |w.pool.rows| && r.reply.TransportError?
  {
    var released := w.(pool := w.pool.Released(idx));
    if CategorizeError(r.reply.canceled) == ClientAbort then Outcome(released, Sent(idx, r), true, [])
    else Outcome(released.(up := w.up.Failed(r.recordAt)), Sent(idx, r), false, [])
  }

  ghost function OnResponse(buffer: bool, w: World, idx: nat, r: Round): Outcome
    requires idx < |w.pool.rows| && r.reply.Response?
  {
    match KindOf(r.reply.status)
    case RateLimited => OnRateLimited(w, idx, r)
    case AuthRejected => OnAuthRejected(w, idx, r)
    case ServerError => Outcome(w.(up := w.up.Failed(r.recordAt)), Sent(idx, r), false, [])
    case PassThrough => Outcome(w, Sent(idx, r), true, [Passed(r.reply.status, r.reply.body)])
    case Successful => OnSuccess(buffer, w, idx, r)
  }

  /** From the moment a key has been selected and the request was sent. */
  ghost function OnReply(buffer: bool, w: World, idx: nat, r: Round): Outcome
    requires idx < |w.pool.rows|
  {
    if r.reply.TransportError? then OnTransportError(w, idx, r) else OnResponse(buffer, w, idx, r)
  }

  ghost function OnSelected(buffer: bool, w: World, r: Round): Outcome {
    match w.pool.SelectedKey(r.selectAt)
    case None =>
      Outcome(w, NoKey, true, [if ActiveCount(w.pool.rows) == 0 then ALL_INVALID else ALL_COOLING])
    case Some(idx) =>
      var selected := w.(pool := w.pool.Selected(r.selectAt));
      if !r.buildOk then Outcome(selected, Unbuilt(idx), true, [ProxyError(500, UpstreamError)])
      else OnReply(buffer, selected, idx, r)
  }

  ghost function OnRound(buffer: bool, w: World, r: Round): Outcome {
    var asked := w.(up := w.up.Asked(r.allowAt));
    if !w.up.Grants(r.allowAt) then Outcome(asked, Denied, false, [])
    else OnSelected(buffer, asked, r)
  }

  // ----- all rounds -----

  datatype Result = Result(world: World, answers: seq<Answer>, trace: seq<Event>)

  ghost function Rounds(buffer: bool, w: World, rounds: seq<Round>): Result
    decreases |rounds|
  {
    if rounds == [] then Result(w, [EXHAUSTED], [])
    else
      var o := OnRound(buffer, w, rounds[0]);
      if o.done then Result(o.world, o.answers, [o.event])
      else
        var rest := Rounds(buffer, o.world, rounds[1..]);
        rest.(trace := [o.event] + rest.trace)
  }

  // ----- the executor on objects -----

  ghost predicate Ready(ps: ProviderState)
    reads ps, ps.pool
  {
    ps.pool.Valid()
  }

  ghost function WorldOf(ps: ProviderState): World
    requires Ready(ps)
    reads ps, ps.pool, ps.pool.cbs, ps.upCB
  {
    World(ps.pool.Value(), ps.upCB.Value(), ps.stored)
  }

  /** The provider still consists of the same objects. */
  twostate predicate SameObjects(ps: ProviderState)
    reads ps, ps.pool
  {
    && ps.pool == old(ps.pool)
    && ps.config == old(ps.config)
    && ps.pool.cbs == old(ps.pool.cbs)
  }

  /** Backs the key off, and cools it for longer if the upstream asks for it. */
  method BackOff(pool: KeyPool.KeyPool, idx: nat, r: Round)
    requires pool.Valid() && idx < |pool.keys| && r.reply.Response?
    modifies pool.cbs
    ensures pool.Valid() && pool.Value() == RateLimitedPool(old(pool.Value()), idx, r)
  {
    var cooldown := pool.RecordFailure(idx, r.recordAt, r.draw);
    if r.reply.retryAfter != "" {
      var secs := Atoi(r.reply.retryAfter);
      if secs.Some? {
        var raDuration := (secs.value + 2) * SECOND;
        if raDuration > cooldown {
          cooldown := raDuration;
        }
      }
    }
    var _ := pool.Cooldown(idx, r.coolAt, cooldown);
  }

  method AnswerIfNoneLeft(ps: ProviderState, w: ResponseWriter) returns (done: bool)
    requires Ready(ps)
    modifies w
    ensures done == (ActiveCount(ps.pool.Value().rows) == 0)
    ensures w.answers == if done then old(w.answers) + [ALL_INVALID] else old(w.answers)
  {
    var active := ps.pool.CountActive();
    if active == 0 {
      w.Write(ALL_INVALID);
      return true;
    }
    return false;
  }

  method AnswerIfDisabledLast(ps: ProviderState, w: ResponseWriter, idx: nat) returns (done: bool)
    requires Ready(ps) && idx < |ps.pool.keys|
    modifies w
    ensures done == (Permanently(ps.pool.Value().rows[idx]) && ActiveCount(ps.pool.Value().rows) == 0)
    ensures w.answers == if done then old(w.answers) + [ALL_INVALID] else old(w.answers)
  {
    var disabled := ps.pool.IsDisabled(idx);
    if !disabled {
      return false;
    }
    done := AnswerIfNoneLeft(ps, w);
  }

  /** Handles a 429; true when no key is left and the answer has been written. */
  method HandleRateLimited(ps: ProviderState, w: ResponseWriter, idx: nat, r: Round) returns (done: bool)
    requires Ready(ps) && idx < |ps.pool.keys| && r.reply.Response?
    modifies ps.pool.cbs, w
    ensures Ready(ps) && SameObjects(ps)
    ensures var o := OnRateLimited(old(WorldOf(ps)), idx, r);
            WorldOf(ps) == o.world && done == o.done && w.answers == old(w.answers) + o.answers
  {
    BackOff(ps.pool, idx, r);
    done := AnswerIfDisabledLast(ps, w, idx);
  }

  /** Counts the rejection and, at the limit, disables the key. */
  method DisableAtLimit(pool: KeyPool.KeyPool, idx: nat, r: Round) returns (disabled: bool)
    requires pool.Valid() && idx < |pool.keys|
    modifies pool.cbs
    ensures pool.Valid() && pool.Value() == AuthRejectedPool(old(pool.Value()), idx, r)
    ensures disabled == old(pool.Value()).rows[idx].breaker.AuthLimit()
  {
    disabled := pool.RecordAuthFailure(idx, r.recordAt);
    if disabled {
      var _ := pool.Disable(idx);
    }
  }

  /** Counts the rejection; a key that it disables is saved as disabled. */
  method Reject(ps: ProviderState, idx: nat, r: Round)
    requires Ready(ps) && idx < |ps.pool.keys|
    modifies ps`stored, ps.pool.cbs
    ensures Ready(ps) && SameObjects(ps)
    ensures ps.pool.Value() == AuthRejectedPool(old(ps.pool.Value()), idx, r)
    ensures ps.stored == if old(ps.pool.Value()).rows[idx].breaker.AuthLimit() && r.saveOk
                         then Persisted(ps.pool.Value()) else old(ps.stored)
  {
    var disabled := DisableAtLimit(ps.pool, idx, r);
    if disabled {
      ps.PersistKeys(r.saveOk);
    }
  }

  /** Handles a 401 or 403; true when no key is left and the answer has been
      written. */
  method HandleAuthRejected(ps: ProviderState, w: ResponseWriter, idx: nat, r: Round) returns (done: bool)
    requires Ready(ps) && idx < |ps.pool.keys|
    modifies ps`stored, ps.pool.cbs, w
    ensures Ready(ps) && SameObjects(ps)
    ensures var o := OnAuthRejected(old(WorldOf(ps)), idx, r);
            WorldOf(ps) == o.world && done == o.done && w.answers == old(w.answers) + o.answers
  {
    Reject(ps, idx, r);
    done := AnswerIfNoneLeft(ps, w);
  }

  /** Credits the key and the upstream, answers, and counts the request. */
  method Commit(ps: ProviderState, w: ResponseWriter, idx: nat, r: Round, body: string)
    requires Ready(ps) && idx < |ps.pool.keys| && r.reply.Response?
    modifies ps.pool, ps.pool.cbs, ps.upCB, w
    ensures Ready(ps) && SameObjects(ps) && ps.stored == old(ps.stored)
    ensures ps.pool.Value() == old(ps.pool.Value()).Succeeded(idx).Incremented(idx, r.countAt)
    ensures ps.upCB.Value() == old(ps.upCB.Value()).Succeeded()
    ensures w.answers == old(w.answers) + [Passed(r.reply.status, body)]
  {
    ps.pool.RecordSuccess(idx);
    ps.upCB.RecordSuccess();
    w.Write(Passed(r.reply.status, body));
    ps.pool.IncrementRequestCount(idx, r.countAt);
  }

  /** What is written when nothing is buffered: an event stream line by line, any
      other body if it could be read. */
  method BodyForClient(reply: Reply) returns (body: string)
    requires reply.Response?
    ensures body == ClientBody(false, reply)
  {
    body := "";
    if reply.eventStream {
      var injected;
      body, injected := StreamSSE(reply.body);
    } else if reply.bodyReadOk {
      body := reply.body;
    }
  }

  /** Handles a status below 400; false when a buffered stream was incomplete and
      the round should be retried. */
  method HandleSuccess(ps: ProviderState, w: ResponseWriter, idx: nat, r: Round) returns (done: bool)
    requires Ready(ps) && idx < |ps.pool.keys| && r.reply.Response?
    modifies ps.pool, ps.pool.cbs, ps.upCB, w
    ensures Ready(ps) && SameObjects(ps)
    ensures var o := OnSuccess(ps.config.bufferMode, old(WorldOf(ps)), idx, r);
            WorldOf(ps) == o.world && done == o.done && w.answers == old(w.answers) + o.answers
  {
    if ps.config.bufferMode && r.reply.eventStream {
      var complete := CheckComplete(r.reply.body);
      if !r.reply.bodyReadOk || !complete {
        return false;
      }
      Commit(ps, w, idx, r, r.reply.body);
      return true;
    }
    var body := BodyForClient(r.reply);
    Commit(ps, w, idx, r, body);
    return true;
  }

  /** A transport error frees the key and counts against the upstream, unless the
      client has given up. */
  method HandleTransportError(ps: ProviderState, idx: nat, r: Round) returns (done: bool)
    requires Ready(ps) && idx < |ps.pool.keys| && r.reply.TransportError?
    modifies ps.pool, ps.upCB
    ensures Ready(ps) && SameObjects(ps)
    ensures var o := OnTransportError(old(WorldOf(ps)), idx, r);
            WorldOf(ps) == o.world && done == o.done && o.answers == []
  {
    ps.pool.Release(idx);
    if CategorizeError(r.reply.canceled) == ClientAbort {
      return true;
    }
    ps.upCB.RecordFailure(r.recordAt);
    return false;
  }

  /** Dispatches on the status of a response. */
  method HandleResponse(ps: ProviderState, w: ResponseWriter, idx: nat, r: Round) returns (done: bool)
    requires Ready(ps) && idx < |ps.pool.keys| && r.reply.Response?
    modifies ps`stored, ps.pool, ps.pool.cbs, ps.upCB, w
    ensures Ready(ps) && SameObjects(ps)
    ensures var o := OnResponse(ps.config.bufferMode, old(WorldOf(ps)), idx, r);
            WorldOf(ps) == o.world && done == o.done && w.answers == old(w.answers) + o.answers
  {
    var status := r.reply.status;
    if status == 429 {
      done := HandleRateLimited(ps, w, idx, r);
    } else if status == 401 || status == 403 {
      done := HandleAuthRejected(ps, w, idx, r);
    } else if status == 502 || status == 503 {
      ps.upCB.RecordFailure(r.recordAt);
      done := false;
    } else if 400 <= status < 500 || CategorizeStatus(status) == NonRetryable {
      w.Write(Passed(status, r.reply.body));
      done := true;
    } else if status >= 500 {
      ps.upCB.RecordFailure(r.recordAt);
      done := false;
    } else {
      done := HandleSuccess(ps, w, idx, r);
    }
  }

  /** Handles what the request sent with key idx brought back. */
  method HandleReply(ps: ProviderState, w: ResponseWriter, idx: nat, r: Round) returns (done: bool)
    requires Ready(ps) && idx < |ps.pool.keys|
    modifies ps`stored, ps.pool, ps.pool.cbs, ps.upCB, w
    ensures Ready(ps) && SameObjects(ps)
    ensures var o := OnReply(ps.config.bufferMode, old(WorldOf(ps)), idx, r);
            WorldOf(ps) == o.world && done == o.done && w.answers == old(w.answers) + o.answers
  {
    if r.reply.TransportError? {
      done := HandleTransportError(ps, idx, r);
    } else {
      done := HandleResponse(ps, w, idx, r);
    }
  }

  lemma {:induction false} NoneActive(rows: seq<Row>)
    ensures ActiveCount(rows) == 0 <==> forall i :: 0 <= i < |rows| ==> Permanently(rows[i])
  {
    if rows != [] {
      NoneActive(rows[..|rows| - 1]);
    }
  }

  method AnswerNoKey(ps: ProviderState, w: ResponseWriter)
    requires Ready(ps)
    modifies w
    ensures w.answers == old(w.answers) +
              [if ActiveCount(ps.pool.Value().rows) == 0 then ALL_INVALID else ALL_COOLING]
  {
    var any := ps.pool.AnyActive();
    NoneActive(ps.pool.Value().rows);
    if !any {
      w.Write(ALL_INVALID);
    } else {
      w.Write(ALL_COOLING);
    }
  }

  method SelectAndSend(ps: ProviderState, w: ResponseWriter, r: Round) returns (done: bool)
    requires Ready(ps)
    modifies ps`stored, ps.pool, ps.pool.cbs, ps.upCB, w
    ensures Ready(ps) && SameObjects(ps)
    ensures var o := OnSelected(ps.config.bufferMode, old(WorldOf(ps)), r);
            WorldOf(ps) == o.world && done == o.done && w.answers == old(w.answers) + o.answers
  {
    var idx, key, ok := ps.pool.SelectKey(r.selectAt);
    if !ok {
      AnswerNoKey(ps, w);
      return true;
    }
    if !r.buildOk {
      w.Write(ProxyError(500, UpstreamError));
      return true;
    }
    done := HandleReply(ps, w, idx, r);
  }

  /** One round of the retry loop. */
  method RunRound(ps: ProviderState, w: ResponseWriter, r: Round) returns (done: bool)
    requires Ready(ps)
    modifies ps`stored, ps.pool, ps.pool.cbs, ps.upCB, w
    ensures Ready(ps) && SameObjects(ps)
    ensures var o := OnRound(ps.config.bufferMode, old(WorldOf(ps)), r);
            WorldOf(ps) == o.world && done == o.done && w.answers == old(w.answers) + o.answers
  {
    var granted := ps.upCB.Allow(r.allowAt);
    if !granted {
      return false;
    }
    done := SelectAndSend(ps, w, r);
  }

  ghost function Rest(buffer: bool, w: World, rounds: seq<Round>): (World, seq<Answer>) {
    (Rounds(buffer, w, rounds).world, Rounds(buffer, w, rounds).answers)
  }

  lemma RestStep(buffer: bool, w: World, rounds: seq<Round>, i: nat)
    requires i < |rounds|
    ensures var o := OnRound(buffer, w, rounds[i]);
            Rest(buffer, w, rounds[i..]) ==
            if o.done then (o.world, o.answers) else Rest(buffer, o.world, rounds[i + 1..])
    ensures var o := OnRound(buffer, w, rounds[i]); !o.done ==> o.answers == []
  {
    assert rounds[i..][1..] == rounds[i + 1..];
  }

  /** The retry loop; running out of rounds is an answer of its own. */
  method Retry(ps: ProviderState, w: ResponseWriter, rounds: seq<Round>)
    requires Ready(ps)
    modifies ps`stored, ps.pool, ps.pool.cbs, ps.upCB, w
    ensures Ready(ps) && SameObjects(ps)
    ensures var res := Rounds(ps.config.bufferMode, old(WorldOf(ps)), rounds);
            WorldOf(ps) == res.world && w.answers == old(w.answers) + res.answers
  {
    ghost var buffer := ps.config.bufferMode;
    ghost var all := Rounds(buffer, WorldOf(ps), rounds);
    for round := 0 to |rounds|
      invariant Ready(ps) && SameObjects(ps) && w.answers == old(w.answers)
      invariant Rest(buffer, WorldOf(ps), rounds[round..]) == (all.world, all.answers)
    {
      ghost var before := WorldOf(ps);
      RestStep(buffer, before, rounds, round);
      var done := RunRound(ps, w, rounds[round]);
      if done {
        return;
      }
    }
    w.Write(EXHAUSTED);
  }

  /** The whole request. `bodyOk` says whether the client's body could be read;
      round number i takes its input from rounds[i]. */
  method Execute(ps: ProviderState, w: ResponseWriter, bodyOk: bool, rounds: seq<Round>)
    requires Ready(ps) && |rounds| >= ps.config.maxRetries
    modifies ps`stored, ps.pool, ps.pool.cbs, ps.upCB, w
    ensures Ready(ps) && SameObjects(ps)
    ensures !bodyOk ==>
              WorldOf(ps) == old(WorldOf(ps)) && w.answers == old(w.answers) + [ProxyError(400, BadRequest)]
    ensures bodyOk ==>
              var res := Rounds(ps.config.bufferMode, old(WorldOf(ps)), rounds[..Max(0, ps.config.maxRetries)]);
              WorldOf(ps) == res.world && w.answers == old(w.answers) + res.answers
  {
    if !bodyOk {
      w.Write(ProxyError(400, BadRequest));
      return;
    }
    Retry(ps, w, rounds[..Max(0, ps.config.maxRetries)]);
  }
}
