/** The background tasks that touch the breakers: the periodic probe of
    disabled keys and the active health check of the upstream. */
module Lifecycle {
  import opened Common
  import opened KeyBreaker
  import opened PoolModel
  import opened PoolRuns
  import opened Provider
  import opened UpstreamBreaker
  import KeyBreakerRuns
  import KeyPool
  import KeyEntries
  import Up = UpstreamBreakerRuns

  /** What one tick of the probe makes of a row, given the answer to its key. */
  function ProbedRow(row: Row, status: Option<int>): Row {
    if Probeable(row.breaker) && status == Some(200) then row.(breaker := row.breaker.Cleared()) else row
  }

  /** The pool after the first n turns of a tick. */
  function Ticked(p: Pool, statuses: seq<Option<int>>, n: nat): Pool
    requires |statuses| == |p.rows|
  {
    p.(rows := seq(|p.rows|, i requires 0 <= i < |p.rows| =>
      if i < n then ProbedRow(p.rows[i], statuses[i]) else p.rows[i]))
  }

  /** A turn is one probe step of the pool, and touches its own key only. */
  lemma TickedStep(p: Pool, statuses: seq<Option<int>>, n: nat)
    requires |statuses| == |p.rows| && n < |p.rows|
    ensures Ticked(p, statuses, 0) == p
    ensures Ticked(p, statuses, n).rows[n] == p.rows[n]
    ensures Ticked(p, statuses, n + 1) == Probed(Ticked(p, statuses, n), n, statuses[n])
  {
    assert Ticked(p, statuses, 0).rows == p.rows;
    assert Ticked(p, statuses, n + 1).rows == Probed(Ticked(p, statuses, n), n, statuses[n]).rows;
  }

  /** One tick of the probe: statuses[i] is the answer for key i, or none if the
      request could not be built or sent. Each key's turn is one atomic step. */
  method ProbeTick(pool: KeyPool.KeyPool, statuses: seq<Option<int>>)
    requires pool.Valid() && |statuses| == |pool.keys|
    modifies pool.cbs
    ensures pool.Valid()
    ensures var p, q := old(pool.Value()), pool.Value();
            && q == p.(rows := q.rows) && |q.rows| == |p.rows|
            && forall i :: 0 <= i < |p.rows| ==> q.rows[i] == ProbedRow(p.rows[i], statuses[i])
  {
    ghost var p := pool.Value();
    for i := 0 to |pool.keys|
      invariant pool.Valid() && pool.Value() == Ticked(p, statuses, i)
    {
      TickedStep(p, statuses, i);
      if pool.cbs[i].state != Permanent {
        continue;
      }
      var reason := pool.cbs[i].trippedReason;
      if reason != "quota_exhausted" && reason != "preserved" {
        continue;
      }
      if statuses[i] == Some(200) {
        var _ := pool.Enable(i);
      }
    }
  }

  /** One health check: any answer below 500 counts as a success. */
  method HealthCheck(up: UpstreamCircuitBreaker, status: Option<int>, now: Time)
    modifies up
    ensures up.Value() ==
            Up.Step(old(up.Value()), if status.Some? && status.value < 500 then Up.Success else Up.Failure(now))
  {
    if status.Some? && status.value < 500 {
      up.RecordSuccess();
    } else {
      up.RecordFailure(now);
    }
  }

  /** A health check always resolves a used probe: the breaker closes, or it
      reopens and grants a new probe once the reset timeout has passed. */
  lemma HealthCheckResolvesProbe(u: Upstream, status: Option<int>, now: Time, later: Time)
    requires u.state == HalfOpen
    ensures var op := if status.Some? && status.value < 500 then Up.Success else Up.Failure(now);
            var after := Up.Step(u, op);
            && after.state != HalfOpen
            && (after.Grants(later) <==> op == Up.Success || later > now + u.resetTimeout)
  {
  }

  /** The probe asks about keys disabled for exhausted quota or for a reason lost in
      a reconfiguration; an answer of 200 lets them start over, and nothing else
      changes anything. */
  lemma ProbeMeans(row: Row, status: Option<int>)
    ensures var after := ProbedRow(row, status);
            var b := row.breaker;
            if b.state == Permanent && b.reason in {"quota_exhausted", "preserved"} && status == Some(200) then
              && after == row.(breaker := after.breaker)
              && KeyBreakerRuns.StartsOver(after.breaker) && after.breaker.reason == ""
            else after == row
  {
  }

  /** From every reachable pool, a tick of the probe re-enables exactly the keys
      that were disabled for exhausted quota and answered 200. */
  lemma TickRevivesExhausted(keys: seq<string>, names: seq<string>, draw: Word, ops: seq<Op>,
                             i: nat, status: Option<int>)
    requires i < |Run(NewPool(keys, names, draw), ops).rows|
    ensures var row := Run(NewPool(keys, names, draw), ops).rows[i];
            Permanently(row) && !Permanently(ProbedRow(row, status)) <==>
            row.breaker.reason == "quota_exhausted" && status == Some(200)
    ensures var row := Run(NewPool(keys, names, draw), ops).rows[i];
            Permanently(row) && Permanently(ProbedRow(row, status)) ==> ProbedRow(row, status) == row
  {
    PoolStaysCoherent(keys, names, draw, ops);
  }

  // ----- probing and reloading -----

  /** A probe goes on with the pool that it was started with, also after a reload
      has installed a new one: a tick then changes the old pool only. */
  method TickAfterReload(ps: ProviderState, cfg: Config, insecure: seq<KeyEntries.KeyEntry>, draw: Word,
                         statuses: seq<Option<int>>)
    requires ps.pool.Valid() && |statuses| == |ps.pool.keys|
    modifies ps`config, ps`pool, ps.pool.cbs
    ensures ps.pool != old(ps.pool) && ps.pool.Valid()
    ensures ps.pool.Value() == Reloaded(cfg, ps.stored, insecure, draw)
    ensures old(ps.pool).Valid()
    ensures var p, q := old(ps.pool.Value()), old(ps.pool).Value();
            && q == p.(rows := q.rows) && |q.rows| == |p.rows|
            && forall i :: 0 <= i < |p.rows| ==> q.rows[i] == ProbedRow(p.rows[i], statuses[i])
  {
    var probed := ps.pool;
    ps.ReloadConfig(cfg, insecure, draw);
    ProbeTick(probed, statuses);
  }

  lemma ReloadedIsCoherent(cfg: Config, store: seq<KeyEntries.KeyEntry>, insecure: seq<KeyEntries.KeyEntry>,
                           draw: Word)
    ensures AllCoherent(Reloaded(cfg, store, insecure, draw))
  {
  }

  /** So no tick reaches the pool of a reload. A key of it that is disabled, at the
      reload or at any point of any later run, stays disabled from there on until
      it is enabled by hand or removed, even if it was given up for exhausted
      quota. */
  lemma ReloadEndsProbing(cfg: Config, store: seq<KeyEntries.KeyEntry>, insecure: seq<KeyEntries.KeyEntry>,
                          draw: Word, before: seq<Op>, ops: seq<Op>, pos: nat)
    requires forall i :: 0 <= i < |before| ==> !before[i].Probe?
    requires forall i :: 0 <= i < |ops| ==> !ops[i].Probe?
    requires var q := Run(Reloaded(cfg, store, insecure, draw), before);
             pos < |q.rows| && Permanently(q.rows[pos]) && Track(q, ops, pos).Some?
    ensures var q := Run(Reloaded(cfg, store, insecure, draw), before);
            var at, r := Track(q, ops, pos).value, Run(q, ops);
            && at < |r.rows| && Permanently(r.rows[at]) && r.rows[at].key == q.rows[pos].key
  {
    ReloadedIsCoherent(cfg, store, insecure, draw);
    RunStaysCoherent(Reloaded(cfg, store, insecure, draw), before);
    DisablementStays(Run(Reloaded(cfg, store, insecure, draw), before), ops, pos);
  }

  /** A reload also forgets why a key was disabled: even a probe started on the
      new pool would not reach a key that was given up for exhausted quota, saved
      and reloaded. */
  lemma ReloadForgetsReason(p: Pool, cfg: Config, insecure: seq<KeyEntries.KeyEntry>, draw: Word,
                            ops: seq<Op>, pos: nat)
    requires pos < |p.rows| && Permanently(p.rows[pos])
    requires Track(Reloaded(cfg, Persisted(p), insecure, draw), ops, pos).Some?
    ensures var q := Reloaded(cfg, Persisted(p), insecure, draw);
            var at, r := Track(q, ops, pos).value, Run(q, ops);
            && at < |r.rows| && Permanently(r.rows[at]) && !Probeable(r.rows[at].breaker)
            && r.rows[at].key == p.rows[pos].key
  {
    PersistThenReload(p, cfg, insecure, draw);
    ManualDisablementStays(Reloaded(cfg, Persisted(p), insecure, draw), ops, pos);
  }
}
