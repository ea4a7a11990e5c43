/** A provider's runtime state: its key pool, its upstream breaker, the store
    that its keys are saved to, and the reload of its configuration. */
module Provider {
  import opened Common
  import opened KeyEntries
  import opened KeyBreaker
  import opened PoolModel
  import opened KeyStore
  import KeyBreakerRuns
  import KeyPool
  import UpstreamBreaker

  datatype Config = Config(
    keys: seq<string>,
    keyNames: seq<string>,
    cooldownSec: int,
    backoffCapSec: int,
    backoffMultiplier: real,
    upstreamCBThreshold: int,
    cbResetSec: int,
    keySelection: string,
    maxRetries: int,
    bufferMode: bool)

  function OrDefault(v: int, d: int): int {
    if v <= 0 then d else v
  }

  /** The entries that PersistKeys writes: one per key of the pool, in order,
      with no trace of deleted entries. */
  function Persisted(p: Pool): seq<KeyEntry> {
    seq(|p.rows|, i requires 0 <= i < |p.rows| =>
      KeyEntry(p.rows[i].key, p.rows[i].name, Permanently(p.rows[i]), false))
  }

  /** The configuration after the stored keys, if any, have replaced its own. */
  function WithStoredKeys(cfg: Config, live: seq<KeyEntry>): Config {
    if live == [] then cfg else cfg.(keys := KeysOf(live), keyNames := NamesOf(live))
  }

  /** Disables by name. */
  function Restored(p: Pool, names: seq<string>): Pool {
    p.(rows := seq(|p.rows|, i requires 0 <= i < |p.rows| =>
      if p.rows[i].name in names
      then p.rows[i].(breaker := p.rows[i].breaker.Disabled("manual")) else p.rows[i]))
  }

  /** A new pool of the configured keys, with the configured breakers. */
  function Built(c: Config, draw: Word): Pool {
    NewPool(c.keys, c.keyNames, draw).(mode := c.keySelection)
    .Configured(c.cooldownSec * SECOND, c.backoffCapSec * SECOND, c.backoffMultiplier)
  }

  /** The pool that a reload builds. */
  function Reloaded(cfg: Config, store: seq<KeyEntry>, insecure: seq<KeyEntry>, draw: Word): Pool {
    Restored(Built(WithStoredKeys(cfg, LiveEntries(Merged(store, insecure))), draw), DisabledNames(store))
  }

  /** Disables by one name, among the first n rows. */
  function RestoredTo(p: Pool, name: string, n: nat): Pool {
    p.(rows := seq(|p.rows|, i requires 0 <= i < |p.rows| =>
      if i < n && p.rows[i].name == name
      then p.rows[i].(breaker := p.rows[i].breaker.Disabled("manual")) else p.rows[i]))
  }

  lemma RestoredToStep(p: Pool, name: string, n: nat)
    requires n < |p.rows|
    ensures RestoredTo(p, name, n + 1) ==
            if p.rows[n].name == name then RestoredTo(p, name, n).Disabled(n) else RestoredTo(p, name, n)
  {
    assert RestoredTo(p, name, n + 1).rows ==
           if p.rows[n].name == name then RestoredTo(p, name, n).Disabled(n).rows else RestoredTo(p, name, n).rows;
  }

  lemma RestoredToEnds(p: Pool, name: string)
    ensures RestoredTo(p, name, 0) == p
    ensures RestoredTo(p, name, |p.rows|) == Restored(p, [name])
  {
    assert RestoredTo(p, name, 0).rows == p.rows;
    assert RestoredTo(p, name, |p.rows|).rows == Restored(p, [name]).rows;
  }

  lemma RestoredSnoc(p: Pool, names: seq<string>, k: nat)
    requires k < |names|
    ensures Restored(Restored(p, names[..k]), [names[k]]) == Restored(p, names[..k + 1])
  {
    assert names[..k + 1] == names[..k] + [names[k]];
    assert Restored(Restored(p, names[..k]), [names[k]]).rows == Restored(p, names[..k + 1]).rows;
  }

  class ProviderState {
    var config: Config
    var pool: KeyPool.KeyPool
    const upCB: UpstreamBreaker.UpstreamCircuitBreaker
    var stored: seq<KeyEntry>

    /** Sets up the breakers of the pool and of the upstream, replacing
        parameters that are not positive by defaults. */
    constructor (cfg: Config, pool: KeyPool.KeyPool, stored: seq<KeyEntry>)
      requires pool.Valid()
      modifies pool
      ensures config == cfg && this.pool == pool && this.stored == stored
      ensures fresh(upCB) && pool.Valid() && fresh(pool.cbs)
      ensures pool.Value() ==
              old(pool.Value()).Configured(
                cfg.cooldownSec * SECOND, OrDefault(cfg.backoffCapSec, 120) * SECOND,
                if cfg.backoffMultiplier <= 0.0 then 2.0 else cfg.backoffMultiplier)
              .(mode := cfg.keySelection)
      ensures upCB.Value() ==
              UpstreamBreaker.New(OrDefault(cfg.upstreamCBThreshold, 5), OrDefault(cfg.cbResetSec, 30) * SECOND)
    {
      config, this.pool, this.stored := cfg, pool, stored;
      upCB := new UpstreamBreaker.UpstreamCircuitBreaker(
        OrDefault(cfg.upstreamCBThreshold, 5), OrDefault(cfg.cbResetSec, 30) * SECOND);
      new;
      var multiplier := if cfg.backoffMultiplier <= 0.0 then 2.0 else cfg.backoffMultiplier;
      pool.ConfigureCBs(cfg.cooldownSec * SECOND, OrDefault(cfg.backoffCapSec, 120) * SECOND, multiplier);
      pool.SetSelectionMode(cfg.keySelection);
    }

    /** Saves the keys of the pool; a failed save leaves the store as it was. */
    method PersistKeys(saveOk: bool)
      requires pool.Valid()
      modifies this`stored
      ensures stored == if saveOk then Persisted(pool.Value()) else old(stored)
    {
      var entries: seq<KeyEntry> := [];
      ghost var p := pool.Value();
      for i := 0 to |pool.keys|
        invariant |entries| == i && stored == old(stored)
        invariant forall j :: 0 <= j < i ==> entries[j] == Persisted(p)[j]
      {
        var disabled := pool.IsDisabled(i);
        entries := entries + [KeyEntry(pool.keys[i], pool.names[i], disabled, false)];
      }
      assert entries == Persisted(p);
      if saveOk {
        stored := entries;
      }
    }

    static method BuildPool(c: Config, draw: Word) returns (pool: KeyPool.KeyPool)
      ensures fresh(pool) && pool.Valid() && fresh(pool.cbs)
      ensures pool.Value() == Built(c, draw)
    {
      pool := new KeyPool.KeyPool(c.keys, c.keyNames, draw);
      pool.SetSelectionMode(c.keySelection);
      pool.ConfigureCBs(c.cooldownSec * SECOND, c.backoffCapSec * SECOND, c.backoffMultiplier);
    }

    static method DisableNamed(pool: KeyPool.KeyPool, name: string)
      requires pool.Valid()
      modifies pool.cbs
      ensures pool.Valid() && pool.Value() == Restored(old(pool.Value()), [name])
    {
      ghost var p := pool.Value();
      RestoredToEnds(p, name);
      for i := 0 to |pool.keys|
        invariant pool.Valid() && pool.Value() == RestoredTo(p, name, i)
      {
        assert pool.names[i] == pool.Value().rows[i].name;
        RestoredToStep(p, name, i);
        if pool.names[i] == name {
          var _ := pool.Disable(i);
        }
      }
    }

    static method DisableByName(pool: KeyPool.KeyPool, disabledNames: seq<string>)
      requires pool.Valid()
      modifies pool.cbs
      ensures pool.Valid() && pool.Value() == Restored(old(pool.Value()), disabledNames)
    {
      ghost var p := pool.Value();
      assert Restored(p, disabledNames[..0]) == p;
      for k := 0 to |disabledNames|
        invariant pool.Valid() && pool.Value() == Restored(p, disabledNames[..k])
      {
        DisableNamed(pool, disabledNames[k]);
        RestoredSnoc(p, disabledNames, k);
      }
      assert disabledNames[..|disabledNames|] == disabledNames;
    }

    /** A pool of the configured keys with the named ones disabled. */
    static method RebuildPool(c: Config, draw: Word, disabledNames: seq<string>) returns (pool: KeyPool.KeyPool)
      ensures fresh(pool) && pool.Valid() && fresh(pool.cbs)
      ensures pool.Value() == Restored(Built(c, draw), disabledNames)
    {
      pool := BuildPool(c, draw);
      DisableByName(pool, disabledNames);
    }

    /** Replaces the configuration and rebuilds the pool from the store, merged
        with the plaintext file; keys whose name the store marks as disabled are
        disabled again. */
    method ReloadConfig(cfg: Config, insecure: seq<KeyEntry>, draw: Word)
      modifies this`config, this`pool
      ensures config == WithStoredKeys(cfg, LiveEntries(Merged(stored, insecure)))
      ensures fresh(pool) && pool.Valid() && fresh(pool.cbs)
      ensures pool.Value() == Reloaded(cfg, stored, insecure, draw)
    {
      var merged := MergeInsecureKeys(stored, insecure);
      var keys, names := KeysFromStore(merged);
      config := cfg;
      if |keys| > 0 {
        config := cfg.(keys := keys, keyNames := names);
      }
      assert config == WithStoredKeys(cfg, LiveEntries(merged));
      var disabledNames := LoadDisabledNames(stored);
      pool := RebuildPool(config, draw, disabledNames);
    }
  }

  // ----- what survives saving and reloading -----

  lemma {:induction false} AllLive(store: seq<KeyEntry>)
    requires forall i :: 0 <= i < |store| ==> !store[i].deleted
    ensures LiveEntries(store) == store
  {
    if store != [] {
      AllLive(store[..|store| - 1]);
    }
  }

  /** What the store holds live comes first, whatever is merged behind it. */
  lemma StoreComesFirst(store: seq<KeyEntry>, insecure: seq<KeyEntry>)
    ensures LiveEntries(store) <= LiveEntries(Merged(store, insecure))
  {
    var merged := Merged(store, insecure);
    MergeAddsMissing(store, insecure);
    LiveAppend(store, merged[|store|..]);
    assert merged == store + merged[|store|..];
  }

  lemma ReloadedRow(cfg: Config, live: seq<KeyEntry>, names: seq<string>, draw: Word, i: nat)
    requires i < |live|
    ensures var q := Restored(Built(WithStoredKeys(cfg, live), draw), names);
            && |q.rows| == |live|
            && q.rows[i].key == live[i].key && q.rows[i].name == live[i].name
            && (Permanently(q.rows[i]) <==> live[i].name in names)
            && (Permanently(q.rows[i]) ==> q.rows[i].breaker.reason == "manual")
  {
  }

  /** The pool that a reload builds holds every live entry of the store at the
      position that its store index maps to, whatever is merged behind. */
  lemma ReloadPlacesEntry(cfg: Config, store: seq<KeyEntry>, insecure: seq<KeyEntry>, draw: Word, idx: nat)
    requires idx < |store| && !store[idx].deleted
    ensures var q, k := Reloaded(cfg, store, insecure, draw), PoolIndex(store, idx);
            && k < |q.rows| && q.rows[k].key == store[idx].key && q.rows[k].name == store[idx].name
            && (Permanently(q.rows[k]) <==> store[idx].name in DisabledNames(store))
  {
    var live, k := LiveEntries(Merged(store, insecure)), PoolIndex(store, idx);
    PoolIndexFindsEntry(store, idx);
    StoreComesFirst(store, insecure);
    assert live[k] == LiveEntries(store)[k];
    ReloadedRow(cfg, live, DisabledNames(store), draw, k);
  }

  /** The reloaded pool begins with the keys of the saved one. */
  lemma ReloadedPrefix(p: Pool, cfg: Config, insecure: seq<KeyEntry>, draw: Word, i: nat)
    requires i < |p.rows|
    ensures var q, store := Reloaded(cfg, Persisted(p), insecure, draw), Persisted(p);
            && |q.rows| >= |p.rows|
            && q.rows[i].key == p.rows[i].key
            && q.rows[i].name == p.rows[i].name
            && (Permanently(q.rows[i]) <==> p.rows[i].name in DisabledNames(store))
            && (Permanently(q.rows[i]) ==> q.rows[i].breaker.reason == "manual")
  {
    var store := Persisted(p);
    var live := LiveEntries(Merged(store, insecure));
    StoreComesFirst(store, insecure);
    AllLive(store);
    assert live[i] == store[i];
    ReloadedRow(cfg, live, DisabledNames(store), draw, i);
  }

  /** Key i has the name of a permanently disabled key, perhaps itself. */
  ghost predicate SharesDisabledName(p: Pool, i: nat)
    requires i < |p.rows|
  {
    exists j :: 0 <= j < |p.rows| && Permanently(p.rows[j]) && p.rows[j].name == p.rows[i].name
  }

  lemma DisabledNamesPersisted(p: Pool, i: nat)
    requires i < |p.rows|
    ensures p.rows[i].name in DisabledNames(Persisted(p)) <==> SharesDisabledName(p, i)
  {
    var store := Persisted(p);
    DisabledNamesAre(store, p.rows[i].name);
    if j :| 0 <= j < |p.rows| && Permanently(p.rows[j]) && p.rows[j].name == p.rows[i].name {
      assert store[j].disabled && store[j].name == p.rows[i].name;
    }
  }

  /** No enabled key has the name of a permanently disabled one. */
  ghost predicate NamesSeparate(p: Pool) {
    forall i, j :: 0 <= i < |p.rows| && 0 <= j < |p.rows| && Permanently(p.rows[i]) && !Permanently(p.rows[j]) ==>
      p.rows[i].name != p.rows[j].name
  }

  lemma SeparateIff(p: Pool)
    ensures NamesSeparate(p) <==>
            forall i :: 0 <= i < |p.rows| ==> (SharesDisabledName(p, i) <==> Permanently(p.rows[i]))
  {
    forall i, j | 0 <= i < |p.rows| && 0 <= j < |p.rows| && Permanently(p.rows[i]) && p.rows[i].name == p.rows[j].name
      ensures SharesDisabledName(p, j)
    {
    }
  }

  /** Saving and reloading keeps every key and name in its place, whatever the
      plaintext file adds behind them. Every disabled key stays disabled, now
      for the reason "manual"; and no other saved key becomes disabled exactly
      when no enabled key shares its name with a disabled one. */
  lemma PersistThenReload(p: Pool, cfg: Config, insecure: seq<KeyEntry>, draw: Word)
    requires p.rows != []
    ensures var q := Reloaded(cfg, Persisted(p), insecure, draw);
            && |q.rows| >= |p.rows|
            && (forall i :: 0 <= i < |p.rows| ==>
                  q.rows[i].key == p.rows[i].key && q.rows[i].name == p.rows[i].name)
            && (forall i :: 0 <= i < |p.rows| && Permanently(p.rows[i]) ==>
                  Permanently(q.rows[i]) && q.rows[i].breaker.reason == "manual")
            && ((forall i :: 0 <= i < |p.rows| ==> (Permanently(q.rows[i]) <==> Permanently(p.rows[i])))
                <==> NamesSeparate(p))
  {
    var q := Reloaded(cfg, Persisted(p), insecure, draw);
    ReloadedPrefix(p, cfg, insecure, draw, 0);
    forall i | 0 <= i < |p.rows|
      ensures q.rows[i].key == p.rows[i].key && q.rows[i].name == p.rows[i].name
      ensures Permanently(q.rows[i]) <==> SharesDisabledName(p, i)
      ensures Permanently(q.rows[i]) ==> q.rows[i].breaker.reason == "manual"
    {
      ReloadedPrefix(p, cfg, insecure, draw, i);
      DisabledNamesPersisted(p, i);
    }
    SeparateIff(p);
  }

  /** With distinct names and no plaintext file, the saved and the reloaded pool
      have the same keys, names and disabled set. */
  lemma DistinctNamesRoundTrip(p: Pool, cfg: Config, draw: Word)
    requires p.rows != []
    requires forall i, j :: 0 <= i < j < |p.rows| ==> p.rows[i].name != p.rows[j].name
    ensures Persisted(Reloaded(cfg, Persisted(p), [], draw)) == Persisted(p)
  {
    PersistThenReload(p, cfg, [], draw);
    AllLive(Persisted(p));
    assert NamesSeparate(p);
    var q := Reloaded(cfg, Persisted(p), [], draw);
    assert |q.rows| == |p.rows|;
  }

  /** Saving an empty pool does not keep it empty: the keys of the configuration
      come back, all enabled. */
  lemma EmptyPoolRevives(p: Pool, cfg: Config, draw: Word)
    requires p.rows == []
    ensures var q := Reloaded(cfg, Persisted(p), [], draw);
            |q.rows| == |cfg.keys| && forall i :: 0 <= i < |q.rows| ==>
              q.rows[i].key == cfg.keys[i] && !Permanently(q.rows[i])
  {
    assert Persisted(p) == [];
  }

  /** Two keys without a name, of which the first is disabled. */
  function TwoUnnamed(): Pool {
    Pool([NewRow("k1", "").(breaker := New(0, 0, 0.0, 0).Disabled("manual")), NewRow("k2", "")], 0, 0, "polling")
  }

  /** Disablement is kept by name: after saving and reloading both are disabled. */
  lemma UnnamedShareDisablement(cfg: Config, draw: Word)
    ensures var q := Reloaded(cfg, Persisted(TwoUnnamed()), [], draw);
            && Permanently(TwoUnnamed().rows[0]) && !Permanently(TwoUnnamed().rows[1])
            && |q.rows| >= 2 && Permanently(q.rows[0]) && Permanently(q.rows[1])
  {
    var p := TwoUnnamed();
    assert p.rows[0].name == p.rows[1].name && Permanently(p.rows[0]);
    ReloadedPrefix(p, cfg, [], draw, 0);
    ReloadedPrefix(p, cfg, [], draw, 1);
    DisabledNamesPersisted(p, 0);
    DisabledNamesPersisted(p, 1);
  }

  // ----- what else a reload and a save hold -----

  /** A save writes, in order, each key of the pool with its name and whether it is
      permanently disabled; nothing is written as deleted. */
  lemma PersistedIs(p: Pool)
    ensures |Persisted(p)| == |p.rows|
    ensures forall i :: 0 <= i < |p.rows| ==>
              var e, row := Persisted(p)[i], p.rows[i];
              && e.key == row.key && e.name == row.name && !e.deleted
              && (e.disabled <==> row.breaker.state == State.Permanent)
  {
  }

  /** A reload takes over the whole new configuration, except that stored keys, if
      there are any, replace its keys and names. */
  lemma ConfigAfterReload(cfg: Config, live: seq<KeyEntry>)
    ensures var c := WithStoredKeys(cfg, live);
            && c == cfg.(keys := c.keys, keyNames := c.keyNames)
            && (live == [] ==> c == cfg)
            && (live != [] ==> |c.keys| == |live| == |c.keyNames| && forall i :: 0 <= i < |live| ==>
                  c.keys[i] == live[i].key && c.keyNames[i] == live[i].name)
  {
  }

  /** The pool of a reload selects as configured, from the first key on. Its keys
      have no past, and breakers with the configured base cooldown, cap and
      multiplier, given in seconds; only those disabled by name do not start over. */
  lemma ReloadedAsConfigured(cfg: Config, store: seq<KeyEntry>, insecure: seq<KeyEntry>, draw: Word)
    ensures var q := Reloaded(cfg, store, insecure, draw);
            && q.mode == cfg.keySelection && q.counter == draw && q.pollingIndex == 0
            && forall i :: 0 <= i < |q.rows| ==>
                 var row := q.rows[i];
                 && row.history == [] && !row.inUse && row.lastUsed == 0
                 && row.breaker.base == cfg.cooldownSec * 1_000_000_000
                 && row.breaker.backoffCap == cfg.backoffCapSec * 1_000_000_000
                 && row.breaker.multiplier == cfg.backoffMultiplier
                 && row.breaker.permaThreshold == 0
                 && (if row.name in DisabledNames(store)
                     then row.breaker.state == State.Permanent && row.breaker.reason == "manual"
                     else KeyBreakerRuns.StartsOver(row.breaker) && row.breaker.reason == "")
  {
  }

  /** Only a positive setting is taken as it is. */
  lemma DefaultsReplace(v: int, d: int)
    ensures v > 0 ==> OrDefault(v, d) == v
    ensures v <= 0 ==> OrDefault(v, d) == d
  {
  }

  // ----- which keys come back -----

  predicate PoolHas(p: Pool, key: string) {
    exists i :: 0 <= i < |p.rows| && p.rows[i].key == key
  }

  lemma ReloadedHas(cfg: Config, store: seq<KeyEntry>, insecure: seq<KeyEntry>, draw: Word, key: string)
    requires LiveEntries(Merged(store, insecure)) != []
    ensures PoolHas(Reloaded(cfg, store, insecure, draw), key) <==>
            HasKey(LiveEntries(Merged(store, insecure)), key)
  {
    var live := LiveEntries(Merged(store, insecure));
    var q := Reloaded(cfg, store, insecure, draw);
    assert |q.rows| == |live|;
    forall i | 0 <= i < |live|
      ensures q.rows[i].key == live[i].key
    {
      ReloadedRow(cfg, live, DisabledNames(store), draw, i);
    }
    if i :| 0 <= i < |live| && live[i].key == key {
      assert q.rows[i].key == key;
    }
  }

  lemma PersistedHas(p: Pool, key: string)
    ensures HasKey(Persisted(p), key) <==> PoolHas(p, key)
    ensures HasLive(Persisted(p), key) <==> PoolHas(p, key)
  {
    var store := Persisted(p);
    if i :| 0 <= i < |p.rows| && p.rows[i].key == key {
      assert store[i].key == key && !store[i].deleted;
    }
  }

  /** Saving forgets deleted entries. So after a save and a reload a key is in the
      pool exactly when it was in the saved pool or the plaintext file has it with
      its first entry undeleted. */
  lemma KeysAfterSaveAndReload(p: Pool, cfg: Config, insecure: seq<KeyEntry>, draw: Word, key: string)
    requires p.rows != []
    ensures PoolHas(Reloaded(cfg, Persisted(p), insecure, draw), key) <==>
            PoolHas(p, key) || FirstIsLive(insecure, key)
  {
    var store := Persisted(p);
    StoreComesFirst(store, insecure);
    AllLive(store);
    ReloadedHas(cfg, store, insecure, draw, key);
    MergedIsLive(store, insecure, key);
    PersistedHas(p, key);
  }

  /** A key that the store has deleted stays out of the pool for one reload. If the
      plaintext file has it with its first entry undeleted, the next save and
      reload bring it back. */
  lemma DeletedComesBack(cfg: Config, store: seq<KeyEntry>, insecure: seq<KeyEntry>, draw: Word,
                         later: Config, redraw: Word, key: string)
    requires HasKey(store, key) && !HasLive(store, key)
    requires LiveEntries(Merged(store, insecure)) != []
    ensures var first := Reloaded(cfg, store, insecure, draw);
            var second := Reloaded(later, Persisted(first), insecure, redraw);
            && !PoolHas(first, key)
            && (PoolHas(second, key) <==> FirstIsLive(insecure, key))
  {
    var first := Reloaded(cfg, store, insecure, draw);
    ReloadedHas(cfg, store, insecure, draw, key);
    MergedIsLive(store, insecure, key);
    assert |first.rows| == |LiveEntries(Merged(store, insecure))|;
    KeysAfterSaveAndReload(first, later, insecure, redraw, key);
  }

  lemma FirstReload(cfg: Config, draw: Word, gone: KeyEntry, kept: KeyEntry, plain: KeyEntry)
    requires gone.deleted && !gone.disabled && !kept.deleted && !kept.disabled && plain.key == gone.key
    ensures var first := Reloaded(cfg, [gone, kept], [plain], draw);
            |first.rows| == 1 && first.rows[0].key == kept.key && Persisted(first) == [kept]
  {
    var store := [gone, kept];
    assert store[0].key == plain.key;
    MergeOne(store, plain);
    assert store[..1] == [gone] && [gone][..0] == [];
    assert LiveEntries([gone]) == [] && LiveEntries(store) == [kept];
    assert DisabledNames([gone]) == [] && DisabledNames(store) == [];
    ReloadedRow(cfg, [kept], [], draw, 0);
  }

  /** Such a key comes back enabled: k is deleted in the store, and the plaintext file
      still has it. */
  lemma DeletedComesBackEnabled(cfg: Config, draw: Word)
    ensures var gone, kept := KeyEntry("k", "a", false, true), KeyEntry("l", "b", false, false);
            var insecure := [KeyEntry("k", "a", false, false)];
            var first := Reloaded(cfg, [gone, kept], insecure, draw);
            var second := Reloaded(cfg, Persisted(first), insecure, draw);
            && |first.rows| == 1 && first.rows[0].key == "l"
            && |second.rows| == 2 && second.rows[1].key == "k" && !Permanently(second.rows[1])
  {
    var gone, kept := KeyEntry("k", "a", false, true), KeyEntry("l", "b", false, false);
    var plain := KeyEntry("k", "a", false, false);
    FirstReload(cfg, draw, gone, kept, plain);
    MergeOne([kept], plain);
    AllLive([kept, plain]);
    assert [kept] + [plain] == [kept, plain] && [kept][..0] == [];
    assert DisabledNames([kept]) == [];
    ReloadedRow(cfg, [kept, plain], [], draw, 1);
  }
}
