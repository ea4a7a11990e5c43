/** The persisted key store and its relation to the rows of a pool. */
module KeyStore {
  import opened KeyEntries

  /** The entries that are loaded into a pool, in order. */
  function LiveEntries(store: seq<KeyEntry>): seq<KeyEntry> {
    if store == [] then []
    else
      var before := LiveEntries(store[..|store| - 1]);
      if store[|store| - 1].deleted then before else before + [store[|store| - 1]]
  }

  function KeysOf(entries: seq<KeyEntry>): seq<string> {
    seq(|entries|, i requires 0 <= i < |entries| => entries[i].key)
  }

  function NamesOf(entries: seq<KeyEntry>): seq<string> {
    seq(|entries|, i requires 0 <= i < |entries| => entries[i].name)
  }

  method KeysFromStore(store: seq<KeyEntry>) returns (keys: seq<string>, names: seq<string>)
    ensures keys == KeysOf(LiveEntries(store)) && names == NamesOf(LiveEntries(store))
  {
    keys, names := [], [];
    for i := 0 to |store|
      invariant keys == KeysOf(LiveEntries(store[..i])) && names == NamesOf(LiveEntries(store[..i]))
    {
      assert store[..i + 1][..i] == store[..i];
      if store[i].deleted {
        continue;
      }
      keys := keys + [store[i].key];
      names := names + [store[i].name];
    }
    assert store[..|store|] == store;
  }

  /** The names of disabled entries, deleted or not. */
  function DisabledNames(store: seq<KeyEntry>): seq<string> {
    if store == [] then []
    else
      var before := DisabledNames(store[..|store| - 1]);
      if store[|store| - 1].disabled then before + [store[|store| - 1].name] else before
  }

  method LoadDisabledNames(store: seq<KeyEntry>) returns (disabled: seq<string>)
    ensures disabled == DisabledNames(store)
  {
    disabled := [];
    for i := 0 to |store|
      invariant disabled == DisabledNames(store[..i])
    {
      assert store[..i + 1][..i] == store[..i];
      if store[i].disabled {
        disabled := disabled + [store[i].name];
      }
    }
    assert store[..|store|] == store;
  }

  lemma {:induction false} DisabledNamesAre(store: seq<KeyEntry>, name: string)
    ensures name in DisabledNames(store) <==>
            exists i :: 0 <= i < |store| && store[i].disabled && store[i].name == name
  {
    if store != [] {
      DisabledNamesAre(store[..|store| - 1], name);
    }
  }

  /** The names are listed in the order of their entries, disabled ones only. */
  lemma {:induction false} DisabledInOrder(a: seq<KeyEntry>, b: seq<KeyEntry>, e: KeyEntry)
    ensures DisabledNames(a + b) == DisabledNames(a) + DisabledNames(b)
    ensures DisabledNames([e]) == if e.disabled then [e.name] else []
  {
    assert [e][..0] == [];
    if b == [] {
      assert a + b == a;
    } else {
      assert (a + b)[..|a + b| - 1] == a + b[..|b| - 1];
      DisabledInOrder(a, b[..|b| - 1], e);
    }
  }

  // ----- store positions and pool positions -----

  function PoolIndex(store: seq<KeyEntry>, idx: nat): nat
    requires idx <= |store|
  {
    |LiveEntries(store[..idx])|
  }

  method StoreIndexToPoolIndex(store: seq<KeyEntry>, idx: nat) returns (poolIdx: nat)
    requires idx <= |store|
    ensures poolIdx == PoolIndex(store, idx)
  {
    poolIdx := 0;
    for i := 0 to idx
      invariant poolIdx == PoolIndex(store, i)
    {
      assert store[..i + 1][..i] == store[..i];
      if !store[i].deleted {
        poolIdx := poolIdx + 1;
      }
    }
  }

  lemma {:induction false} LiveAppend(a: seq<KeyEntry>, b: seq<KeyEntry>)
    ensures LiveEntries(a + b) == LiveEntries(a) + LiveEntries(b)
  {
    if b == [] {
      assert a + b == a;
    } else {
      assert (a + b)[..|a + b| - 1] == a + b[..|b| - 1];
      LiveAppend(a, b[..|b| - 1]);
    }
  }

  /** A live entry is loaded at the position that its store index maps to. */
  lemma PoolIndexFindsEntry(store: seq<KeyEntry>, idx: nat)
    requires idx < |store| && !store[idx].deleted
    ensures var k := PoolIndex(store, idx);
            k < |LiveEntries(store)| && LiveEntries(store)[k] == store[idx]
  {
    var low, high := store[..idx], store[idx + 1..];
    assert store == low + [store[idx]] + high;
    LiveAppend(low + [store[idx]], high);
    assert (low + [store[idx]])[..idx] == low;
  }

  lemma PoolIndexIncreases(store: seq<KeyEntry>, i: nat, j: nat)
    requires i < j <= |store| && !store[i].deleted
    ensures PoolIndex(store, i) < PoolIndex(store, j)
  {
    var low, mid := store[..i + 1], store[i + 1..j];
    assert store[..j] == low + mid;
    LiveAppend(low, mid);
    assert low[..i] == store[..i];
  }

  /** Every pool position belongs to exactly one live entry. */
  lemma {:induction false} PoolIndexOntoOnce(store: seq<KeyEntry>, k: nat) returns (idx: nat)
    requires k < |LiveEntries(store)|
    ensures idx < |store| && !store[idx].deleted && PoolIndex(store, idx) == k
    ensures forall j: nat :: j < |store| && !store[j].deleted && PoolIndex(store, j) == k ==> j == idx
  {
    var last := |store| - 1;
    var before := store[..last];
    if k < |LiveEntries(before)| {
      idx := PoolIndexOntoOnce(before, k);
      assert before[..idx] == store[..idx];
    } else {
      idx := last;
    }
    forall j: nat | j < |store| && !store[j].deleted && PoolIndex(store, j) == k
      ensures j == idx
    {
      if j < idx {
        PoolIndexIncreases(store, j, idx);
      } else if idx < j {
        PoolIndexIncreases(store, idx, j);
      }
    }
  }

  // ----- merging the plaintext file -----

  predicate HasKey(store: seq<KeyEntry>, key: string) {
    exists i :: 0 <= i < |store| && store[i].key == key
  }

  function Merged(store: seq<KeyEntry>, extra: seq<KeyEntry>): seq<KeyEntry> {
    if extra == [] then store
    else
      var before := Merged(store, extra[..|extra| - 1]);
      if HasKey(before, extra[|extra| - 1].key) then before else before + [extra[|extra| - 1]]
  }

  /** Appends the entries whose key the growing store lacks. */
  method MergeInsecureKeys(store: seq<KeyEntry>, insecure: seq<KeyEntry>) returns (merged: seq<KeyEntry>)
    ensures merged == Merged(store, insecure)
  {
    merged := store;
    for i := 0 to |insecure|
      invariant merged == Merged(store, insecure[..i])
    {
      assert insecure[..i + 1][..i] == insecure[..i];
      var found := false;
      for j := 0 to |merged|
        invariant !found && forall k :: 0 <= k < j ==> merged[k].key != insecure[i].key
      {
        if insecure[i].key == merged[j].key {
          found := true;
          break;
        }
      }
      if !found {
        merged := merged + [insecure[i]];
      }
    }
    assert insecure[..|insecure|] == insecure;
  }

  /** Merging keeps the store as it was, adds new keys only, each once, and
      leaves no key of the plaintext file out. */
  lemma {:induction false} MergeAddsMissing(store: seq<KeyEntry>, extra: seq<KeyEntry>)
    ensures |store| <= |Merged(store, extra)| && Merged(store, extra)[..|store|] == store
    ensures forall i, j :: 0 <= i < j < |Merged(store, extra)| && |store| <= j ==>
              Merged(store, extra)[i].key != Merged(store, extra)[j].key
    ensures forall i :: |store| <= i < |Merged(store, extra)| ==> Merged(store, extra)[i] in extra
    ensures forall e :: e in extra ==> HasKey(Merged(store, extra), e.key)
  {
    if extra != [] {
      var last := |extra| - 1;
      var before, after := Merged(store, extra[..last]), Merged(store, extra);
      MergeAddsMissing(store, extra[..last]);
      forall e | e in extra
        ensures HasKey(after, e.key)
      {
        if e in extra[..last] {
          var i :| 0 <= i < |before| && before[i].key == e.key;
          assert after[i].key == e.key;
        } else if !HasKey(before, e.key) {
          assert after[|before|].key == e.key;
        }
      }
    }
  }

  lemma MergeOne(store: seq<KeyEntry>, e: KeyEntry)
    ensures Merged(store, []) == store
    ensures Merged(store, [e]) == if HasKey(store, e.key) then store else store + [e]
  {
    assert [e][..0] == [];
  }

  /** Entries are merged one after another, in their order. */
  lemma {:induction false} MergeInOrder(store: seq<KeyEntry>, a: seq<KeyEntry>, b: seq<KeyEntry>)
    ensures Merged(store, a + b) == Merged(Merged(store, a), b)
  {
    if b == [] {
      assert a + b == a;
    } else {
      assert (a + b)[..|a + b| - 1] == a + b[..|b| - 1];
      MergeInOrder(store, a, b[..|b| - 1]);
    }
  }

  /** Some entry with the key is not deleted. */
  predicate HasLive(store: seq<KeyEntry>, key: string) {
    exists i :: 0 <= i < |store| && store[i].key == key && !store[i].deleted
  }

  lemma HasLiveSnoc(store: seq<KeyEntry>, key: string)
    requires store != []
    ensures var last := |store| - 1;
            HasLive(store, key) <==> HasLive(store[..last], key) || (store[last].key == key && !store[last].deleted)
  {
    var before := store[..|store| - 1];
    if i :| 0 <= i < |before| && before[i].key == key && !before[i].deleted {
      assert store[i] == before[i];
    }
  }

  lemma HasKeySnoc(store: seq<KeyEntry>, e: KeyEntry, key: string)
    ensures HasKey(store + [e], key) <==> HasKey(store, key) || e.key == key
  {
    var after := store + [e];
    if i :| 0 <= i < |store| && store[i].key == key {
      assert after[i].key == key;
    }
    assert after[|store|] == e;
  }

  lemma {:induction false} LiveEntriesHave(store: seq<KeyEntry>, key: string)
    ensures HasKey(LiveEntries(store), key) <==> HasLive(store, key)
  {
    if store != [] {
      var last := |store| - 1;
      var before, live := store[..last], LiveEntries(store);
      LiveEntriesHave(before, key);
      HasLiveSnoc(store, key);
      HasKeySnoc(LiveEntries(before), store[last], key);
    }
  }

  /** There are entries with the key, and the first of them is not deleted. */
  ghost predicate FirstIsLive(extra: seq<KeyEntry>, key: string) {
    exists i :: 0 <= i < |extra| && extra[i].key == key && !extra[i].deleted && !HasKey(extra[..i], key)
  }

  lemma FirstIsLiveSnoc(extra: seq<KeyEntry>, key: string)
    requires extra != []
    ensures var last := |extra| - 1;
            FirstIsLive(extra, key) <==>
            FirstIsLive(extra[..last], key) ||
            (extra[last].key == key && !extra[last].deleted && !HasKey(extra[..last], key))
  {
    var last := |extra| - 1;
    var before := extra[..last];
    if i :| 0 <= i < last && before[i].key == key && !before[i].deleted && !HasKey(before[..i], key) {
      assert extra[i] == before[i] && extra[..i] == before[..i];
    }
    if i :| 0 <= i < last && extra[i].key == key && !extra[i].deleted && !HasKey(extra[..i], key) {
      assert before[i] == extra[i] && before[..i] == extra[..i];
    }
  }

  lemma {:induction false} MergedHasKey(store: seq<KeyEntry>, extra: seq<KeyEntry>, key: string)
    ensures HasKey(Merged(store, extra), key) <==> HasKey(store, key) || HasKey(extra, key)
  {
    if extra != [] {
      var last := |extra| - 1;
      MergedHasKey(store, extra[..last], key);
      HasKeySnoc(Merged(store, extra[..last]), extra[last], key);
      HasKeySnoc(extra[..last], extra[last], key);
      assert extra[..last] + [extra[last]] == extra;
    }
  }

  /** What a merge makes live: the live keys of the store, and the keys the store
      lacks altogether whose first plaintext entry is not deleted. A key that the
      store has deleted stays out. */
  lemma {:induction false} MergedIsLive(store: seq<KeyEntry>, extra: seq<KeyEntry>, key: string)
    ensures HasKey(LiveEntries(Merged(store, extra)), key) <==>
            HasLive(store, key) || (!HasKey(store, key) && FirstIsLive(extra, key))
  {
    LiveEntriesHave(Merged(store, extra), key);
    if extra != [] {
      var last := |extra| - 1;
      var before := Merged(store, extra[..last]);
      MergedIsLive(store, extra[..last], key);
      LiveEntriesHave(before, key);
      MergedHasKey(store, extra[..last], key);
      FirstIsLiveSnoc(extra, key);
      if !HasKey(before, extra[last].key) {
        HasLiveSnoc(before + [extra[last]], key);
        assert (before + [extra[last]])[..|before|] == before;
      }
    }
  }

  /** One merge does not bring back a key that the store has deleted. */
  lemma DeletedStaysOut(store: seq<KeyEntry>, extra: seq<KeyEntry>, key: string)
    requires HasKey(store, key)
    requires forall i :: 0 <= i < |store| && store[i].key == key ==> store[i].deleted
    ensures !HasKey(LiveEntries(Merged(store, extra)), key)
  {
    MergedIsLive(store, extra, key);
  }
}
