/** Naming and de-duplication of imported keys. */
module Naming {
  import opened Common
  import opened Decimal
  import opened KeyEntries

  // ----- names of the form base-number -----

  function LastIndexByte(s: string, c: char): (i: int)
    ensures -1 <= i < |s|
    ensures i >= 0 ==> s[i] == c
    ensures forall j :: i < j < |s| ==> s[j] != c
  {
    if s == [] then -1
    else if s[|s| - 1] == c then |s| - 1
    else LastIndexByte(s[..|s| - 1], c)
  }

  function WithNumber(base: string, n: nat): string {
    base + "-" + Itoa(n)
  }

  /** The base and number of a name, split at its last dash. */
  function Numbering(name: string): Option<(string, int)> {
    var idx := LastIndexByte(name, '-');
    if idx <= 0 then None
    else match Atoi(name[idx + 1..])
      case None => None
      case Some(n) => Some((name[..idx], n))
  }

  lemma DashThenDigits(name: string, base: string, digits: string)
    requires AllDigits(digits) && name == base + "-" + digits
    ensures name[|base|] == '-' && forall j :: |base| < j < |name| ==> name[j] != '-'
  {
    forall j | |base| < j < |name|
      ensures name[j] != '-'
    {
      assert name[j] == digits[j - |base| - 1];
    }
  }

  lemma LastIndexUnique(s: string, c: char, p: nat)
    requires p < |s| && s[p] == c
    requires forall j :: p < j < |s| ==> s[j] != c
    ensures LastIndexByte(s, c) == p
  {
  }

  lemma LastDash(base: string, digits: string)
    requires AllDigits(digits)
    ensures LastIndexByte(base + "-" + digits, '-') == |base|
  {
    DashThenDigits(base + "-" + digits, base, digits);
    LastIndexUnique(base + "-" + digits, '-', |base|);
  }

  lemma Cut(base: string, digits: string)
    ensures (base + "-" + digits)[..|base|] == base
    ensures (base + "-" + digits)[|base| + 1..] == digits
  {
  }

  /** A numbered name decomposes into exactly its base and its number. */
  lemma NumberingOfWithNumber(base: string, n: nat)
    requires base != ""
    ensures Numbering(WithNumber(base, n)) == Some((base, n as int))
  {
    var digits := Itoa(n);
    AtoiOfItoa(n);
    LastDash(base, digits);
    Cut(base, digits);
  }

  lemma WithNumberInjective(a: string, m: nat, b: string, n: nat)
    requires a != "" && b != "" && WithNumber(a, m) == WithNumber(b, n)
    ensures a == b && m == n
  {
    NumberingOfWithNumber(a, m);
    NumberingOfWithNumber(b, n);
  }

  // ----- what the numbering should be -----

  /** The largest number that the store already gives to the base, or 0. */
  function MaxSuffix(store: seq<KeyEntry>, base: string): nat {
    if store == [] then 0
    else
      var before := MaxSuffix(store[..|store| - 1], base);
      match Numbering(store[|store| - 1].name)
      case Some((b, n)) => if b == base && n > before then n else before
      case None => before
  }

  function Count(entries: seq<KeyEntry>, name: string): nat {
    if entries == [] then 0
    else Count(entries[..|entries| - 1], name) + if entries[|entries| - 1].name == name then 1 else 0
  }

  lemma CountSnoc(entries: seq<KeyEntry>, i: nat)
    requires i < |entries|
    ensures forall s :: Count(entries[..i + 1], s) == Count(entries[..i], s) + if entries[i].name == s then 1 else 0
  {
    assert entries[..i + 1][..i] == entries[..i];
  }

  predicate Repeated(entries: seq<KeyEntry>, name: string) {
    name != "" && Count(entries, name) > 1
  }

  /** The number that entry i is given if its name is repeated: one for each
      occurrence so far, counted from what the store already uses. */
  function NumberFor(entries: seq<KeyEntry>, store: seq<KeyEntry>, i: nat): nat
    requires i < |entries|
  {
    MaxSuffix(store, entries[i].name) + Count(entries[..i + 1], entries[i].name)
  }

  /** The name that entry i ends up with. */
  function NewName(entries: seq<KeyEntry>, store: seq<KeyEntry>, i: nat): string
    requires i < |entries|
  {
    var name := entries[i].name;
    if Repeated(entries, name) then WithNumber(name, NumberFor(entries, store, i)) else name
  }

  function Numbered(entries: seq<KeyEntry>, store: seq<KeyEntry>): seq<KeyEntry> {
    seq(|entries|, i requires 0 <= i < |entries| => entries[i].(name := NewName(entries, store, i)))
  }

  // ----- the algorithm -----

  function Lookup(m: map<string, int>, k: string): int {
    if k in m then m[k] else 0
  }

  method ScanStore(store: seq<KeyEntry>) returns (nameMaxSuffix: map<string, int>)
    ensures forall b :: Lookup(nameMaxSuffix, b) == MaxSuffix(store, b)
  {
    nameMaxSuffix := map[];
    for i := 0 to |store|
      invariant forall b :: Lookup(nameMaxSuffix, b) == MaxSuffix(store[..i], b)
    {
      assert store[..i + 1][..i] == store[..i];
      var name := store[i].name;
      if name == "" {
        continue;
      }
      var idx := LastIndexByte(name, '-');
      if idx > 0 {
        var n := Atoi(name[idx + 1..]);
        if n.Some? {
          var base := name[..idx];
          if n.value > Lookup(nameMaxSuffix, base) {
            nameMaxSuffix := nameMaxSuffix[base := n.value];
          }
        }
      }
    }
    assert store[..|store|] == store;
  }

  method CountNames(entries: array<KeyEntry>) returns (nameCount: map<string, int>)
    ensures forall s :: s != "" ==> Lookup(nameCount, s) == Count(entries[..], s)
    ensures "" !in nameCount
  {
    nameCount := map[];
    for i := 0 to entries.Length
      invariant forall s :: s != "" ==> Lookup(nameCount, s) == Count(entries[..i], s)
      invariant "" !in nameCount
    {
      assert entries[..i + 1][..i] == entries[..i];
      var name := entries[i].name;
      if name == "" {
        continue;
      }
      nameCount := nameCount[name := Lookup(nameCount, name) + 1];
    }
    assert entries[..entries.Length] == entries[..];
  }

  method StartNumbers(nameCount: map<string, int>, nameMaxSuffix: map<string, int>)
    returns (nameIndex: map<string, int>)
    ensures forall s :: Lookup(nameCount, s) > 1 ==> Lookup(nameIndex, s) == Lookup(nameMaxSuffix, s)
  {
    nameIndex := map[];
    var names := nameCount.Keys;
    while names != {}
      invariant names <= nameCount.Keys
      invariant forall s :: s in nameIndex ==> s !in names
      invariant forall s :: Lookup(nameCount, s) > 1 && s !in names ==>
                  Lookup(nameIndex, s) == Lookup(nameMaxSuffix, s)
      decreases names
    {
      var name :| name in names;
      names := names - {name};
      if nameCount[name] > 1 && name in nameMaxSuffix {
        nameIndex := nameIndex[name := nameMaxSuffix[name]];
      }
    }
  }

  /** The counters after the first i entries: each repeated name has gone up by
      its occurrences so far. */
  ghost predicate Advanced(index: map<string, int>, start: map<string, int>, entries: seq<KeyEntry>, i: nat)
    requires i <= |entries|
  {
    forall s :: Repeated(entries, s) ==> Lookup(index, s) == Lookup(start, s) + Count(entries[..i], s)
  }

  lemma AdvanceOne(index: map<string, int>, start: map<string, int>, entries: seq<KeyEntry>, i: nat)
    requires i < |entries| && Advanced(index, start, entries, i)
    ensures var name := entries[i].name;
            if Repeated(entries, name)
            then Lookup(index, name) + 1 == Lookup(start, name) + Count(entries[..i + 1], name) &&
                 Advanced(index[name := Lookup(index, name) + 1], start, entries, i + 1)
            else Advanced(index, start, entries, i + 1)
  {
    CountSnoc(entries, i);
  }

  /** The new form of entry i, and the counters after it. */
  method NumberEntry(e: KeyEntry, nameCount: map<string, int>, nameIndex: map<string, int>,
                     ghost start: map<string, int>, ghost was: seq<KeyEntry>, ghost known: seq<KeyEntry>, ghost i: nat)
    returns (numbered: KeyEntry, index: map<string, int>)
    requires i < |was| && e == was[i]
    requires e.name != "" ==> Lookup(nameCount, e.name) == Count(was, e.name)
    requires Lookup(nameCount, e.name) > 1 ==> Lookup(start, e.name) == MaxSuffix(known, e.name)
    requires Advanced(nameIndex, start, was, i)
    ensures numbered == Numbered(was, known)[i]
    ensures Advanced(index, start, was, i + 1)
  {
    AdvanceOne(nameIndex, start, was, i);
    if e.name == "" {
      return e, nameIndex;
    }
    if Lookup(nameCount, e.name) > 1 {
      var n := Lookup(nameIndex, e.name) + 1;
      return e.(name := WithNumber(e.name, n)), nameIndex[e.name := n];
    }
    return e, nameIndex;
  }

  method WriteNumbers(entries: array<KeyEntry>, nameCount: map<string, int>, start: map<string, int>,
                      ghost known: seq<KeyEntry>)
    requires forall s :: s != "" ==> Lookup(nameCount, s) == Count(entries[..], s)
    requires forall s :: Lookup(nameCount, s) > 1 ==> Lookup(start, s) == MaxSuffix(known, s)
    modifies entries
    ensures entries[..] == Numbered(old(entries[..]), known)
  {
    ghost var was := entries[..];
    var nameIndex := start;
    for i := 0 to entries.Length
      invariant forall j :: i <= j < entries.Length ==> entries[j] == was[j]
      invariant forall j :: 0 <= j < i ==> entries[j] == Numbered(was, known)[j]
      invariant Advanced(nameIndex, start, was, i)
    {
      entries[i], nameIndex := NumberEntry(entries[i], nameCount, nameIndex, start, was, known, i);
    }
  }

  // ----- the numbering, described without reference to how it is found -----

  /** The name is the base, a dash, and a numeral for n without a dash in it. */
  ghost predicate HasNumber(name: string, base: string, n: int) {
    base != "" && exists d :: '-' !in d && name == base + "-" + d && Atoi(d) == Some(n)
  }

  lemma NumberingFound(name: string, base: string, n: int)
    requires Numbering(name) == Some((base, n))
    ensures HasNumber(name, base, n)
  {
    var idx := LastIndexByte(name, '-');
    var d := name[idx + 1..];
    assert name == name[..idx] + "-" + d;
    assert forall j :: 0 <= j < |d| ==> d[j] == name[idx + 1 + j];
  }

  lemma NumeralIsCut(name: string, base: string, d: string)
    requires base != "" && '-' !in d && name == base + "-" + d
    ensures LastIndexByte(name, '-') == |base| && name[..|base|] == base && name[|base| + 1..] == d
  {
    assert forall j :: |base| < j < |name| ==> name[j] == d[j - |base| - 1];
    LastIndexUnique(name, '-', |base|);
    Cut(base, d);
  }

  lemma NumberingIs(name: string, base: string, n: int)
    ensures Numbering(name) == Some((base, n)) <==> HasNumber(name, base, n)
  {
    if Numbering(name) == Some((base, n)) {
      NumberingFound(name, base, n);
    } else if HasNumber(name, base, n) {
      var d :| '-' !in d && name == base + "-" + d && Atoi(d) == Some(n);
      NumeralIsCut(name, base, d);
    }
  }

  /** The largest number that some name of the store has with the base, or 0. */
  ghost predicate LargestNumber(store: seq<KeyEntry>, base: string, m: nat) {
    && (forall k, n :: 0 <= k < |store| && HasNumber(store[k].name, base, n) ==> n <= m)
    && (m == 0 || exists k :: 0 <= k < |store| && HasNumber(store[k].name, base, m))
  }

  lemma {:induction false} MaxSuffixReached(store: seq<KeyEntry>, base: string)
    ensures MaxSuffix(store, base) == 0 ||
            exists k :: 0 <= k < |store| && HasNumber(store[k].name, base, MaxSuffix(store, base))
  {
    if store != [] {
      var last := |store| - 1;
      MaxSuffixReached(store[..last], base);
      if MaxSuffix(store, base) == MaxSuffix(store[..last], base) {
        if MaxSuffix(store, base) > 0 {
          var k :| 0 <= k < last && HasNumber(store[..last][k].name, base, MaxSuffix(store, base));
          assert HasNumber(store[k].name, base, MaxSuffix(store, base));
        }
      } else {
        NumberingIs(store[last].name, base, MaxSuffix(store, base));
      }
    }
  }

  lemma {:induction false} MaxSuffixBounds(store: seq<KeyEntry>, k: nat, base: string, n: int)
    requires k < |store| && Numbering(store[k].name) == Some((base, n))
    ensures MaxSuffix(store, base) >= n
  {
    if k < |store| - 1 {
      MaxSuffixBounds(store[..|store| - 1], k, base, n);
    }
  }

  lemma MaxSuffixIsLargest(store: seq<KeyEntry>, base: string)
    ensures LargestNumber(store, base, MaxSuffix(store, base))
  {
    MaxSuffixReached(store, base);
    forall k, n | 0 <= k < |store| && HasNumber(store[k].name, base, n)
      ensures n <= MaxSuffix(store, base)
    {
      NumberingIs(store[k].name, base, n);
      MaxSuffixBounds(store, k, base, n);
    }
  }

  /** The entries before position n that have the name. */
  ghost function Named(entries: seq<KeyEntry>, name: string, n: nat): set<nat> {
    set j: nat | j < n && j < |entries| && entries[j].name == name
  }

  lemma {:induction false} CountIs(entries: seq<KeyEntry>, name: string, n: nat)
    requires n <= |entries|
    ensures Count(entries[..n], name) == |Named(entries, name, n)|
  {
    if n == 0 {
      assert Named(entries, name, 0) == {};
    } else {
      CountIs(entries, name, n - 1);
      CountSnoc(entries, n - 1);
      assert Named(entries, name, n) ==
             Named(entries, name, n - 1) + if entries[n - 1].name == name then {n - 1} else {};
    }
  }

  /** The name that entry i should end up with: its own if that is empty or occurs
      once in the batch; otherwise its own, a dash, and the largest number that the
      store has for it plus the rank of the entry among its namesakes. */
  ghost predicate NamedRight(entries: seq<KeyEntry>, store: seq<KeyEntry>, i: nat, name: string)
    requires i < |entries|
  {
    var own := entries[i].name;
    if own == "" || |Named(entries, own, |entries|)| == 1 then name == own
    else exists m: nat :: LargestNumber(store, own, m) && name == own + "-" + Itoa(m + |Named(entries, own, i + 1)|)
  }

  /** Only names change, and each to the one that is right. */
  ghost predicate NumberedRight(entries: seq<KeyEntry>, store: seq<KeyEntry>, out: seq<KeyEntry>) {
    && |out| == |entries|
    && forall i :: 0 <= i < |entries| ==>
         && out[i].key == entries[i].key
         && out[i].disabled == entries[i].disabled && out[i].deleted == entries[i].deleted
         && NamedRight(entries, store, i, out[i].name)
  }

  lemma {:induction false} CountMonotone(entries: seq<KeyEntry>, i: nat, j: nat, name: string)
    requires i <= j <= |entries|
    ensures Count(entries[..i], name) <= Count(entries[..j], name)
    decreases j
  {
    if i < j {
      assert entries[..j][..j - 1] == entries[..j - 1];
      CountMonotone(entries, i, j - 1, name);
    }
  }

  lemma OwnCount(entries: seq<KeyEntry>, i: nat)
    requires i < |entries|
    ensures Count(entries, entries[i].name) >= 1
  {
    assert entries[..i + 1][..i] == entries[..i];
    CountMonotone(entries, i + 1, |entries|, entries[i].name);
    assert entries[..|entries|] == entries;
  }

  lemma NewNameIsRight(entries: seq<KeyEntry>, store: seq<KeyEntry>, i: nat)
    requires i < |entries|
    ensures NamedRight(entries, store, i, NewName(entries, store, i))
  {
    var own := entries[i].name;
    CountIs(entries, own, |entries|);
    CountIs(entries, own, i + 1);
    OwnCount(entries, i);
    assert entries[..|entries|] == entries;
    MaxSuffixIsLargest(store, own);
  }

  lemma NumberedIsRight(entries: seq<KeyEntry>, store: seq<KeyEntry>)
    ensures NumberedRight(entries, store, Numbered(entries, store))
  {
    forall i | 0 <= i < |entries|
      ensures NamedRight(entries, store, i, Numbered(entries, store)[i].name)
    {
      NewNameIsRight(entries, store, i);
    }
  }

  /** Rewrites the repeated names in place, numbering each from one past the
      largest number its base has in the store. */
  method AutoNumberNames(entries: array<KeyEntry>, store: Option<seq<KeyEntry>>)
    modifies entries
    ensures entries[..] == Numbered(old(entries[..]), match store case Some(s) => s case None => [])
    ensures NumberedRight(old(entries[..]), match store case Some(s) => s case None => [], entries[..])
  {
    ghost var known := match store case Some(s) => s case None => [];
    var nameMaxSuffix: map<string, int> := map[];
    if store.Some? {
      nameMaxSuffix := ScanStore(store.value);
    }
    var nameCount := CountNames(entries);
    var nameIndex := StartNumbers(nameCount, nameMaxSuffix);
    NumberedIsRight(entries[..], known);
    WriteNumbers(entries, nameCount, nameIndex, known);
  }

  // ----- what the numbering guarantees -----

  lemma NumberForRange(entries: seq<KeyEntry>, store: seq<KeyEntry>, i: nat)
    requires i < |entries|
    ensures var base := entries[i].name;
            MaxSuffix(store, base) < NumberFor(entries, store, i) <= MaxSuffix(store, base) + Count(entries, base)
  {
    assert entries[..i + 1][..i] == entries[..i];
    CountMonotone(entries, i + 1, |entries|, entries[i].name);
    assert entries[..|entries|] == entries;
  }

  /** No generated name occurs in the store, deleted entries included. */
  lemma GeneratedNotInStore(entries: seq<KeyEntry>, store: seq<KeyEntry>, i: nat, k: nat)
    requires i < |entries| && k < |store|
    requires Repeated(entries, entries[i].name)
    ensures NewName(entries, store, i) != store[k].name
  {
    var base, n := entries[i].name, NumberFor(entries, store, i);
    NumberingOfWithNumber(base, n);
    NumberForRange(entries, store, i);
    if store[k].name == WithNumber(base, n) {
      MaxSuffixBounds(store, k, base, n);
    }
  }

  lemma LaterCountsHigher(entries: seq<KeyEntry>, i: nat, j: nat)
    requires i < j < |entries|
    ensures var name := entries[j].name; Count(entries[..i + 1], name) < Count(entries[..j + 1], name)
  {
    CountMonotone(entries, i + 1, j, entries[j].name);
    assert entries[..j + 1][..j] == entries[..j];
  }

  /** Generated names are pairwise distinct across the whole batch. */
  lemma GeneratedDistinct(entries: seq<KeyEntry>, store: seq<KeyEntry>, i: nat, j: nat)
    requires i < j < |entries|
    requires Repeated(entries, entries[i].name) && Repeated(entries, entries[j].name)
    ensures NewName(entries, store, i) != NewName(entries, store, j)
  {
    var a, b := entries[i].name, entries[j].name;
    var m, n := NumberFor(entries, store, i), NumberFor(entries, store, j);
    LaterCountsHigher(entries, i, j);
    if WithNumber(a, m) == WithNumber(b, n) {
      WithNumberInjective(a, m, b, n);
    }
  }

  /** A name that is not repeated in the batch looks like one of the numbers
      about to be given out to a repeated base. */
  predicate TakesNumber(entries: seq<KeyEntry>, store: seq<KeyEntry>, name: string) {
    match Numbering(name)
    case None => false
    case Some((base, n)) =>
      && Repeated(entries, base)
      && MaxSuffix(store, base) < n <= MaxSuffix(store, base) + Count(entries, base)
      && name == WithNumber(base, n)
  }

  ghost predicate DistinctNames(entries: seq<KeyEntry>) {
    forall i, j :: 0 <= i < j < |entries| && entries[i].name != "" ==> entries[i].name != entries[j].name
  }

  /** Every count up to the last is reached by some occurrence. */
  lemma {:induction false} CountReached(entries: seq<KeyEntry>, name: string, c: nat) returns (i: nat)
    requires 1 <= c <= Count(entries, name)
    ensures i < |entries| && entries[i].name == name && Count(entries[..i + 1], name) == c
  {
    var last := |entries| - 1;
    if c <= Count(entries[..last], name) {
      i := CountReached(entries[..last], name, c);
      assert entries[..last][..i + 1] == entries[..i + 1];
    } else {
      i := last;
      assert entries[..i + 1] == entries;
    }
  }

  lemma {:induction false} CountAtLeastTwo(entries: seq<KeyEntry>, i: nat, j: nat)
    requires i < j < |entries| && entries[i].name == entries[j].name
    ensures Count(entries, entries[i].name) >= 2
  {
    var name := entries[i].name;
    assert entries[..i + 1][..i] == entries[..i];
    LaterCountsHigher(entries, i, j);
    CountMonotone(entries, j + 1, |entries|, name);
    assert entries[..|entries|] == entries;
  }

  lemma TakenNumberClashes(entries: seq<KeyEntry>, store: seq<KeyEntry>, k: nat)
    requires k < |entries| && entries[k].name != "" && !Repeated(entries, entries[k].name)
    requires TakesNumber(entries, store, entries[k].name)
    ensures !DistinctNames(Numbered(entries, store))
  {
    var out := Numbered(entries, store);
    var (base, n) := Numbering(entries[k].name).value;
    var i := CountReached(entries, base, n - MaxSuffix(store, base));
    assert NumberFor(entries, store, i) == n;
    assert NewName(entries, store, i) == entries[k].name == NewName(entries, store, k);
    assert out[i].name == out[k].name && i != k;
  }

  lemma GeneratedTakesNumber(entries: seq<KeyEntry>, store: seq<KeyEntry>, i: nat)
    requires i < |entries| && Repeated(entries, entries[i].name)
    ensures TakesNumber(entries, store, NewName(entries, store, i))
    ensures NewName(entries, store, i) != ""
  {
    NumberForRange(entries, store, i);
    NumberingOfWithNumber(entries[i].name, NumberFor(entries, store, i));
  }

  lemma NoClash(entries: seq<KeyEntry>, store: seq<KeyEntry>, i: nat, j: nat)
    requires i < j < |entries| && NewName(entries, store, i) != ""
    requires forall k :: 0 <= k < |entries| && entries[k].name != "" && !Repeated(entries, entries[k].name) ==>
               !TakesNumber(entries, store, entries[k].name)
    ensures NewName(entries, store, i) != NewName(entries, store, j)
  {
    if Repeated(entries, entries[i].name) && Repeated(entries, entries[j].name) {
      GeneratedDistinct(entries, store, i, j);
    } else if Repeated(entries, entries[i].name) {
      GeneratedTakesNumber(entries, store, i);
    } else if Repeated(entries, entries[j].name) {
      GeneratedTakesNumber(entries, store, j);
    } else if entries[i].name == entries[j].name {
      CountAtLeastTwo(entries, i, j);
    }
  }

  /** After numbering, the names of the batch are pairwise distinct exactly when
      no name that stays as it is takes one of the numbers given out. */
  lemma NamesDistinctIff(entries: seq<KeyEntry>, store: seq<KeyEntry>)
    ensures DistinctNames(Numbered(entries, store)) <==>
            forall k :: 0 <= k < |entries| && entries[k].name != "" && !Repeated(entries, entries[k].name) ==>
              !TakesNumber(entries, store, entries[k].name)
  {
    var out := Numbered(entries, store);
    if k :| 0 <= k < |entries| && entries[k].name != "" && !Repeated(entries, entries[k].name)
            && TakesNumber(entries, store, entries[k].name)
    {
      TakenNumberClashes(entries, store, k);
    } else {
      forall i, j | 0 <= i < j < |out| && out[i].name != ""
        ensures out[i].name != out[j].name
      {
        NoClash(entries, store, i, j);
      }
    }
  }

  /** The guarantee does not extend to names that stay as they are: in this
      batch the third key keeps the name just given to the first. */
  lemma ClashWithUnnumbered()
    ensures var batch := [KeyEntry("k1", "a", false, false), KeyEntry("k2", "a", false, false),
                          KeyEntry("k3", "a-1", false, false)];
            Numbered(batch, [])[0].name == Numbered(batch, [])[2].name
  {
    var k1, k2, k3 := KeyEntry("k1", "a", false, false), KeyEntry("k2", "a", false, false),
                      KeyEntry("k3", "a-1", false, false);
    var batch := [k1, k2, k3];
    assert batch[..2] == [k1, k2] && batch[..1] == [k1] && [k1, k2][..1] == [k1] && [k1][..0] == [];
    assert Count([k1], "a") == 1 && Count([k1, k2], "a") == 2 && Count(batch, "a") == 2;
    assert Count([k1], "a-1") == 0 && Count([k1, k2], "a-1") == 0 && Count(batch, "a-1") == 1;
    assert Itoa(1) == "1";
  }

  // ----- de-duplication by key value -----

  /** Keys that the store holds and has not deleted. */
  function LiveKeys(store: seq<KeyEntry>): set<string> {
    set i | 0 <= i < |store| && !store[i].deleted :: store[i].key
  }

  /** The entries whose key is neither live in the store nor earlier in the batch. */
  function FirstNew(entries: seq<KeyEntry>, live: set<string>): seq<KeyEntry> {
    if entries == [] then []
    else
      var last := |entries| - 1;
      var kept := FirstNew(entries[..last], live);
      if entries[last].key in live || exists i :: 0 <= i < last && entries[i].key == entries[last].key
      then kept else kept + [entries[last]]
  }

  method DedupEntries(entries: seq<KeyEntry>, store: seq<KeyEntry>)
    returns (newEntries: seq<KeyEntry>, skipped: nat)
    ensures newEntries == FirstNew(entries, LiveKeys(store))
    ensures |newEntries| + skipped == |entries|
  {
    var existing: set<string> := {};
    for i := 0 to |store|
      invariant existing == LiveKeys(store[..i])
    {
      if store[i].deleted {
        continue;
      }
      existing := existing + {store[i].key};
    }
    assert store[..|store|] == store;
    newEntries, skipped := [], 0;
    ghost var live := existing;
    for i := 0 to |entries|
      invariant newEntries == FirstNew(entries[..i], live)
      invariant existing == live + set j | 0 <= j < i :: entries[j].key
      invariant |newEntries| + skipped == i
    {
      assert entries[..i + 1][..i] == entries[..i];
      if entries[i].key in existing {
        skipped := skipped + 1;
        continue;
      }
      newEntries := newEntries + [entries[i]];
      existing := existing + {entries[i].key};
    }
    assert entries[..|entries|] == entries;
  }

  ghost predicate DistinctLive(store: seq<KeyEntry>) {
    forall i, j :: 0 <= i < j < |store| && !store[i].deleted && !store[j].deleted ==> store[i].key != store[j].key
  }

  /** What is kept comes from the batch and has new, pairwise distinct keys. */
  lemma {:induction false} FirstNewSound(entries: seq<KeyEntry>, live: set<string>)
    ensures forall k :: 0 <= k < |FirstNew(entries, live)| ==>
              FirstNew(entries, live)[k] in entries && FirstNew(entries, live)[k].key !in live
    ensures forall j, k :: 0 <= j < k < |FirstNew(entries, live)| ==>
              FirstNew(entries, live)[j].key != FirstNew(entries, live)[k].key
  {
    if entries != [] {
      FirstNewSound(entries[..|entries| - 1], live);
    }
  }

  /** Entry i is the first of its key in the batch. */
  ghost predicate IsFirst(entries: seq<KeyEntry>, i: nat)
    requires i < |entries|
  {
    forall j :: 0 <= j < i ==> entries[j].key != entries[i].key
  }

  /** Entry i is the first of its key, and the key is not live yet. */
  ghost predicate IsFirstNew(entries: seq<KeyEntry>, live: set<string>, i: nat) {
    i < |entries| && IsFirst(entries, i) && entries[i].key !in live
  }

  ghost predicate IsFirstNewEntry(entries: seq<KeyEntry>, live: set<string>, e: KeyEntry) {
    exists i: nat :: IsFirstNew(entries, live, i) && entries[i] == e
  }

  lemma FirstNewPrefix(entries: seq<KeyEntry>, live: set<string>, i: nat)
    requires i < |entries| - 1
    ensures IsFirstNew(entries, live, i) <==> IsFirstNew(entries[..|entries| - 1], live, i)
  {
    var before := entries[..|entries| - 1];
    assert forall j :: 0 <= j <= i ==> before[j] == entries[j];
  }

  lemma FirstNewEntryGrows(entries: seq<KeyEntry>, live: set<string>, e: KeyEntry)
    requires entries != [] && IsFirstNewEntry(entries[..|entries| - 1], live, e)
    ensures IsFirstNewEntry(entries, live, e)
  {
    var before := entries[..|entries| - 1];
    var i: nat :| IsFirstNew(before, live, i) && before[i] == e;
    FirstNewPrefix(entries, live, i);
    assert entries[i] == e;
  }

  lemma FirstNewEntrySnoc(entries: seq<KeyEntry>, live: set<string>, e: KeyEntry)
    requires entries != []
    ensures var last := |entries| - 1;
            IsFirstNewEntry(entries, live, e) <==>
            IsFirstNewEntry(entries[..last], live, e) || (IsFirstNew(entries, live, last) && entries[last] == e)
  {
    var last := |entries| - 1;
    if IsFirstNewEntry(entries[..last], live, e) {
      FirstNewEntryGrows(entries, live, e);
    } else if i: nat :| IsFirstNew(entries, live, i) && entries[i] == e && i < last {
      FirstNewPrefix(entries, live, i);
      assert entries[..last][i] == e;
    }
  }

  /** The entries kept are exactly the first of each key that is not live yet. */
  lemma {:induction false} FirstNewCovers(entries: seq<KeyEntry>, live: set<string>)
    ensures forall e :: e in FirstNew(entries, live) <==> IsFirstNewEntry(entries, live, e)
  {
    if entries != [] {
      var last := |entries| - 1;
      var kept, out := FirstNew(entries[..last], live), FirstNew(entries, live);
      FirstNewCovers(entries[..last], live);
      forall e
        ensures e in out <==> IsFirstNewEntry(entries, live, e)
      {
        FirstNewEntrySnoc(entries, live, e);
      }
    }
  }

  /** The entries kept are in the order of the batch. */
  lemma {:induction false} FirstNewInOrder(entries: seq<KeyEntry>, live: set<string>, i: nat, j: nat)
    returns (m: nat, n: nat)
    requires i < j && IsFirstNew(entries, live, i) && IsFirstNew(entries, live, j)
    ensures m < n < |FirstNew(entries, live)|
    ensures FirstNew(entries, live)[m] == entries[i] && FirstNew(entries, live)[n] == entries[j]
  {
    var last := |entries| - 1;
    var kept := FirstNew(entries[..last], live);
    FirstNewPrefix(entries, live, i);
    if j < last {
      FirstNewPrefix(entries, live, j);
      m, n := FirstNewInOrder(entries[..last], live, i, j);
    } else {
      FirstNewCovers(entries[..last], live);
      assert IsFirstNewEntry(entries[..last], live, entries[i]) by {
        assert entries[..last][i] == entries[i];
      }
      m :| m < |kept| && kept[m] == entries[i];
      n := |kept|;
    }
  }

  function KeysOf(entries: seq<KeyEntry>): set<string> {
    set i | 0 <= i < |entries| :: entries[i].key
  }

  /** An import never makes two live keys of the store equal. */
  lemma ImportKeepsKeysDistinct(entries: seq<KeyEntry>, store: seq<KeyEntry>)
    requires DistinctLive(store)
    ensures DistinctLive(store + FirstNew(entries, LiveKeys(store)))
  {
    var live, kept := LiveKeys(store), FirstNew(entries, LiveKeys(store));
    var after := store + kept;
    FirstNewSound(entries, live);
    forall i, j | 0 <= i < j < |after| && !after[i].deleted && !after[j].deleted
      ensures after[i].key != after[j].key
    {
      if i < |store| <= j {
        assert store[i].key in live;
      }
    }
  }

  lemma LiveAfterAppend(store: seq<KeyEntry>, kept: seq<KeyEntry>)
    ensures LiveKeys(store + kept) == LiveKeys(store) + LiveKeys(kept)
  {
    var after := store + kept;
    forall i | 0 <= i < |store| && !store[i].deleted
      ensures store[i].key in LiveKeys(after)
    {
      assert after[i] == store[i];
    }
    forall k | 0 <= k < |kept| && !kept[k].deleted
      ensures kept[k].key in LiveKeys(after)
    {
      assert after[|store| + k] == kept[k];
    }
  }

  /** The keys that an import adds: those whose first entry is not deleted. */
  ghost function AddedKeys(entries: seq<KeyEntry>, live: set<string>): set<string> {
    set i: nat | i < |entries| && IsFirstNew(entries, live, i) && !entries[i].deleted :: entries[i].key
  }

  lemma KeptAreAdded(entries: seq<KeyEntry>, live: set<string>)
    ensures LiveKeys(FirstNew(entries, live)) == AddedKeys(entries, live)
  {
    var kept := FirstNew(entries, live);
    FirstNewCovers(entries, live);
    forall k | 0 <= k < |kept| && !kept[k].deleted
      ensures kept[k].key in AddedKeys(entries, live)
    {
      assert IsFirstNewEntry(entries, live, kept[k]);
    }
    forall i: nat | IsFirstNew(entries, live, i) && !entries[i].deleted
      ensures entries[i].key in LiveKeys(kept)
    {
      assert IsFirstNewEntry(entries, live, entries[i]);
      var k :| 0 <= k < |kept| && kept[k] == entries[i];
    }
  }

  lemma {:induction false} FirstOfKey(entries: seq<KeyEntry>, i: nat) returns (first: nat)
    requires i < |entries|
    ensures first <= i && entries[first].key == entries[i].key && IsFirst(entries, first)
    decreases i
  {
    if j :| 0 <= j < i && entries[j].key == entries[i].key {
      first := FirstOfKey(entries, j);
    } else {
      first := i;
    }
  }

  /** Each key that is not live yet is undeleted where the batch first has it. */
  ghost predicate FirstsUndeleted(entries: seq<KeyEntry>, live: set<string>) {
    forall i: nat :: IsFirstNew(entries, live, i) ==> !entries[i].deleted
  }

  lemma FirstIsOne(entries: seq<KeyEntry>, live: set<string>, i: nat)
    requires IsFirstNew(entries, live, i)
    ensures entries[i].key in AddedKeys(entries, live) <==> !entries[i].deleted
  {
    forall j: nat | IsFirstNew(entries, live, j) && entries[j].key == entries[i].key
      ensures j == i
    {
    }
  }

  lemma AllAddedIff(entries: seq<KeyEntry>, live: set<string>)
    ensures live + AddedKeys(entries, live) == live + KeysOf(entries) <==> FirstsUndeleted(entries, live)
  {
    if FirstsUndeleted(entries, live) {
      forall i: nat | i < |entries|
        ensures entries[i].key in live + AddedKeys(entries, live)
      {
        var first := FirstOfKey(entries, i);
        assert entries[i].key !in live ==> IsFirstNew(entries, live, first);
      }
    } else {
      var i: nat :| IsFirstNew(entries, live, i) && entries[i].deleted;
      FirstIsOne(entries, live, i);
      assert entries[i].key in live + KeysOf(entries);
    }
  }

  /** An import adds exactly the keys that are not live yet and whose first entry
      in the batch is undeleted. So all keys of the batch are live afterwards
      exactly when no such first entry is deleted. */
  lemma ImportMakesKeysLive(entries: seq<KeyEntry>, store: seq<KeyEntry>)
    ensures var live := LiveKeys(store); var after := LiveKeys(store + FirstNew(entries, live));
            && after == live + AddedKeys(entries, live)
            && (after == live + KeysOf(entries) <==> FirstsUndeleted(entries, live))
  {
    var live := LiveKeys(store);
    LiveAfterAppend(store, FirstNew(entries, live));
    KeptAreAdded(entries, live);
    AllAddedIff(entries, live);
  }

  /** A deleted entry hides a later undeleted one with its key: the import of this
      batch into an empty store leaves no key live. */
  lemma DeletedFirstHidesKey()
    ensures var batch := [KeyEntry("k", "a", false, true), KeyEntry("k", "a", false, false)];
            LiveKeys([] + FirstNew(batch, LiveKeys([]))) == {}
  {
    var gone, back := KeyEntry("k", "a", false, true), KeyEntry("k", "a", false, false);
    assert [gone, back][..1] == [gone] && [gone][..0] == [];
    assert FirstNew([gone], {}) == [gone];
    assert [gone, back][0].key == [gone, back][1].key;
    assert FirstNew([gone, back], {}) == [gone];
  }
}
