/**
 * The open-addressing hash table: linear probing, tombstones, and a rehash into a larger
 * array whenever an insertion would push the load above 0.75. Keys are string objects
 * compared by identity.
 */
module Tables {
  import opened Memory
  import opened Values

  /** A slot: a null key with a nil value is truly empty, a null key with any other value a tombstone. */
  datatype Entry = Entry(key: ObjString?, value: Value)

  const EMPTY: Entry := Entry(null, Nil)
  const TOMBSTONE: Entry := Entry(null, Bool(true))

  predicate IsEmpty(e: Entry)
  {
    e.key == null && e.value.Nil?
  }

  /** TABLE_MAX_LOAD: `count <= 0.75 * capacity`, in whole numbers. */
  predicate WithinLoad(count: int, capacity: int)
  {
    4 * count <= 3 * capacity
  }

  // ----- Probe arithmetic -----

  /** The slot a probe for `hash` starts from. */
  function Home(hash: bv32, n: nat): (h: nat)
    requires n > 0
    ensures h < n
  {
    (hash as int) % n
  }

  /** The slot visited after `d` linear steps from `home`, wrapping around. */
  function Probe(home: nat, d: nat, n: nat): (i: nat)
    requires home < n && d < n
    ensures i < n
  {
    if home + d < n then home + d else home + d - n
  }

  /** How many steps a probe from `home` takes to reach slot `i`. */
  function Dist(home: nat, i: nat, n: nat): (d: nat)
    requires home < n && i < n
    ensures d < n && Probe(home, d, n) == i
    ensures forall d': nat :: d' < n && Probe(home, d', n) == i ==> d' == d
  {
    if i >= home then i - home else i + n - home
  }

  lemma DistOfProbe(home: nat, d: nat, n: nat)
    requires home < n && d < n
    ensures Dist(home, Probe(home, d, n), n) == d
  {
  }

  // ----- Slot sequences -----

  /** The number of slots that are not truly empty: live keys plus tombstones. */
  function UsedCount(s: seq<Entry>): nat
  {
    if s == [] then 0 else UsedCount(s[..|s| - 1]) + (if IsEmpty(s[|s| - 1]) then 0 else 1)
  }

  /** No tombstones: every slot without a key is truly empty. */
  predicate NoTombstones(s: seq<Entry>)
  {
    forall j :: 0 <= j < |s| && s[j].key == null ==> IsEmpty(s[j])
  }

  /** The number of slots holding a key. */
  function LiveCount(s: seq<Entry>): nat
  {
    if s == [] then 0 else LiveCount(s[..|s| - 1]) + (if s[|s| - 1].key == null then 0 else 1)
  }

  /** No key occupies two slots. */
  ghost predicate KeysUnique(s: seq<Entry>)
  {
    forall i, j :: 0 <= i < |s| && 0 <= j < |s| && i != j && s[i].key != null ==> s[i].key != s[j].key
  }

  /** The first `len` slots of the probe path from `home` are not truly empty. */
  ghost predicate PathUsed(s: seq<Entry>, home: nat, len: nat)
    requires home < |s| && len <= |s|
  {
    forall d :: 0 <= d < len ==> !IsEmpty(s[Probe(home, d, |s|)])
  }

  /** The first `len` slots of the probe path from `home` all hold keys. */
  ghost predicate PathLive(s: seq<Entry>, home: nat, len: nat)
    requires home < |s| && len <= |s|
  {
    forall d :: 0 <= d < len ==> s[Probe(home, d, |s|)].key != null
  }

  /**
   * The probe invariant: between a key's home slot and the slot that holds it there is
   * no truly empty slot, so a probe for the key cannot stop before reaching it.
   */
  ghost predicate ChainOk(s: seq<Entry>)
  {
    forall i :: 0 <= i < |s| && s[i].key != null ==>
      PathUsed(s, Home(s[i].key.hash, |s|), Dist(Home(s[i].key.hash, |s|), i, |s|))
  }

  /** The key-to-value mapping a slot sequence represents. */
  ghost function Bindings(s: seq<Entry>): map<ObjString, Value>
    requires KeysUnique(s)
  {
    map i | 0 <= i < |s| && s[i].key != null :: s[i].key := s[i].value
  }

  /** The slot that `findEntry` settles on for an absent key: the first slot on the path with no key. */
  ghost predicate FirstKeyless(s: seq<Entry>, home: nat, i: nat)
    requires home < |s| && i < |s|
  {
    s[i].key == null && PathLive(s, home, Dist(home, i, |s|))
  }

  // ----- Lemmas about slot sequences -----

  lemma ContentsAt(s: seq<Entry>, i: nat)
    requires KeysUnique(s) && i < |s| && s[i].key != null
    ensures s[i].key in Bindings(s) && Bindings(s)[s[i].key] == s[i].value
  {
  }

  lemma ContentsHas(s: seq<Entry>, k: ObjString) returns (i: nat)
    requires KeysUnique(s) && k in Bindings(s)
    ensures i < |s| && s[i].key == k && Bindings(s)[k] == s[i].value
  {
    i :| 0 <= i < |s| && s[i].key != null && s[i].key == k;
  }

  /** While fewer slots are used than exist, some slot is truly empty. */
  lemma {:induction false} EmptySlotExists(s: seq<Entry>) returns (e: nat)
    requires UsedCount(s) < |s|
    ensures e < |s| && IsEmpty(s[e])
  {
    if IsEmpty(s[|s| - 1]) {
      e := |s| - 1;
    } else {
      e := EmptySlotExists(s[..|s| - 1]);
    }
  }

  /** A fresh array of empty slots uses none of them. */
  lemma {:induction false} AllEmptyUnused(s: seq<Entry>)
    requires forall i :: 0 <= i < |s| ==> IsEmpty(s[i])
    ensures UsedCount(s) == 0
  {
    if s != [] {
      AllEmptyUnused(s[..|s| - 1]);
    }
  }

  /** Growing to `GROW_CAPACITY` leaves room for one more used slot within the load limit. */
  lemma GrowthMakesRoom(count: nat, capacity: nat)
    requires WithinLoad(count, capacity)
    ensures count < GrowCapacity(capacity) && WithinLoad(count + 1, GrowCapacity(capacity))
  {
  }

  lemma UniquePrefix(s: seq<Entry>, i: nat)
    requires KeysUnique(s) && i <= |s|
    ensures KeysUnique(s[..i])
  {
    var p := s[..i];
    forall a, b | 0 <= a < |p| && 0 <= b < |p| && a != b && p[a].key != null
      ensures p[a].key != p[b].key
    {
      assert p[a] == s[a] && p[b] == s[b];
    }
  }

  /** With no used slot there is no key. */
  lemma {:induction false} NoneUsedNoKeys(s: seq<Entry>)
    requires UsedCount(s) == 0
    ensures forall i :: 0 <= i < |s| ==> IsEmpty(s[i])
  {
    if s != [] {
      NoneUsedNoKeys(s[..|s| - 1]);
      forall i | 0 <= i < |s|
        ensures IsEmpty(s[i])
      {
        if i < |s| - 1 {
          assert s[i] == s[..|s| - 1][i];
        }
      }
    }
  }

  /** Overwriting one slot changes the used count by that slot's own change. */
  lemma {:induction false} UsedCountUpdate(s: seq<Entry>, i: nat, e: Entry)
    requires i < |s|
    ensures UsedCount(s[i := e]) ==
            UsedCount(s) - (if IsEmpty(s[i]) then 0 else 1) + (if IsEmpty(e) then 0 else 1)
  {
    var t := s[i := e];
    if i == |s| - 1 {
      assert t[..|t| - 1] == s[..|s| - 1];
    } else {
      UsedCountUpdate(s[..|s| - 1], i, e);
      assert t[..|t| - 1] == s[..|s| - 1][i := e];
    }
  }

  /** Keys are a subset of the used slots. */
  lemma {:induction false} LiveAtMostUsed(s: seq<Entry>)
    ensures LiveCount(s) <= UsedCount(s)
  {
    if s != [] {
      LiveAtMostUsed(s[..|s| - 1]);
    }
  }

  /** A prefix holds no more keys than the whole. */
  lemma {:induction false} LivePrefix(s: seq<Entry>, i: nat)
    requires i <= |s|
    ensures LiveCount(s[..i]) <= LiveCount(s)
    decreases |s| - i
  {
    if i < |s| {
      LivePrefix(s, i + 1);
      assert s[..i + 1][..i] == s[..i];
    } else {
      assert s[..i] == s;
    }
  }

  /**
   * The probe invariant survives any write that keeps every used slot used and puts no
   * key in a slot that held a different key.
   */
  lemma ChainKept(s: seq<Entry>, t: seq<Entry>)
    requires |s| == |t| && ChainOk(s)
    requires forall j :: 0 <= j < |t| && t[j].key != null ==> t[j].key == s[j].key
    requires forall j :: 0 <= j < |s| && !IsEmpty(s[j]) ==> !IsEmpty(t[j])
    ensures ChainOk(t)
  {
    forall j | 0 <= j < |t| && t[j].key != null
      ensures PathUsed(t, Home(t[j].key.hash, |t|), Dist(Home(t[j].key.hash, |t|), j, |t|))
    {
      var h := Home(t[j].key.hash, |t|);
      assert PathUsed(s, h, Dist(h, j, |s|));
    }
  }

  /** A new key placed in a keyless slot whose probe path from the key's home is used keeps the probe invariant. */
  lemma ChainExtended(s: seq<Entry>, i: nat, e: Entry)
    requires ChainOk(s) && i < |s| && s[i].key == null && e.key != null
    requires PathUsed(s, Home(e.key.hash, |s|), Dist(Home(e.key.hash, |s|), i, |s|))
    ensures ChainOk(s[i := e])
  {
    var t := s[i := e];
    forall j | 0 <= j < |t| && t[j].key != null
      ensures PathUsed(t, Home(t[j].key.hash, |t|), Dist(Home(t[j].key.hash, |t|), j, |t|))
    {
      var h := Home(t[j].key.hash, |t|);
      if j == i {
        assert PathUsed(s, h, Dist(h, i, |s|));
      } else {
        assert PathUsed(s, h, Dist(h, j, |s|));
      }
    }
  }

  /** Writing a binding for `e.key` into its own slot, or into a keyless slot when the key is absent, updates the mapping. */
  lemma BindingsStore(s: seq<Entry>, i: nat, e: Entry)
    requires KeysUnique(s) && i < |s| && e.key != null
    requires s[i].key == e.key || (s[i].key == null && e.key !in Bindings(s))
    ensures KeysUnique(s[i := e])
    ensures Bindings(s[i := e]) == Bindings(s)[e.key := e.value]
  {
    var t := s[i := e];
    forall j | 0 <= j < |s| && j != i && s[j].key != null
      ensures s[j].key != e.key
    {
      ContentsAt(s, j);
    }
    assert KeysUnique(t);
    BindingsStoreSame(s, i, e);
  }

  lemma BindingsStoreSame(s: seq<Entry>, i: nat, e: Entry)
    requires KeysUnique(s) && i < |s| && e.key != null && KeysUnique(s[i := e])
    requires s[i].key == e.key || s[i].key == null
    ensures Bindings(s[i := e]) == Bindings(s)[e.key := e.value]
  {
    var t := s[i := e];
    var c, c' := Bindings(s)[e.key := e.value], Bindings(t);
    forall key | key in c
      ensures key in c' && c'[key] == c[key]
    {
      if key == e.key {
        ContentsAt(t, i);
      } else {
        var j := ContentsHas(s, key);
        ContentsAt(t, j);
      }
    }
    forall key | key in c'
      ensures key in c
    {
      var j := ContentsHas(t, key);
      if j != i {
        ContentsAt(s, j);
      }
    }
  }

  /** Replacing a key's slot with a tombstone removes exactly that key from the mapping. */
  lemma BindingsClear(s: seq<Entry>, i: nat)
    requires KeysUnique(s) && i < |s| && s[i].key != null
    ensures KeysUnique(s[i := TOMBSTONE])
    ensures Bindings(s[i := TOMBSTONE]) == Bindings(s) - {s[i].key}
  {
    var t := s[i := TOMBSTONE];
    var c, c' := Bindings(s) - {s[i].key}, Bindings(t);
    forall key | key in c
      ensures key in c' && c'[key] == c[key]
    {
      var j := ContentsHas(s, key);
      ContentsAt(t, j);
    }
    forall key | key in c'
      ensures key in c
    {
      var j := ContentsHas(t, key);
      ContentsAt(s, j);
    }
  }

  /** Storing a binding in the slot `findEntry` chose keeps every invariant and counts a filled empty slot. */
  lemma StoreThroughProbe(s: seq<Entry>, i: nat, e: Entry)
    requires KeysUnique(s) && ChainOk(s) && i < |s| && e.key != null
    requires e.key in Bindings(s) ==> s[i].key == e.key
    requires e.key !in Bindings(s) ==> FirstKeyless(s, Home(e.key.hash, |s|), i)
    ensures KeysUnique(s[i := e]) && ChainOk(s[i := e])
    ensures Bindings(s[i := e]) == Bindings(s)[e.key := e.value]
    ensures UsedCount(s[i := e]) == UsedCount(s) + (if IsEmpty(s[i]) then 1 else 0)
  {
    BindingsStore(s, i, e);
    UsedCountUpdate(s, i, e);
    if e.key in Bindings(s) {
      ChainKept(s, s[i := e]);
    } else {
      var h := Home(e.key.hash, |s|);
      assert PathUsed(s, h, Dist(h, i, |s|)) by {
        assert PathLive(s, h, Dist(h, i, |s|));
      }
      ChainExtended(s, i, e);
    }
  }

  /** Writing a tombstone over a key keeps every invariant and the used count. */
  lemma ClearThroughProbe(s: seq<Entry>, i: nat)
    requires KeysUnique(s) && ChainOk(s) && i < |s| && s[i].key != null
    ensures KeysUnique(s[i := TOMBSTONE]) && ChainOk(s[i := TOMBSTONE])
    ensures Bindings(s[i := TOMBSTONE]) == Bindings(s) - {s[i].key}
    ensures UsedCount(s[i := TOMBSTONE]) == UsedCount(s)
  {
    BindingsClear(s, i);
    UsedCountUpdate(s, i, TOMBSTONE);
    ChainKept(s, s[i := TOMBSTONE]);
  }

  /** Every binding of a prefix, and the next slot's, is a binding of the longer prefix. */
  lemma SnocKeeps(s: seq<Entry>, i: nat)
    requires KeysUnique(s) && i < |s| && KeysUnique(s[..i]) && KeysUnique(s[..i + 1])
    ensures s[i].key != null ==> s[i].key in Bindings(s[..i + 1]) && Bindings(s[..i + 1])[s[i].key] == s[i].value
    ensures forall key :: key in Bindings(s[..i]) ==> key in Bindings(s[..i + 1]) && (key == s[i].key || Bindings(s[..i + 1])[key] == Bindings(s[..i])[key])
  {
    var p, q := s[..i], s[..i + 1];
    if s[i].key != null {
      ContentsAt(q, i);
    }
    forall key | key in Bindings(p)
      ensures key in Bindings(q) && (key == s[i].key || Bindings(q)[key] == Bindings(p)[key])
    {
      var j := ContentsHas(p, key);
      ContentsAt(q, j);
    }
  }

  /** Every binding of the longer prefix comes from the shorter prefix or the next slot. */
  lemma SnocAdds(s: seq<Entry>, i: nat)
    requires KeysUnique(s) && i < |s| && KeysUnique(s[..i]) && KeysUnique(s[..i + 1])
    ensures forall key :: key in Bindings(s[..i + 1]) ==> key == s[i].key || key in Bindings(s[..i])
  {
    var p, q := s[..i], s[..i + 1];
    forall key | key in Bindings(q)
      ensures key == s[i].key || key in Bindings(p)
    {
      var j := ContentsHas(q, key);
      if j < i {
        ContentsAt(p, j);
      }
    }
  }

  /** The mapping of a prefix grows by the next slot's binding. */
  lemma ContentsSnoc(s: seq<Entry>, i: nat)
    requires KeysUnique(s) && i < |s|
    ensures KeysUnique(s[..i]) && KeysUnique(s[..i + 1])
    ensures Bindings(s[..i + 1]) ==
            if s[i].key == null then Bindings(s[..i]) else Bindings(s[..i])[s[i].key := s[i].value]
  {
    UniquePrefix(s, i);
    UniquePrefix(s, i + 1);
    SnocKeeps(s, i);
    SnocAdds(s, i);
  }

  /**
   * The state of a rebuild that has reinserted the keys of `o[..i]` into `t`: `t` holds no
   * tombstone, satisfies the table invariants, and binds exactly what `o[..i]` binds.
   */
  ghost predicate Rebuilding(t: seq<Entry>, o: seq<Entry>, i: nat)
  {
    i <= |o| && KeysUnique(o) && KeysUnique(o[..i])
    && (forall j :: 0 <= j < |t| && t[j].key == null ==> IsEmpty(t[j]))
    && KeysUnique(t) && ChainOk(t)
    && UsedCount(t) == LiveCount(o[..i])
    && Bindings(t) == Bindings(o[..i])
  }

  lemma RebuildStart(t: seq<Entry>, o: seq<Entry>)
    requires KeysUnique(o) && forall j :: 0 <= j < |t| ==> IsEmpty(t[j])
    ensures Rebuilding(t, o, 0)
  {
    AllEmptyUnused(t);
    assert o[..0] == [];
    assert Bindings(t) == map[];
  }

  lemma RebuildSkip(t: seq<Entry>, o: seq<Entry>, i: nat)
    requires Rebuilding(t, o, i) && i < |o| && o[i].key == null
    ensures Rebuilding(t, o, i + 1)
  {
    ContentsSnoc(o, i);
    assert o[..i + 1][..i] == o[..i];
  }

  /** The next key to reinsert is not yet in `t`, and `t` still has an empty slot. */
  lemma RebuildRoom(t: seq<Entry>, o: seq<Entry>, i: nat)
    requires Rebuilding(t, o, i) && i < |o| && o[i].key != null && LiveCount(o) < |t|
    ensures o[i].key !in Bindings(t) && UsedCount(t) < |t|
  {
    LivePrefix(o, i + 1);
    assert o[..i + 1][..i] == o[..i];
    forall j | 0 <= j < i
      ensures o[..i][j].key != o[i].key
    {
    }
  }

  lemma RebuildStep(t: seq<Entry>, o: seq<Entry>, i: nat, dest: nat)
    requires Rebuilding(t, o, i) && i < |o| && o[i].key != null && o[i].key !in Bindings(t)
    requires dest < |t| && FirstKeyless(t, Home(o[i].key.hash, |t|), dest)
    ensures Rebuilding(t[dest := o[i]], o, i + 1)
    ensures UsedCount(t[dest := o[i]]) == UsedCount(t) + 1
  {
    var t' := t[dest := o[i]];
    StoreThroughProbe(t, dest, o[i]);
    ContentsSnoc(o, i);
    assert o[..i + 1][..i] == o[..i];
    assert LiveCount(o[..i + 1]) == LiveCount(o[..i]) + 1;
    assert forall j :: 0 <= j < |t'| && t'[j].key == null ==> j != dest && t'[j] == t[j];
  }

  lemma RebuildDone(t: seq<Entry>, o: seq<Entry>)
    requires Rebuilding(t, o, |o|)
    ensures UsedCount(t) == LiveCount(o) && Bindings(t) == Bindings(o) && NoTombstones(t)
  {
    assert o[..|o|] == o;
  }

  /** The first `len` slots of the probe path from `home` do not hold `key`. */
  ghost predicate KeyNotOnPath(s: seq<Entry>, home: nat, len: nat, key: ObjString)
    requires home < |s| && len <= |s|
  {
    forall d :: 0 <= d < len ==> s[Probe(home, d, |s|)].key != key
  }

  /** The first `len` slots of the probe path from `home` hold no key matching `chars` and `hash`. */
  ghost predicate NoMatchOnPath(s: seq<Entry>, home: nat, len: nat, chars: seq<char>, hash: bv32)
    requires home < |s| && len <= |s|
  {
    forall d :: 0 <= d < len ==> s[Probe(home, d, |s|)].key == null || !Matches(s[Probe(home, d, |s|)].key, chars, hash)
  }

  /** A probe path of used slots never reaches past a truly empty slot. */
  lemma PathStopsAtEmpty(s: seq<Entry>, home: nat, len: nat, e: nat)
    requires home < |s| && len <= |s| && e < |s| && IsEmpty(s[e])
    ensures PathUsed(s, home, len) ==> len <= Dist(home, e, |s|)
  {
    var de := Dist(home, e, |s|);
  }

  /** The probe invariant, for one slot. */
  lemma ChainAt(s: seq<Entry>, j: nat)
    requires ChainOk(s) && j < |s|
    ensures s[j].key != null ==> PathUsed(s, Home(s[j].key.hash, |s|), Dist(Home(s[j].key.hash, |s|), j, |s|))
  {
  }

  /** The probe invariant extends a used path by one slot. */
  lemma PathUsedStep(s: seq<Entry>, home: nat, d: nat)
    requires home < |s| && d < |s| && PathUsed(s, home, d) && !IsEmpty(s[Probe(home, d, |s|)])
    ensures PathUsed(s, home, d + 1)
  {
  }

  /**
   * A probe that met a truly empty slot after passing only slots without `key` proves
   * the key absent: by the probe invariant it would have been met first.
   */
  lemma KeyAbsentBehindEmpty(s: seq<Entry>, home: nat, d: nat, key: ObjString)
    requires ChainOk(s) && d < |s| && home == Home(key.hash, |s|)
    requires KeyNotOnPath(s, home, d, key) && IsEmpty(s[Probe(home, d, |s|)])
    ensures forall j :: 0 <= j < |s| ==> s[j].key != key
  {
    forall j | 0 <= j < |s|
      ensures s[j].key != key
    {
      var dj := Dist(home, j, |s|);
      PathStopsAtEmpty(s, home, dj, Probe(home, d, |s|));
      DistOfProbe(home, d, |s|);
      ChainAt(s, j);
      var probed := s[Probe(home, dj, |s|)];
    }
  }

  /** The same argument for a lookup by bytes: every matching key shares the probe's home. */
  lemma NoMatchBehindEmpty(s: seq<Entry>, home: nat, d: nat, chars: seq<char>, hash: bv32)
    requires ChainOk(s) && d < |s| && home == Home(hash, |s|)
    requires NoMatchOnPath(s, home, d, chars, hash) && IsEmpty(s[Probe(home, d, |s|)])
    ensures forall j :: 0 <= j < |s| && s[j].key != null ==> !Matches(s[j].key, chars, hash)
  {
    forall j | 0 <= j < |s| && s[j].key != null
      ensures !Matches(s[j].key, chars, hash)
    {
      var dj := Dist(home, j, |s|);
      PathStopsAtEmpty(s, home, dj, Probe(home, d, |s|));
      DistOfProbe(home, d, |s|);
      ChainAt(s, j);
      var probed := s[Probe(home, dj, |s|)];
    }
  }

  // ----- The probe -----

  /**
   * findEntry: probe linearly from the key's home slot. A key that is present is found
   * in its own slot; for an absent key the result is the first slot on the path without
   * a key, which is the first tombstone passed or else the truly empty slot that ends
   * the probe.
   */
  method FindEntry(entries: array<Entry>, key: ObjString) returns (index: nat)
    requires entries.Length > 0 && UsedCount(entries[..]) < entries.Length
    requires KeysUnique(entries[..]) && ChainOk(entries[..])
    ensures index < entries.Length
    ensures key in Bindings(entries[..]) ==> entries[index].key == key
    ensures key !in Bindings(entries[..]) ==> FirstKeyless(entries[..], Home(key.hash, entries.Length), index)
  {
    var n := entries.Length;
    ghost var s := entries[..];
    var home := Home(key.hash, n);
    ghost var empty := EmptySlotExists(s);
    index := home;
    var tombstone: int := -1;
    ghost var d: nat := 0;
    while true
      invariant d < n && index == Probe(home, d, n)
      invariant PathUsed(s, home, d) && KeyNotOnPath(s, home, d, key)
      invariant tombstone == -1 ==> PathLive(s, home, d)
      invariant tombstone != -1 ==> 0 <= tombstone < n && FirstKeyless(s, home, tombstone)
      decreases n - d
    {
      var entry := entries[index];
      DistOfProbe(home, d, n);
      if entry.key == null {
        if entry.value.Nil? {
          KeyAbsentBehindEmpty(s, home, d, key);
          if key in Bindings(s) {
            var j := ContentsHas(s, key);
          }
          if tombstone != -1 {
            index := tombstone;
          }
          return;
        }
        if tombstone == -1 {
          tombstone := index;
        }
      } else if entry.key == key {
        ContentsAt(s, index);
        return;
      }
      PathUsedStep(s, home, d);
      PathStopsAtEmpty(s, home, d + 1, empty);
      index := if index + 1 == n then 0 else index + 1;
      d := d + 1;
    }
  }

  /**
   * The invariant of a table's slots: `count` is the number of used slots (keys plus
   * tombstones), the load stays at most 0.75, no key appears twice, and every key is
   * reachable from its home slot.
   */
  ghost predicate TableInv(s: seq<Entry>, count: nat)
  {
    count == UsedCount(s) && WithinLoad(count, |s|) && KeysUnique(s) && ChainOk(s)
  }

  /** Storing through the probe keeps the invariant, counting a filled empty slot. */
  lemma SetKeepsInv(s: seq<Entry>, count: nat, i: nat, e: Entry)
    requires TableInv(s, count) && WithinLoad(count + 1, |s|) && i < |s| && e.key != null
    requires e.key in Bindings(s) ==> s[i].key == e.key
    requires e.key !in Bindings(s) ==> FirstKeyless(s, Home(e.key.hash, |s|), i)
    ensures TableInv(s[i := e], count + if IsEmpty(s[i]) then 1 else 0)
    ensures Bindings(s[i := e]) == Bindings(s)[e.key := e.value]
  {
    StoreThroughProbe(s, i, e);
  }

  /** Replacing a key by a tombstone keeps the invariant and the count. */
  lemma DeleteKeepsInv(s: seq<Entry>, count: nat, i: nat)
    requires TableInv(s, count) && i < |s| && s[i].key != null
    ensures TableInv(s[i := TOMBSTONE], count)
    ensures Bindings(s[i := TOMBSTONE]) == Bindings(s) - {s[i].key}
  {
    ClearThroughProbe(s, i);
  }

  /**
   * The body of tableSet once the load check has passed: find the key's slot through the
   * probe and store the binding there. Returns whether the key was absent and the new
   * used-slot count.
   */
  method StoreBinding(entries: array<Entry>, count: nat, key: ObjString, value: Value)
    returns (isNewKey: bool, used: nat)
    requires entries.Length > 0 && TableInv(entries[..], count) && WithinLoad(count + 1, entries.Length)
    modifies entries
    ensures TableInv(entries[..], used)
    ensures isNewKey <==> key !in old(Bindings(entries[..]))
    ensures Bindings(entries[..]) == old(Bindings(entries[..]))[key := value]
    ensures var o := old(entries[..]);
      exists i :: 0 <= i < |o| && entries[..] == o[i := Entry(key, value)] && used == count + (if IsEmpty(o[i]) then 1 else 0)
    ensures !isNewKey ==> used == count
    ensures isNewKey && NoTombstones(old(entries[..])) ==> used == count + 1
  {
    var i := FindEntry(entries, key);
    ghost var s := entries[..];
    isNewKey := entries[i].key == null;
    SetKeepsInv(s, count, i, Entry(key, value));
    used := if isNewKey && entries[i].value.Nil? then count + 1 else count;
    entries[i] := Entry(key, value);
    assert entries[..] == s[i := Entry(key, value)];
  }

  /**
   * The body of tableDelete on a non-empty table: find the key's slot and, if the key is
   * there, replace it by a tombstone.
   */
  method ClearBinding(entries: array<Entry>, count: nat, key: ObjString) returns (found: bool)
    requires entries.Length > 0 && TableInv(entries[..], count) && count < entries.Length
    modifies entries
    ensures TableInv(entries[..], count)
    ensures found <==> key in old(Bindings(entries[..]))
    ensures Bindings(entries[..]) == old(Bindings(entries[..])) - {key}
    ensures found ==> exists i :: 0 <= i < entries.Length && old(entries[i]).key == key && entries[i] == TOMBSTONE
  {
    var i := FindEntry(entries, key);
    if entries[i].key == null {
      return false;
    }
    ghost var s := entries[..];
    DeleteKeepsInv(s, count, i);
    entries[i] := TOMBSTONE;
    assert entries[..] == s[i := TOMBSTONE];
    found := true;
  }

  /**
   * The loop of adjustCapacity: insert every key of `from` into `into`, whose slots start
   * out empty, and return the number of keys inserted.
   */
  method Reinsert(from: array<Entry>, into: array<Entry>) returns (used: nat)
    requires from != into && KeysUnique(from[..]) && LiveCount(from[..]) < into.Length
    requires forall j :: 0 <= j < into.Length ==> IsEmpty(into[j])
    modifies into
    ensures used == UsedCount(into[..]) && Rebuilding(into[..], from[..], from.Length)
  {
    ghost var o := from[..];
    RebuildStart(into[..], o);
    used := 0;
    for i := 0 to from.Length
      invariant used == UsedCount(into[..]) && Rebuilding(into[..], o, i)
    {
      var entry := from[i];
      // The source's guard tests the slot's address, which is never null; the intended
      // guard, skipping slots with no key, is the one modelled here.
      if entry.key != null {
        RebuildRoom(into[..], o, i);
        var dest := FindEntry(into, entry.key);
        RebuildStep(into[..], o, i, dest);
        into[dest] := entry;
        used := used + 1;
      } else {
        RebuildSkip(into[..], o, i);
      }
    }
  }

  /**
   * The keys adjustCapacity's loop hands to findEntry as the source writes it: its guard
   * tests the address of the slot, which is never null, so no slot is skipped and every
   * slot's key is handed on, keyless slots included.
   */
  function KeysProbedAsWritten(o: seq<Entry>): (ks: seq<ObjString?>)
    ensures |ks| == |o| && forall i :: 0 <= i < |o| ==> ks[i] == o[i].key
  {
    if o == [] then [] else KeysProbedAsWritten(o[..|o| - 1]) + [o[|o| - 1].key]
  }

  /**
   * As written, growing any table that has slots hands findEntry a null key: a table
   * within its load factor always has a truly empty slot, and findEntry reads the hash of
   * the key it is given.
   */
  lemma AsWrittenProbesNull(s: seq<Entry>, count: nat)
    requires TableInv(s, count) && |s| > 0
    ensures null in KeysProbedAsWritten(s)
  {
    var e := EmptySlotExists(s);
    assert KeysProbedAsWritten(s)[e] == null;
  }

  /** A hash table whose entries array is rebuilt when it grows. */
  class Table {
    var count: nat
    var capacity: nat
    var entries: array<Entry>

    /**
     * `count` is the number of used slots (keys plus tombstones), the load stays at most
     * 0.75, no key appears twice, and every key is reachable from its home slot.
     */
    ghost predicate Valid()
      reads this, entries
    {
      entries.Length == capacity && TableInv(entries[..], count)
    }

    /** The bindings the table holds. */
    ghost function Contents(): map<ObjString, Value>
      reads this, entries
      requires Valid()
    {
      Bindings(entries[..])
    }

    /** initTable: no slots at all. */
    constructor ()
      ensures Valid() && fresh(entries)
      ensures count == 0 && capacity == 0 && Contents() == map[]
    {
      count, capacity := 0, 0;
      entries := new Entry[0];
    }

    /** freeTable: release the slots and return to the initial state. */
    method Free()
      requires Valid()
      modifies this
      ensures Valid() && fresh(entries)
      ensures count == 0 && capacity == 0 && Contents() == map[]
    {
      entries := new Entry[0];
      count, capacity := 0, 0;
    }

    /** A table with used slots has room: at least one slot is truly empty. */
    lemma RoomLeft()
      requires Valid() && count > 0
      ensures capacity > 0 && UsedCount(entries[..]) < capacity
    {
    }

    /** An empty count means an empty mapping. */
    lemma NoCountNoKeys()
      requires Valid() && count == 0
      ensures Contents() == map[]
    {
      NoneUsedNoKeys(entries[..]);
      if k :| k in Contents() {
        var i := ContentsHas(entries[..], k);
      }
    }

    /**
     * adjustCapacity: reinsert every key into a fresh array of `newCapacity` empty slots,
     * dropping tombstones; `count` becomes the number of keys reinserted.
     */
    method AdjustCapacity(newCapacity: nat)
      requires Valid() && count < newCapacity && WithinLoad(count, newCapacity)
      modifies this
      ensures Valid() && fresh(entries)
      ensures capacity == newCapacity
      ensures count == LiveCount(old(entries[..])) && count <= old(count)
      ensures Contents() == old(Contents()) && NoTombstones(entries[..])
    {
      var rebuilt := new Entry[newCapacity](_ => EMPTY);
      LiveAtMostUsed(entries[..]);
      count := Reinsert(entries, rebuilt);
      RebuildDone(rebuilt[..], entries[..]);
      entries := rebuilt;
      capacity := newCapacity;
    }

    /** tableGet: the value bound to `key`, if any. */
    method Get(key: ObjString) returns (found: bool, value: Value)
      requires Valid()
      ensures found <==> key in Contents()
      ensures found ==> value == Contents()[key]
    {
      if count == 0 {
        NoCountNoKeys();
        return false, Nil;
      }
      var i := FindEntry(entries, key);
      if entries[i].key == null {
        return false, Nil;
      }
      ContentsAt(entries[..], i);
      return true, entries[i].value;
    }

    /**
     * tableSet: bind `key` to `value`, growing first when one more used slot would pass
     * the load limit. The result says whether the key was absent (a reused tombstone
     * counts as absent); every other binding is unchanged.
     */
    method Set(key: ObjString, value: Value) returns (isNewKey: bool)
      requires Valid()
      modifies this, entries
      ensures Valid()
      ensures isNewKey <==> key !in old(Contents())
      ensures Contents() == old(Contents())[key := value]
      ensures capacity == if WithinLoad(old(count) + 1, old(capacity)) then old(capacity) else GrowCapacity(old(capacity))
      ensures entries == old(entries) || fresh(entries)
      ensures WithinLoad(old(count) + 1, old(capacity)) ==> entries == old(entries)
      ensures var base := if WithinLoad(old(count) + 1, old(capacity)) then old(count) else LiveCount(old(entries[..]));
        && (!isNewKey ==> count == base)
        && (isNewKey ==> count == base || count == base + 1)
        && (isNewKey && (NoTombstones(old(entries[..])) || !WithinLoad(old(count) + 1, old(capacity))) ==> count == base + 1)
    {
      if !WithinLoad(count + 1, capacity) {
        GrowthMakesRoom(count, capacity);
        AdjustCapacity(GrowCapacity(capacity));
      }
      isNewKey, count := StoreBinding(entries, count, key, value);
    }

    /**
     * tableDelete: replace the key's slot with a tombstone. `count` is unchanged, since
     * the tombstone still occupies the slot.
     */
    method Delete(key: ObjString) returns (found: bool)
      requires Valid()
      modifies entries
      ensures Valid() && count == old(count) && capacity == old(capacity)
      ensures found <==> key in old(Contents())
      ensures Contents() == old(Contents()) - {key}
      ensures found ==> exists i :: 0 <= i < capacity && old(entries[i]).key == key && entries[i] == TOMBSTONE
    {
      if count == 0 {
        NoCountNoKeys();
        return false;
      }
      RoomLeft();
      found := ClearBinding(entries, count, key);
    }

    /**
     * tableFindString: look a string up by its bytes and hash rather than by identity.
     * The result is a key whose length, hash and bytes all match, or null when no key
     * matches.
     */
    method FindString(chars: seq<char>, hash: bv32) returns (r: ObjString?)
      requires Valid()
      ensures r != null ==> r in Contents() && Matches(r, chars, hash)
      ensures r == null ==> forall k :: k in Contents() ==> !Matches(k, chars, hash)
    {
      if count == 0 {
        NoCountNoKeys();
        return null;
      }
      var n := capacity;
      ghost var s := entries[..];
      var home := Home(hash, n);
      var index := home;
      ghost var empty := EmptySlotExists(s);
      ghost var d: nat := 0;
      while true
        invariant d < n && index == Probe(home, d, n)
        invariant PathUsed(s, home, d) && NoMatchOnPath(s, home, d, chars, hash)
        decreases n - d
      {
        var entry := entries[index];
        if entry.key == null {
          if entry.value.Nil? {
            NoMatchBehindEmpty(s, home, d, chars, hash);
            forall k | k in Contents()
              ensures !Matches(k, chars, hash)
            {
              var j := ContentsHas(s, k);
            }
            return null;
          }
        } else if entry.key.length == |chars| && entry.key.hash == hash
                  && |entry.key.Content()| >= |chars| && entry.key.Content()[..|chars|] == chars {
          ContentsAt(s, index);
          return entry.key;
        }
        PathUsedStep(s, home, d);
        PathStopsAtEmpty(s, home, d + 1, empty);
        index := if index + 1 == n then 0 else index + 1;
        d := d + 1;
      }
    }
  }

  /** How `tableFindString` decides that a key is the string it looks for: length, hash, then bytes. */
  predicate Matches(k: ObjString, chars: seq<char>, hash: bv32)
  {
    k.length == |chars| && k.hash == hash && |k.Content()| >= |chars| && k.Content()[..|chars|] == chars
  }

  /** Overriding one binding after a union is the union with the overridden mapping. */
  lemma UnionUpdate<K, V>(m: map<K, V>, b: map<K, V>, k: K, v: V)
    ensures (m + b)[k := v] == m + b[k := v]
  {
  }

  /** tableAddAll: copy every binding of `src` into `dest`, overriding bindings of the same keys. */
  method AddAll(src: Table, dest: Table)
    requires src.Valid() && dest.Valid() && src != dest && src.entries != dest.entries
    modifies dest, dest.entries
    ensures dest.Valid()
    ensures dest.Contents() == old(dest.Contents()) + src.Contents()
  {
    ghost var s := src.entries[..];
    ghost var start := dest.Contents();
    for i := 0 to src.capacity
      invariant src.Valid() && src.entries[..] == s && src.entries != dest.entries
      invariant dest.entries == old(dest.entries) || fresh(dest.entries)
      invariant dest.Valid()
      invariant KeysUnique(s[..i]) && dest.Contents() == start + Bindings(s[..i])
    {
      ContentsSnoc(s, i);
      var entry := src.entries[i];
      if entry.key != null {
        ghost var before := dest.Contents();
        var _ := dest.Set(entry.key, entry.value);
        assert src.entries[..] == s && dest.Contents() == before[entry.key := entry.value];
        UnionUpdate(start, Bindings(s[..i]), entry.key, entry.value);
      }
    }
    assert s[..src.capacity] == s;
  }

  /**
   * The table unit test's insert and update of `foo` on an empty table: the first set is
   * new and grows the table to 8 slots; the second is not new and keeps the count.
   */
  method SetTwice(table: Table, foo: ObjString)
    returns (set1: bool, got1: bool, v1: Value, set2: bool, got2: bool, v2: Value)
    requires table.Valid() && table.Contents() == map[] && table.count == 0 && table.capacity == 0
    modifies table, table.entries
    ensures table.Valid() && table.Contents() == map[foo := Number("4.2")]
    ensures table.count == 1 && table.capacity == 8 && fresh(table.entries)
    ensures set1 && got1 && v1 == Number("6.9") && !set2 && got2 && v2 == Number("4.2")
  {
    set1 := table.Set(foo, Number("6.9"));
    assert table.Contents() == map[foo := Number("6.9")];
    got1, v1 := table.Get(foo);
    set2 := table.Set(foo, Number("4.2"));
    got2, v2 := table.Get(foo);
  }

  /**
   * The table unit test on a fresh table: looking up and deleting an absent key fail, the
   * key is inserted and updated (`SetTwice`), and after the delete it is gone while its
   * tombstone keeps the count at 1.
   */
  method CrudOperations(foo: ObjString) returns (results: seq<bool>, values: seq<Value>, counts: seq<nat>)
    ensures results == [false, false, true, true, false, true, true, false]
    ensures values == [Number("6.9"), Number("4.2")]
    ensures counts == [0, 1, 1]
  {
    var table := new Table();
    var c0 := table.count;
    var got1, _ := table.Get(foo);
    var deleted1 := table.Delete(foo);
    var set1, got2, v2, set2, got3, v3 := SetTwice(table, foo);
    var c1 := table.count;
    var deleted2 := table.Delete(foo);
    assert table.Contents() == map[];
    var c2 := table.count;
    var got4, _ := table.Get(foo);
    results := [got1, deleted1, set1, got2, set2, got3, deleted2, got4];
    values := [v2, v3];
    counts := [c0, c1, c2];
  }
}
