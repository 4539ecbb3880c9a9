/**
 * String objects and interning: the FNV-1a hash loop, allocation onto the collector's
 * object list, and `copyString` / `takeString`, which consult the intern table before
 * allocating so that no two interned strings have the same bytes.
 */
module Objects {
  import opened Values
  import opened Tables

  /**
   * The collector: the list of every allocated object, newest first. `freed` records the
   * character buffers handed back to the allocator, so that a caller can see which of its
   * buffers it no longer owns.
   */
  class GC {
    var objects: seq<ObjString>
    ghost var freed: set<CharBuffer>

    /** initGC: no objects yet. */
    constructor ()
      ensures objects == [] && freed == {}
    {
      objects := [];
      freed := {};
    }

    /** gcAddObject: link the object in at the head of the list. */
    method AddObject(obj: ObjString)
      modifies this
      ensures objects == [obj] + old(objects) && freed == old(freed)
    {
      objects := [obj] + objects;
    }

    /** FREE_ARRAY of a character buffer: the buffer goes back to the allocator. */
    method FreeChars(buffer: CharBuffer)
      modifies this
      ensures freed == old(freed) + {buffer} && objects == old(objects)
    {
      freed := freed + {buffer};
    }
  }

  /** hashString: 32-bit FNV-1a over the first `n` bytes, accumulated in a loop. */
  method HashString(key: seq<char>, n: nat) returns (hash: bv32)
    requires n <= |key|
    ensures hash == Fnv1a(key[..n])
  {
    hash := FNV_OFFSET_BASIS;
    for i := 0 to n
      invariant hash == Fnv1a(key[..i])
    {
      assert key[..i + 1][..i] == key[..i];
      hash := FnvStep(hash, key[i]);
    }
  }

  /** FNV-1a written as the front-to-back fold the loop performs, from a running hash `h`. */
  function FnvFold(h: bv32, s: seq<char>): bv32
    decreases |s|
  {
    if s == [] then h else FnvFold(FnvStep(h, s[0]), s[1..])
  }

  /** Folding over a longer string is one more round after folding over its prefix. */
  lemma {:induction false} FnvFoldSnoc(h: bv32, s: seq<char>, c: char)
    ensures FnvFold(h, s + [c]) == FnvStep(FnvFold(h, s), c)
    decreases |s|
  {
    if s == [] {
      assert [c][1..] == [];
    } else {
      assert (s + [c])[1..] == s[1..] + [c];
      FnvFoldSnoc(FnvStep(h, s[0]), s[1..], c);
    }
  }

  /** The hash of the model is the textbook fold from the offset basis. */
  lemma {:induction false} Fnv1aIsFold(s: seq<char>)
    ensures Fnv1a(s) == FnvFold(FNV_OFFSET_BASIS, s)
    decreases |s|
  {
    if s != [] {
      var init := s[..|s| - 1];
      Fnv1aIsFold(init);
      FnvFoldSnoc(FNV_OFFSET_BASIS, init, s[|s| - 1]);
      assert init + [s[|s| - 1]] == s;
    }
  }

  /** Published FNV-1a 32-bit test vectors: the empty string and "a". */
  lemma Fnv1aVectors()
    ensures Fnv1a("") == 0x811c9dc5
    ensures Fnv1a("a") == 0xe40c292c
  {
    assert "a"[..0] == "";
  }

  /**
   * The intern pool: the table is valid, every key is a well-formed string bound to nil
   * and owned by the collector, and no two keys have the same bytes.
   */
  ghost predicate Interned(strings: Table, gc: GC)
    reads strings, strings.entries, gc
  {
    && strings.Valid()
    && (forall k :: k in strings.Contents() ==> k.Valid() && strings.Contents()[k] == Nil && k in gc.objects)
    && (forall a, b :: a in strings.Contents() && b in strings.Contents() && a.Content() == b.Content() ==> a == b)
  }

  /** Whether some interned string has exactly these bytes. */
  ghost predicate HasContent(pool: map<ObjString, Value>, chars: seq<char>)
  {
    exists k :: k in pool && k.Content() == chars
  }

  /** For a well-formed string, the table's byte comparison is content equality. */
  lemma MatchesValid(k: ObjString, chars: seq<char>)
    requires k.Valid()
    ensures Matches(k, chars, Fnv1a(chars)) <==> k.Content() == chars
  {
    if k.Content() == chars {
      assert k.Content()[..|chars|] == chars;
    }
  }

  /** In the pool, string equality by bytes is object identity. */
  lemma InternedEqualityIsIdentity(strings: Table, gc: GC, a: ObjString, b: ObjString)
    requires Interned(strings, gc) && a in strings.Contents() && b in strings.Contents()
    ensures ValuesEqual(Obj(a), Obj(b)) <==> a == b
  {
  }

  /**
   * allocateString (with allocateObject): a new string object over `chars`, prepended to
   * the collector's list and added to the pool bound to nil.
   */
  method AllocateString(gc: GC, strings: Table, chars: CharBuffer, n: nat, hash: bv32) returns (s: ObjString)
    requires strings.Valid()
    modifies gc, strings, strings.entries
    ensures fresh(s) && s.chars == chars && s.length == n && s.hash == hash
    ensures gc.objects == [s] + old(gc.objects) && gc.freed == old(gc.freed)
    ensures strings.Valid() && strings.Contents() == old(strings.Contents())[s := Nil]
  {
    s := new ObjString(chars, n, hash);
    gc.AddObject(s);
    var _ := strings.Set(s, Nil);
  }

  /** Adding a new string whose bytes are not yet interned keeps the pool's invariant. */
  lemma InternNew(pool: map<ObjString, Value>, pool': map<ObjString, Value>, objects: seq<ObjString>, s: ObjString)
    requires forall k :: k in pool ==> k.Valid() && pool[k] == Nil && k in objects
    requires forall a, b :: a in pool && b in pool && a.Content() == b.Content() ==> a == b
    requires s.Valid() && !HasContent(pool, s.Content()) && pool' == pool[s := Nil]
    ensures forall k :: k in pool' ==> k.Valid() && pool'[k] == Nil && k in [s] + objects
    ensures forall a, b :: a in pool' && b in pool' && a.Content() == b.Content() ==> a == b
  {
  }

  /** A failed lookup by bytes and hash means no interned string has those bytes. */
  lemma MissMeansAbsent(strings: Table, gc: GC, chars: seq<char>)
    requires Interned(strings, gc)
    requires forall k :: k in strings.Contents() ==> !Matches(k, chars, Fnv1a(chars))
    ensures !HasContent(strings.Contents(), chars)
  {
    forall k | k in strings.Contents()
      ensures k.Content() != chars
    {
      MatchesValid(k, chars);
    }
  }

  /**
   * copyString: the interned string with these bytes, if there is one (nothing is
   * allocated); otherwise a new string over a fresh copy of the bytes, added to the pool.
   */
  method CopyString(gc: GC, strings: Table, chars: seq<char>) returns (r: ObjString)
    requires Interned(strings, gc)
    modifies gc, strings, strings.entries
    ensures Interned(strings, gc)
    ensures r in strings.Contents() && r.Valid() && r.Content() == chars && r.length == |chars|
    ensures gc.freed == old(gc.freed)
    ensures HasContent(old(strings.Contents()), chars) ==>
              r in old(strings.Contents()) && gc.objects == old(gc.objects)
              && strings.Contents() == old(strings.Contents())
    ensures !HasContent(old(strings.Contents()), chars) ==>
              fresh(r) && fresh(r.chars) && gc.objects == [r] + old(gc.objects)
              && strings.Contents() == old(strings.Contents())[r := Nil]
  {
    var hash := HashString(chars, |chars|);
    assert chars[..|chars|] == chars;
    var interned := strings.FindString(chars, hash);
    if interned != null {
      MatchesValid(interned, chars);
      return interned;
    }
    MissMeansAbsent(strings, gc, chars);
    var buffer := new CharBuffer(chars);
    r := AllocateString(gc, strings, buffer, |chars|, hash);
    InternNew(old(strings.Contents()), strings.Contents(), old(gc.objects), r);
  }

  /**
   * takeString: like copyString, but the caller hands over its buffer: on a miss the new
   * string adopts it rather than a copy, and on a hit it is freed.
   */
  method TakeString(gc: GC, strings: Table, chars: CharBuffer, n: nat) returns (r: ObjString)
    requires Interned(strings, gc) && n == |chars.text|
    modifies gc, strings, strings.entries
    ensures Interned(strings, gc)
    ensures r in strings.Contents() && r.Valid() && r.Content() == chars.text && r.length == n
    ensures HasContent(old(strings.Contents()), chars.text) ==>
              r in old(strings.Contents()) && gc.objects == old(gc.objects)
              && strings.Contents() == old(strings.Contents()) && gc.freed == old(gc.freed) + {chars}
    ensures !HasContent(old(strings.Contents()), chars.text) ==>
              fresh(r) && r.chars == chars && gc.objects == [r] + old(gc.objects)
              && strings.Contents() == old(strings.Contents())[r := Nil] && gc.freed == old(gc.freed)
  {
    var hash := HashString(chars.text, n);
    assert chars.text[..n] == chars.text;
    var interned := strings.FindString(chars.text, hash);
    if interned != null {
      MatchesValid(interned, chars.text);
      gc.FreeChars(chars);
      return interned;
    }
    MissMeansAbsent(strings, gc, chars.text);
    r := AllocateString(gc, strings, chars, n, hash);
    InternNew(old(strings.Contents()), strings.Contents(), old(gc.objects), r);
  }
}
