/**
 * Runtime values: the tagged union, string objects and their FNV-1a hash, the value
 * equality the tests pin down, and the growable value array used as a constant pool.
 */
module Values {
  import opened Memory

  /** A heap character buffer (a `char *`): its identity is the address, `text` its bytes. */
  class CharBuffer {
    const text: seq<char>

    constructor (text: seq<char>)
      ensures this.text == text
    {
      this.text := text;
    }
  }

  const FNV_OFFSET_BASIS: bv32 := 2166136261
  const FNV_PRIME: bv32 := 16777619

  /** The `(uint8_t)` cast applied to each character before it is hashed. */
  function ByteOf(c: char): bv32
  {
    ((c as int) % 256) as bv32
  }

  /** One FNV-1a round: xor the byte in, then multiply by the prime modulo 2^32. */
  function FnvStep(h: bv32, c: char): bv32
  {
    (h ^ ByteOf(c)) * FNV_PRIME
  }

  /** 32-bit FNV-1a of a byte string, folding from the first byte to the last. */
  function Fnv1a(s: seq<char>): bv32
    decreases |s|
  {
    if s == [] then FNV_OFFSET_BASIS else FnvStep(Fnv1a(s[..|s| - 1]), s[|s| - 1])
  }

  /**
   * An interned string object. Its fields never change after allocation, so they are
   * constants; `chars` is the buffer the object owns.
   */
  class ObjString {
    const length: nat
    const chars: CharBuffer
    const hash: bv32

    constructor (chars: CharBuffer, length: nat, hash: bv32)
      ensures this.chars == chars && this.length == length && this.hash == hash
    {
      this.chars := chars;
      this.length := length;
      this.hash := hash;
    }

    /** The string's bytes. */
    function Content(): seq<char>
    {
      chars.text
    }

    /** What allocation establishes: the length and the hash agree with the bytes. */
    predicate Valid()
    {
      length == |chars.text| && hash == Fnv1a(chars.text)
    }
  }

  /**
   * A runtime value. Numbers are kept as the literal text the compiler read them from:
   * floating point is not part of this model.
   */
  datatype Value = Bool(b: bool) | Nil | Number(literal: string) | Obj(str: ObjString)

  /** Value equality: same tag, then booleans and numbers by value, strings by their bytes. */
  function ValuesEqual(a: Value, b: Value): bool
  {
    match (a, b)
    case (Bool(x), Bool(y)) => x == y
    case (Nil, Nil) => true
    case (Number(x), Number(y)) => x == y
    case (Obj(x), Obj(y)) => x.length == y.length && x.Content() == y.Content()
    case _ => false
  }

  predicate SameTag(a: Value, b: Value)
  {
    (a.Bool? && b.Bool?) || (a.Nil? && b.Nil?) || (a.Number? && b.Number?) || (a.Obj? && b.Obj?)
  }

  /** Values of different tags are never equal; nil equals nil; booleans compare by value. */
  lemma ValuesEqualByTag(a: Value, b: Value)
    ensures !SameTag(a, b) ==> !ValuesEqual(a, b)
    ensures a.Nil? && b.Nil? ==> ValuesEqual(a, b)
    ensures a.Bool? && b.Bool? ==> (ValuesEqual(a, b) <==> a.b == b.b)
  {
  }

  /** Value equality is an equivalence relation. */
  lemma ValuesEqualIsEquivalence(a: Value, b: Value, c: Value)
    ensures ValuesEqual(a, a)
    ensures ValuesEqual(a, b) ==> ValuesEqual(b, a)
    ensures ValuesEqual(a, b) && ValuesEqual(b, c) ==> ValuesEqual(a, c)
  {
  }

  /** Two distinct string objects with the same bytes are equal values. */
  lemma ValuesEqualStrings(x: ObjString, y: ObjString)
    requires x.Valid() && y.Valid()
    ensures ValuesEqual(Obj(x), Obj(y)) <==> x.Content() == y.Content()
  {
  }

  /** A growable array of values, updated in place (the chunk's constant pool). */
  class ValueArray {
    var count: nat
    var capacity: nat
    var values: array<Value>

    ghost predicate Valid()
      reads this
    {
      values.Length == capacity && count <= capacity
    }

    /** The values appended so far, in order. */
    ghost function Contents(): seq<Value>
      reads this, values
      requires Valid()
    {
      values[..count]
    }

    /** initValueArray: no values and no storage. */
    constructor ()
      ensures Valid() && fresh(values)
      ensures count == 0 && capacity == 0 && Contents() == []
    {
      count, capacity := 0, 0;
      values := new Value[0];
    }

    /** growValueArray: move to a larger buffer, keeping every stored value. */
    method Grow()
      requires Valid()
      modifies this
      ensures Valid() && fresh(values)
      ensures count == old(count) && capacity == GrowCapacity(old(capacity))
      ensures Contents() == old(Contents())
    {
      var newCapacity := if capacity < 8 then 8 else capacity * 2;
      var bigger := new Value[newCapacity];
      forall i | 0 <= i < values.Length {
        bigger[i] := values[i];
      }
      capacity := newCapacity;
      values := bigger;
    }

    /** appendValueArray: store `value` at index `count`, growing first when full. */
    method Append(value: Value)
      requires Valid()
      modifies this, values
      ensures Valid()
      ensures count == old(count) + 1
      ensures Contents() == old(Contents()) + [value]
      ensures capacity == if old(count) + 1 > old(capacity) then GrowCapacity(old(capacity)) else old(capacity)
      ensures values == old(values) || fresh(values)
    {
      if count + 1 > capacity {
        Grow();
      }
      values[count] := value;
      count := count + 1;
    }

    /** freeValueArray: drop the storage and return to the initial empty state. */
    method Free()
      requires Valid()
      modifies this
      ensures Valid() && fresh(values)
      ensures count == 0 && capacity == 0 && Contents() == []
    {
      values := new Value[0];
      count, capacity := 0, 0;
    }
  }
}
