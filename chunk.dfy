/** The bytecode container: instruction bytes, an index-aligned line table and a constant pool. */
module Chunks {
  import opened Memory
  import opened Values

  newtype byte = x: int | 0 <= x < 256

  /** The instruction set, in the order of the C enumeration (so `OpCode` n is byte n). */
  datatype OpCode =
    | OpConstant | OpNil | OpTrue | OpFalse | OpPop
    | OpAdd | OpSubtract | OpMultiply | OpDivide
    | OpLess | OpLessEqual | OpEqual | OpNotEqual | OpGreater | OpGreaterEqual
    | OpNot | OpNegate | OpPrint | OpReturn

  /** The byte an opcode is written as. */
  function Encode(op: OpCode): (b: byte)
    ensures b < 19
  {
    match op
    case OpConstant => 0
    case OpNil => 1
    case OpTrue => 2
    case OpFalse => 3
    case OpPop => 4
    case OpAdd => 5
    case OpSubtract => 6
    case OpMultiply => 7
    case OpDivide => 8
    case OpLess => 9
    case OpLessEqual => 10
    case OpEqual => 11
    case OpNotEqual => 12
    case OpGreater => 13
    case OpGreaterEqual => 14
    case OpNot => 15
    case OpNegate => 16
    case OpPrint => 17
    case OpReturn => 18
  }

  /** Encoding is injective: distinct opcodes are written as distinct bytes. */
  lemma EncodeInjective(a: OpCode, b: OpCode)
    ensures Encode(a) == Encode(b) ==> a == b
  {
  }

  /** A chunk of bytecode, grown in place by `WriteChunk` and `AddConstant`. */
  class Chunk {
    var count: nat
    var capacity: nat
    var code: array<byte>
    var lines: array<int>
    const constants: ValueArray

    ghost predicate Valid()
      reads this, constants
    {
      code.Length == capacity && lines.Length == capacity && count <= capacity && constants.Valid()
    }

    /** The instruction bytes written so far. */
    ghost function Code(): seq<byte>
      reads this, code, constants
      requires Valid()
    {
      code[..count]
    }

    /** The source line of every instruction byte, index-aligned with `Code()`. */
    ghost function Lines(): seq<int>
      reads this, lines, constants
      requires Valid()
    {
      lines[..count]
    }

    /** The constant pool. */
    ghost function Constants(): seq<Value>
      reads this, constants, constants.values
      requires Valid()
    {
      constants.Contents()
    }

    /** initChunk: nothing written, no storage, an empty constant pool. */
    constructor ()
      ensures Valid() && fresh(code) && fresh(lines) && fresh(constants) && fresh(constants.values)
      ensures count == 0 && capacity == 0 && constants.count == 0 && constants.capacity == 0
      ensures Code() == [] && Lines() == [] && Constants() == []
    {
      count, capacity := 0, 0;
      code := new byte[0];
      lines := new int[0];
      constants := new ValueArray();
    }

    /** growChunk: both buffers move to `GROW_CAPACITY` slots, keeping what was written. */
    method Grow()
      requires Valid()
      modifies this
      ensures Valid() && fresh(code) && fresh(lines)
      ensures count == old(count) && capacity == GrowCapacity(old(capacity))
      ensures Code() == old(Code()) && Lines() == old(Lines())
    {
      var newCapacity := GrowCapacity(capacity);
      var newCode := new byte[newCapacity];
      var newLines := new int[newCapacity];
      forall i | 0 <= i < code.Length {
        newCode[i] := code[i];
      }
      forall i | 0 <= i < lines.Length {
        newLines[i] := lines[i];
      }
      capacity := newCapacity;
      code, lines := newCode, newLines;
    }

    /**
     * writeChunk: the byte and its line go to index `count`, which then grows by one;
     * storage grows only when the chunk is full.
     */
    method WriteChunk(b: byte, line: int)
      requires Valid()
      modifies this, code, lines
      ensures Valid()
      ensures count == old(count) + 1
      ensures Code() == old(Code()) + [b] && Lines() == old(Lines()) + [line]
      ensures capacity == if old(count) + 1 > old(capacity) then GrowCapacity(old(capacity)) else old(capacity)
      ensures (code == old(code) && lines == old(lines)) || (fresh(code) && fresh(lines))
      ensures Constants() == old(Constants())
    {
      if count + 1 > capacity {
        Grow();
      }
      code[count] := b;
      lines[count] := line;
      count := count + 1;
    }

    /** addConstant: append to the pool and return the new value's index. */
    method AddConstant(value: Value) returns (index: nat)
      requires Valid()
      modifies constants, constants.values
      ensures Valid()
      ensures index == |old(Constants())|
      ensures Constants() == old(Constants()) + [value]
      ensures constants.values == old(constants.values) || fresh(constants.values)
    {
      constants.Append(value);
      index := constants.count - 1;
    }

    /** freeChunk: release every buffer and return to the freshly initialised state. */
    method Free()
      requires Valid()
      modifies this, constants
      ensures Valid() && fresh(code) && fresh(lines) && fresh(constants.values)
      ensures count == 0 && capacity == 0 && constants.count == 0 && constants.capacity == 0
      ensures Code() == [] && Lines() == [] && Constants() == []
    {
      constants.Free();
      code := new byte[0];
      lines := new int[0];
      count, capacity := 0, 0;
    }
  }
}
