/** The simulator's value domain, as far as the modelled opcodes and memory
    regions use it: literals of a byte width with a defined flag, addresses
    that carry their region, string addresses, symbols, file pointers, and the
    three-valued booleans that branch conditions produce.  The Python classes
    behind it (SimValue, SimSymbolicValue) are not part of this model; the
    operations below are stand-ins with the behaviour the opcodes rely on. */
module SimValue {
  import opened Base

  /** simtrue, simfalse and simUndefinedBool. */
  datatype SimBool = SimTrue | SimFalse | SimUndefinedBool
  {
    predicate IsDefined() { !SimUndefinedBool? }
    predicate IsTrue() { SimTrue? }
  }

  function FromBool(b: bool): (r: SimBool)
    ensures r.IsDefined() && (r.IsTrue() <==> b)
  {
    if b then SimTrue else SimFalse
  }

  /** The memory region an address belongs to; a base (heap) region has a name. */
  datatype Region = Global | Stack | Heap(name: string)

  function RegionName(r: Region): string
  {
    match r
    case Global => "global"
    case Stack => "stack"
    case Heap(n) => n
  }

  /** SimAddress: a region, an offset within it, and whether the offset is known. */
  datatype SimAddress = SimAddress(region: Region, offset: int, defined: bool)
  {
    function AddOffset(k: int): SimAddress
    {
      SimAddress(region, offset + k, defined)
    }

    /** The offset's position within its aligned word (Python's `offset % 4`). */
    function Alignment(): (k: nat)
      ensures k < 4
    {
      offset % 4
    }
  }

  datatype Value =
    | Literal(size: nat, bits: nat, defined: bool)
    | Address(addr: SimAddress)
    | StringAddress(text: string)
    | Symbol(name: string, nonNegative: SimBool)
    | FilePointer(name: string)
  {
    predicate IsLiteral() { Literal? }
    predicate IsSymbol() { Symbol? }
    /** Every value that is not a literal is a symbolic value. */
    predicate IsSymbolic() { !Literal? }
    predicate IsAddress() { Address? }
    predicate IsStringAddress() { StringAddress? }
    predicate IsFilePointer() { FilePointer? }
    predicate IsDoubleword() { Literal? && size == 4 }

    predicate IsDefined()
    {
      match this
      case Literal(_, _, d) => d
      case Address(a) => a.defined
      case _ => true
    }
  }

  const Pow32: nat := 0x1_0000_0000

  /** simUndefinedDW, simZero and simOne. */
  const UndefinedDW: Value := Literal(4, 0, false)
  const SimZero: Value := Literal(4, 0, true)
  const SimOne: Value := Literal(4, 1, true)

  /** mk_simvalue(v, size): a defined literal of `size` bytes, truncated to that
      width in two's complement. */
  function MkSimValue(v: int, size: nat): (r: Value)
    ensures r.Literal? && r.defined && r.size == size
    ensures 0 <= r.bits < Pow256(size)
  {
    Literal(size, v % Pow256(size), true)
  }

  /** mk_symbol(name): a fresh symbol whose sign is unknown. */
  function MkSymbol(name: string): Value
  {
    Symbol(name, SimUndefinedBool)
  }

  /** str(value).  A defined literal renders in hex, so that a literal one renders as "0x1". */
  function Render(v: Value): string
  {
    match v
    case Literal(_, bits, d) => if d then Hex(bits) else "?"
    case Address(a) => RegionName(a.region) + ":" + Hex(a.offset)
    case StringAddress(t) => "\"" + t + "\""
    case Symbol(n, _) => n
    case FilePointer(n) => n
  }

  // ---------------------------------------------------------------------------
  // Bit-accurate operations on doublewords
  // ---------------------------------------------------------------------------

  function ToBv32(a: int): bv32
  {
    (a % Pow32) as bv32
  }

  function Or32(a: int, b: int): (r: nat)
    ensures r < Pow32
  {
    (ToBv32(a) | ToBv32(b)) as nat
  }

  function And32(a: int, b: int): (r: nat)
    ensures r < Pow32
  {
    (ToBv32(a) & ToBv32(b)) as nat
  }

  function Pow2(n: nat): (p: nat)
    ensures p >= 1
  {
    if n == 0 then 1 else 2 * Pow2(n - 1)
  }

  /** Shift left by `n` bits, keeping the low 32 bits. */
  function Sll32(a: int, n: nat): (r: nat)
    ensures r < Pow32
  {
    ((a % Pow32) * Pow2(n)) % Pow32
  }

  lemma {:induction false} Pow2Split(n: nat)
    requires n >= 32
    ensures Pow2(n) == Pow32 * Pow2(n - 32)
  {
    if n > 32 {
      Pow2Split(n - 1);
    } else {
      assert Pow2(32) == Pow32 by { Pow2Literal32(); }
    }
  }

  lemma Pow2Literal32()
    ensures Pow2(32) == Pow32
  {
    assert Pow2(8) == 256;
    assert Pow2(16) == 256 * Pow2(8);
    assert Pow2(24) == 256 * Pow2(16);
    assert Pow2(32) == 256 * Pow2(24);
  }

  /** Without a 5-bit mask on the amount, every shift by 32 or more clears the word. */
  lemma SllBeyondWidth(a: int, n: nat)
    requires n >= 32
    ensures Sll32(a, n) == 0
  {
    Pow2Split(n);
    var k := (a % Pow32) * Pow2(n - 32);
    assert (a % Pow32) * Pow2(n) == Pow32 * k;
  }

  /** A doubleword literal's sign, read as a 32-bit two's-complement number. */
  predicate NonNegative32(a: int)
  {
    a % Pow32 < 0x8000_0000
  }

  /** is_equal on two literals: decided when both are defined. */
  function IsEqual(v1: Value, v2: Value): (r: SimBool)
    requires v1.Literal? && v2.Literal?
    ensures r.IsDefined() <==> v1.defined && v2.defined
    ensures r.IsTrue() <==> v1.defined && v2.defined && v1.bits == v2.bits
  {
    if v1.defined && v2.defined then FromBool(v1.bits == v2.bits) else SimUndefinedBool
  }

  /** bitwise_or on two literals, at doubleword width. */
  function BitwiseOr(v1: Value, v2: Value): Value
    requires v1.Literal? && v2.Literal?
  {
    Literal(4, Or32(v1.bits, v2.bits), v1.defined && v2.defined)
  }

  /** bitwise_and on two literals, at doubleword width. */
  function BitwiseAnd(v1: Value, v2: Value): Value
    requires v1.Literal? && v2.Literal?
  {
    Literal(4, And32(v1.bits, v2.bits), v1.defined && v2.defined)
  }

  /** bitwise_sll(n) on a literal, at doubleword width. */
  function BitwiseSll(v: Value, n: nat): Value
    requires v.Literal?
  {
    Literal(4, Sll32(v.bits, n), v.defined)
  }

  // ---------------------------------------------------------------------------
  // Bytes of a doubleword (byte 1 is the least significant)
  // ---------------------------------------------------------------------------

  function WordBytes(x: int): (bs: seq<byte>)
    ensures |bs| == 4
  {
    ToBytes(x % Pow32, 4)
  }

  /** Byte `k` (1..4) of the doubleword `x`. */
  function ByteOf(x: int, k: nat): byte
    requires 1 <= k <= 4
  {
    WordBytes(x)[k - 1]
  }

  /** The doubleword `x` with byte `k` replaced by `b`. */
  function SetByteBits(x: int, k: nat, b: byte): (r: nat)
    requires 1 <= k <= 4
  {
    FromBytes(WordBytes(x)[k - 1 := b])
  }

  /** Replacing byte `k` changes byte `k` and no other. */
  lemma SetByteFrame(x: int, k: nat, b: byte, j: nat)
    requires 1 <= k <= 4 && 1 <= j <= 4
    ensures ByteOf(SetByteBits(x, k, b), j) == if j == k then b else ByteOf(x, j)
  {
    var bs := WordBytes(x)[k - 1 := b];
    FromBytesBound(bs);
    assert Pow256(4) == Pow32;
    ToFromBytes(bs);
  }

  /** set_byteN: a doubleword literal with byte `k` replaced; the result is
      defined only when the word and the byte both are. */
  function SetByte(dst: Value, k: nat, b: Value): (r: Value)
    requires 1 <= k <= 4
    ensures r.IsDoubleword()
  {
    if dst.Literal? && dst.defined && b.Literal? && b.defined && 0 <= b.bits < 256
    then Literal(4, SetByteBits(dst.bits, k, b.bits as byte), true)
    else UndefinedDW
  }

  /** The value of bytes read in address order, under the configured endianness. */
  function Assemble(bs: seq<byte>, bigendian: bool): nat
  {
    if bigendian then FromBytes(Reverse(bs)) else FromBytes(bs)
  }
}
