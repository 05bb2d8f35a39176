/** ARM operand kinds: their flags, accessors and text, in the assembler's
    syntax (register lists in braces, offset, pre-indexed and post-indexed
    addressing, immediates in hex). */
module ArmOperandKind {
  import opened Base
  import opened ArmRecords
  import ArmMemoryOffset

  /** The shapes the dictionary gives the registered variants: tags and args
      counts of arm_operand_kind_t. */
  predicate WellFormed(k: Record)
  {
    match Tag(k)
    case "r" => |k.tags| == 2 && |k.args| == 0
    case "l" => |k.tags| >= 1 && |k.args| == 0
    case "s" => |k.tags| == 2 && |k.args| == 1
    case "b" => |k.tags| == 2 && |k.args| == 2
    case "i" => |k.tags| == 2 && |k.args| == 0
    case "a" => |k.tags| == 1 && |k.args| == 1
    case "m" => |k.tags| == 2 && |k.args| == 1
    case "o" => |k.tags| == 2 && |k.args| == 4
    case _ => false
  }

  /** is_arm_absolute: false for every kind, the absolute kind included (no
      class overrides it). */
  predicate IsArmAbsolute(k: Record)
  {
    false
  }

  /** is_arm_immediate: overridden only by the immediate kind. */
  predicate IsArmImmediate(k: Record)
  {
    Tag(k) == "i"
  }

  /** The base kind's text, used by the kinds that define none (the register
      bit sequence). */
  function BaseText(k: Record): (s: string)
    requires |k.tags| >= 1
    ensures |s| == 13 + |k.tags[0]| && s[13..] == k.tags[0]
  {
    "operandkind: " + k.tags[0]
  }

  // ---------------------------------------------------------------------------
  // Register lists
  // ---------------------------------------------------------------------------

  /** ARMRegListOp.registers: tags[1:]. */
  function Registers(k: Record): (rs: seq<string>)
    requires Tag(k) == "l" && WellFormed(k)
    ensures |rs| == |k.tags| - 1
    ensures forall i :: 0 <= i < |rs| ==> rs[i] == k.tags[i + 1]
  {
    k.tags[1..]
  }

  function RegListText(k: Record): string
    requires Tag(k) == "l" && WellFormed(k)
  {
    "{" + Join(",", Registers(k)) + "}"
  }

  /** A register list is braced; inside the braces, splitting at the commas
      gives back the registers (when there are any and none holds a comma),
      and an empty list renders as "{}". */
  lemma RegListTextReadsBack(k: Record)
    requires Tag(k) == "l" && WellFormed(k)
    requires forall i :: 0 <= i < |Registers(k)| ==> ',' !in Registers(k)[i]
    ensures var s := RegListText(k);
            && |s| >= 2 && s[0] == '{' && s[|s| - 1] == '}'
            && (|Registers(k)| == 0 ==> s == "{}")
            && (|Registers(k)| > 0 ==> Split(s[1..|s| - 1], ',') == Registers(k))
  {
    var s := RegListText(k);
    var inner := Join(",", Registers(k));
    assert s[1..|s| - 1] == inner;
    if |Registers(k)| > 0 {
      SplitJoin(Registers(k), ',');
    }
  }

  // ---------------------------------------------------------------------------
  // Shifted registers
  // ---------------------------------------------------------------------------

  /** The register of a register, shifted register, memory-multiple or
      offset-address kind: tags[1]. */
  function Register(k: Record): string
    requires WellFormed(k) && Tag(k) in {"r", "s", "m", "o"}
  {
    k.tags[1]
  }

  /** The text of a shifted register's shift-rotate, args[0]. */
  function ShiftRotate(k: Record, d: ArmDictionary): string
    requires WellFormed(k) && Tag(k) == "s"
  {
    d.registerShift(k.args[0])
  }

  function ShiftedRegisterText(k: Record, d: ArmDictionary): string
    requires WellFormed(k) && Tag(k) == "s"
  {
    Register(k) + "," + ShiftRotate(k, d)
  }

  /** Two shifted registers without a comma in their names render alike
      exactly when register and shift-rotate agree. */
  lemma ShiftedRegisterTextInjective(k1: Record, k2: Record, d: ArmDictionary)
    requires WellFormed(k1) && Tag(k1) == "s" && WellFormed(k2) && Tag(k2) == "s"
    requires ',' !in Register(k1) && ',' !in Register(k2)
    ensures ShiftedRegisterText(k1, d) == ShiftedRegisterText(k2, d) <==>
              Register(k1) == Register(k2) && ShiftRotate(k1, d) == ShiftRotate(k2, d)
  {
    SeparatedPairInjective(Register(k1), ShiftRotate(k1, d), Register(k2), ShiftRotate(k2, d), ',');
  }

  // ---------------------------------------------------------------------------
  // Offset addresses
  // ---------------------------------------------------------------------------

  /** is_add, is_write_back, is_index: args[1], args[2], args[3] equal 1. */
  predicate IsAdd(k: Record)
    requires WellFormed(k) && Tag(k) == "o"
  {
    k.args[1] == 1
  }

  predicate IsWriteBack(k: Record)
    requires WellFormed(k) && Tag(k) == "o"
  {
    k.args[2] == 1
  }

  predicate IsIndex(k: Record)
    requires WellFormed(k) && Tag(k) == "o"
  {
    k.args[3] == 1
  }

  /** The memory-offset record, args[0]; the dictionary gives well-formed
      offsets. */
  function MemoryOffset(k: Record, d: ArmDictionary): Record
    requires WellFormed(k) && Tag(k) == "o"
  {
    d.memoryOffset(k.args[0])
  }

  /** The offset text, with a leading "-" for a subtracting offset. */
  function SignedOffsetText(k: Record, d: ArmDictionary): (s: string)
    requires WellFormed(k) && Tag(k) == "o" && ArmMemoryOffset.WellFormed(MemoryOffset(k, d))
    ensures var t := ArmMemoryOffset.Text(MemoryOffset(k, d), d);
            if IsAdd(k) then s == t else s == "-" + t
  {
    var t := ArmMemoryOffset.Text(MemoryOffset(k, d), d);
    if IsAdd(k) then t else "-" + t
  }

  /** The three addressing forms: pre-indexed with write-back "[r, off]!",
      post-indexed "[r], off", and offset "[r, off]". */
  function OffsetAddressText(k: Record, d: ArmDictionary): string
    requires WellFormed(k) && Tag(k) == "o" && ArmMemoryOffset.WellFormed(MemoryOffset(k, d))
  {
    var off := SignedOffsetText(k, d);
    if IsWriteBack(k) then
      if IsIndex(k) then "[" + Register(k) + ", " + off + "]!"
      else "[" + Register(k) + "], " + off
    else "[" + Register(k) + ", " + off + "]"
  }

  /** The text reveals the addressing form: the character after the
      register is ']' only for the post-indexed form, and the text ends in
      '!' only for the pre-indexed form (for an offset text that does not
      end in '!').  The register comes first, after the bracket. */
  lemma OffsetAddressForm(k: Record, d: ArmDictionary)
    requires WellFormed(k) && Tag(k) == "o" && ArmMemoryOffset.WellFormed(MemoryOffset(k, d))
    requires var t := ArmMemoryOffset.Text(MemoryOffset(k, d), d); |t| > 0 && t[|t| - 1] != '!'
    ensures var s := OffsetAddressText(k, d);
            var r := Register(k);
            && |s| > |r| + 1 && s[0] == '[' && s[1..|r| + 1] == r
            && (s[|r| + 1] == ']' <==> IsWriteBack(k) && !IsIndex(k))
            && (s[|s| - 1] == '!' <==> IsWriteBack(k) && IsIndex(k))
  {
    var s := OffsetAddressText(k, d);
    var r := Register(k);
    var off := SignedOffsetText(k, d);
    assert |off| > 0 && off[|off| - 1] != '!';
    if IsWriteBack(k) && !IsIndex(k) {
      assert s == "[" + r + "], " + off;
      assert s[|s| - 1] == off[|off| - 1];
    }
  }

  /** The sign of the offset: after "[r, " (or "[r], " in the post-indexed
      form) comes '-' exactly when the offset subtracts, for an offset text
      that does not itself start with '-'. */
  lemma OffsetAddressSign(k: Record, d: ArmDictionary)
    requires WellFormed(k) && Tag(k) == "o" && ArmMemoryOffset.WellFormed(MemoryOffset(k, d))
    requires var t := ArmMemoryOffset.Text(MemoryOffset(k, d), d); |t| > 0 && t[0] != '-'
    ensures var s := OffsetAddressText(k, d);
            var at := |Register(k)| + (if IsWriteBack(k) && !IsIndex(k) then 4 else 3);
            |s| > at && (s[at] == '-' <==> !IsAdd(k))
  {
    var s := OffsetAddressText(k, d);
    var r := Register(k);
    var off := SignedOffsetText(k, d);
    var at := |r| + (if IsWriteBack(k) && !IsIndex(k) then 4 else 3);
    assert s[at..][..|off|] == off;
  }

  // ---------------------------------------------------------------------------
  // Immediates
  // ---------------------------------------------------------------------------

  /** ARMImmediateOp.value: int(tags[1]); text that is not a decimal
      integer raises. */
  function Value(k: Record): (r: Result<int, string>)
    requires WellFormed(k) && Tag(k) == "i"
    ensures r.Ok? <==> ParseDecimal(k.tags[1]).Some?
    ensures r.Ok? ==> r.value == ParseDecimal(k.tags[1]).value
  {
    match ParseDecimal(k.tags[1])
    case Some(v) => Ok(v)
    case None => Err("invalid literal for int() with base 10: '" + k.tags[1] + "'")
  }

  /** to_unsigned_int and to_signed_int are the value itself. */
  function ToUnsignedInt(k: Record): Result<int, string>
    requires WellFormed(k) && Tag(k) == "i"
  {
    Value(k)
  }

  function ToSignedInt(k: Record): Result<int, string>
    requires WellFormed(k) && Tag(k) == "i"
  {
    Value(k)
  }

  function ImmediateText(k: Record): Result<string, string>
    requires WellFormed(k) && Tag(k) == "i"
  {
    match Value(k)
    case Ok(v) => Ok(Hex(v))
    case Err(e) => Err(e)
  }

  /** An immediate written as the decimal of n has value n, both as signed
      and as unsigned, and renders as hex that reads back as n. */
  lemma ImmediateReadsBack(k: Record, n: int)
    requires WellFormed(k) && Tag(k) == "i" && k.tags[1] == Str(n)
    ensures Value(k) == Ok(n) && ToUnsignedInt(k) == Ok(n) && ToSignedInt(k) == Ok(n)
    ensures ImmediateText(k).Ok? && ParseHex(ImmediateText(k).value) == Some(n)
  {
    DecimalRoundTrip(n);
    HexRoundTrip(n);
  }

  // ---------------------------------------------------------------------------
  // str(kind)
  // ---------------------------------------------------------------------------

  /** str(kind) for each registered variant; only an immediate whose text is
      not an integer fails. */
  function Text(k: Record, d: ArmDictionary): (r: Result<string, string>)
    requires WellFormed(k)
    requires Tag(k) == "o" ==> ArmMemoryOffset.WellFormed(MemoryOffset(k, d))
    ensures r.Err? <==> Tag(k) == "i" && ParseDecimal(k.tags[1]).None?
    ensures Tag(k) == "l" ==> r == Ok(RegListText(k))
    ensures Tag(k) == "s" ==> r == Ok(ShiftedRegisterText(k, d))
    ensures Tag(k) == "o" ==> r == Ok(OffsetAddressText(k, d))
    ensures Tag(k) == "b" ==> r == Ok(BaseText(k))
    ensures Tag(k) == "r" || Tag(k) == "m" ==> r == Ok(Register(k))
    ensures Tag(k) == "a" ==> r == Ok(d.address(k.args[0]))
    ensures Tag(k) == "i" ==> r == ImmediateText(k)
    ensures Tag(k) == "i" && Value(k).Ok? ==> r == Ok(Hex(Value(k).value))
  {
    match Tag(k)
    case "r" => Ok(Register(k))
    case "l" => Ok(RegListText(k))
    case "s" => Ok(ShiftedRegisterText(k, d))
    case "a" => Ok(d.address(k.args[0]))
    case "m" => Ok(Register(k))
    case "o" => Ok(OffsetAddressText(k, d))
    case "i" => ImmediateText(k)
    case _ => Ok(BaseText(k))
  }

  /** Only the immediate kind answers is_arm_immediate, and no kind answers
      is_arm_absolute. */
  lemma FlagsByKind(k: Record)
    requires WellFormed(k)
    ensures IsArmImmediate(k) <==> Tag(k) == "i"
    ensures !IsArmAbsolute(k)
  {
  }
}
