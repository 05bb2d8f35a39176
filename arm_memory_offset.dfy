/** ARM memory offsets: an immediate ("i"), an index register ("x") and a
    shifted index register ("s"), with their accessors and their text. */
module ArmMemoryOffset {
  import opened Base
  import opened ArmRecords

  /** The shapes the dictionary gives the three variants: tags and args
      counts of arm_memory_offset_t. */
  predicate WellFormed(o: Record)
  {
    match Tag(o)
    case "i" => |o.tags| == 1 && |o.args| == 1
    case "x" => |o.tags| == 2 && |o.args| == 1
    case "s" => |o.tags| == 2 && |o.args| == 2
    case _ => false
  }

  predicate IsImmOffset(o: Record)
  {
    WellFormed(o) && Tag(o) == "i"
  }

  predicate IsIndexOffset(o: Record)
  {
    WellFormed(o) && Tag(o) == "x"
  }

  predicate IsShiftedIndexOffset(o: Record)
  {
    WellFormed(o) && Tag(o) == "s"
  }

  /** ARMImmOffset.immediate: args[0]. */
  function Immediate(o: Record): int
    requires IsImmOffset(o)
  {
    o.args[0]
  }

  /** The register of an index or shifted index offset: tags[1]. */
  function Register(o: Record): string
    requires IsIndexOffset(o) || IsShiftedIndexOffset(o)
  {
    o.tags[1]
  }

  /** The offset of an index offset (args[0]) or of a shifted index offset
      (args[1], after the shift-rotate index). */
  function Offset(o: Record): (n: int)
    requires IsIndexOffset(o) || IsShiftedIndexOffset(o)
    ensures IsIndexOffset(o) ==> n == o.args[0]
    ensures IsShiftedIndexOffset(o) ==> n == o.args[1]
  {
    if Tag(o) == "x" then o.args[0] else o.args[1]
  }

  /** The text of a shifted index offset's shift-rotate, args[0]. */
  function ShiftRotate(o: Record, d: ArmDictionary): string
    requires IsShiftedIndexOffset(o)
  {
    d.registerShift(o.args[0])
  }

  /** str(offset), as written.  The index offset's rendering method is
      misspelled (`__str`, without the two trailing underscores), so Python never calls
      it: an index offset gets the generic record text, not its register. */
  function Text(o: Record, d: ArmDictionary): (s: string)
    requires WellFormed(o)
    ensures IsIndexOffset(o) ==> s == d.recordText(o)
  {
    if Tag(o) == "i" then "#" + Hex(Immediate(o))
    else if Tag(o) == "s" then Register(o) + "," + ShiftRotate(o, d)
    else d.recordText(o)
  }

  /** str(offset) as evidently intended: an index offset renders as its
      register. */
  function TextIntended(o: Record, d: ArmDictionary): (s: string)
    requires WellFormed(o)
    ensures IsIndexOffset(o) ==> s == Register(o)
    ensures !IsIndexOffset(o) ==> s == Text(o, d)
  {
    if Tag(o) == "x" then Register(o) else Text(o, d)
  }

  /** An immediate offset renders as "#" and the immediate in Python's hex,
      which reads back as the immediate. */
  lemma ImmOffsetReadsBack(o: Record, d: ArmDictionary)
    requires IsImmOffset(o)
    ensures var s := Text(o, d);
            |s| >= 1 && s[0] == '#' && ParseHex(s[1..]) == Some(Immediate(o))
  {
    var s := Text(o, d);
    assert s[1..] == Hex(Immediate(o));
    HexRoundTrip(Immediate(o));
  }

  /** Two shifted index offsets whose registers hold no comma render alike
      exactly when their registers and shift-rotate texts agree. */
  lemma ShiftedIndexOffsetTextInjective(o1: Record, o2: Record, d: ArmDictionary)
    requires IsShiftedIndexOffset(o1) && IsShiftedIndexOffset(o2)
    requires ',' !in Register(o1) && ',' !in Register(o2)
    ensures Text(o1, d) == Text(o2, d) <==>
              Register(o1) == Register(o2) && ShiftRotate(o1, d) == ShiftRotate(o2, d)
  {
    SeparatedPairInjective(Register(o1), ShiftRotate(o1, d), Register(o2), ShiftRotate(o2, d), ',');
  }

  /** The index offset of register r3, as written: its text is the generic
      record text whatever the register, where the intended text is "r3". */
  lemma IndexOffsetDropsRegister(d: ArmDictionary)
    ensures var o := Record(["x", "r3"], [0]);
            && Text(o, d) == d.recordText(o)
            && TextIntended(o, d) == "r3"
  {
    var o := Record(["x", "r3"], [0]);
    assert Tag(o) == "x";
  }
}
