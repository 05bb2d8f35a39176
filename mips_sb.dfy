/** SB rt, offset(base): store the low byte of rt to memory. */
module MipsSb {
  import opened Base
  import opened SimValue
  import opened MipsState

  /** args[0] is rt, args[1] is offset(base). */
  predicate WellFormed(op: Opcode)
  {
    |op.args| == 2
  }

  /** The code's source operand: offset(base), args[1]. */
  function SrcOperand(op: Opcode, t: OperandTable): MipsOperand
    requires WellFormed(op)
  {
    t(op.args[1])
  }

  /** The code's destination operand: rt, args[0]. */
  function DstOperand(op: Opcode, t: OperandTable): MipsOperand
    requires WellFormed(op)
  {
    t(op.args[0])
  }

  /** annotation: "lhs := rhs", simplified where it differs. */
  function Annotation(x: InstrXData): (s: string)
    requires |x.vars| >= 1 && |x.xprs| >= 2 && |x.args| >= 3
    ensures x.args[1] == x.args[2] ==> s == x.vars[0] + " := " + x.xprs[0]
    ensures x.args[1] != x.args[2] ==> s == x.vars[0] + " := " + x.xprs[0] + " (= " + x.xprs[1] + ")"
  {
    x.vars[0] + " := " + SimplifyResult(x.args[1], x.args[2], x.xprs[0], x.xprs[1])
  }

  /** simulate, as the code is written: the byte at offset(base) is read and
      written to rt; memory is left alone (the frame leaves it out) and the
      program counter moves once. */
  method Simulate(op: Opcode, t: OperandTable, iaddr: string, st: MipsSimState) returns (trace: string)
    requires WellFormed(op) && DstOperand(op, t).Register?
    modifies st`registers, st`programCounter, st`delayedProgramCounter
    ensures var v := old(st.Rhs(SrcOperand(op, t), 1));
            var rt := DstOperand(op, t).name;
            && st.registers == old(st.registers)[rt := v]
            && trace == SimAssign(iaddr, rt, v, "")
    ensures st.programCounter == NextProgramCounter(old(st.programCounter), old(st.delayedProgramCounter))
    ensures st.delayedProgramCounter == None
  {
    var dstop := DstOperand(op, t);
    var srcop := SrcOperand(op, t);
    var srcval := st.Rhs(srcop, 1);
    var lhs := st.SetRegister(dstop.name, srcval);
    st.IncrementProgramCounter();
    trace := SimAssign(iaddr, lhs, srcval, "");
  }

  /** The least significant byte of a value, undefined unless the value is a
      defined literal. */
  function LowByte(v: Value): (b: Value)
    ensures b.IsLiteral() && b.size == 1 && b.bits < 256
    ensures b.IsDefined() <==> v.IsLiteral() && v.IsDefined()
    ensures b.IsDefined() ==> b.bits == ByteOf(v.bits, 1) as int
  {
    if v.IsLiteral() && v.IsDefined() then Literal(1, ByteOf(v.bits, 1) as nat, true) else Literal(1, 0, false)
  }

  /** The store the instruction evidently intends: the low byte of rt is
      written to the memory location of offset(base), and no register
      changes. */
  method SimulateIntended(op: Opcode, t: OperandTable, iaddr: string, st: MipsSimState) returns (r: Result<string, SimError>)
    requires WellFormed(op)
    modifies st`memory, st`programCounter, st`delayedProgramCounter
    ensures var loc := old(st.Lhs(SrcOperand(op, t)));
            if !loc.IsMemoryLocation() then
              && r == Err(SimulationError(iaddr, "Store-byte destination is not a memory location: " + LocationText(loc)))
              && st.memory == old(st.memory)
              && st.programCounter == old(st.programCounter)
              && st.delayedProgramCounter == old(st.delayedProgramCounter)
            else
              var b := LowByte(old(st.Rhs(DstOperand(op, t), 4)));
              && st.memory == old(st.memory)[Loc(loc.address.region, loc.address.offset) := b]
              && st.programCounter == NextProgramCounter(old(st.programCounter), old(st.delayedProgramCounter))
              && st.delayedProgramCounter == None
              && r == Ok(SimAssign(iaddr, LocationText(loc), b, ""))
  {
    var loc := st.Lhs(SrcOperand(op, t));
    if !loc.IsMemoryLocation() {
      return Err(SimulationError(iaddr, "Store-byte destination is not a memory location: " + LocationText(loc)));
    }
    var b := LowByte(st.Rhs(DstOperand(op, t), 4));
    st.SetMemoryByte(Loc(loc.address.region, loc.address.offset), b);
    st.IncrementProgramCounter();
    r := Ok(SimAssign(iaddr, LocationText(loc), b, ""));
  }

  /** SB a0, 0(sp) with 0x41 in a0 and 0x00 in memory, as written: a0
      becomes 0x00 and memory keeps 0x00. */
  method AsWrittenScenario() returns (rt: Value, stored: Value)
    ensures rt == Literal(1, 0, true) && stored == Literal(1, 0, true)
  {
    var op := Opcode(["sb"], [0, 1]);
    var t: OperandTable := i => if i == 0 then Register("a0") else Indirect("sp", 0);
    var l := Loc(Stack, 0x100);
    var st := new MipsSimState(true, 0x400000);
    var _ := st.SetRegister("sp", Address(SimAddress(Stack, 0x100, true)));
    var _ := st.SetRegister("a0", Literal(4, 0x41, true));
    st.SetMemoryByte(l, Literal(1, 0, true));
    assert st.memory == map[l := Literal(1, 0, true)];
    assert st.MemoryBytes(Stack, 0x101, 0) == Some([]);
    var one := st.MemoryBytes(Stack, 0x100, 1);
    assert one.Some? && one.value[0] == 0 && |one.value| == 1;
    var z: seq<byte> := [0];
    assert one.value == z;
    assert Reverse(z) == z;
    assert SrcOperand(op, t) == Indirect("sp", 0) && DstOperand(op, t) == Register("a0");
    assert st.Lhs(Indirect("sp", 0)) == MemoryLocation(SimAddress(Stack, 0x100, true));
    var _ := Simulate(op, t, "0x400000", st);
    rt := st.RegisterValue("a0");
    stored := st.memory[l];
  }

  /** The same instruction as intended: memory becomes 0x41 and a0 keeps
      0x41. */
  method IntendedScenario() returns (rt: Value, stored: Value)
    ensures rt == Literal(4, 0x41, true) && stored == Literal(1, 0x41, true)
  {
    var op := Opcode(["sb"], [0, 1]);
    var t: OperandTable := i => if i == 0 then Register("a0") else Indirect("sp", 0);
    var l := Loc(Stack, 0x100);
    var st := new MipsSimState(true, 0x400000);
    var _ := st.SetRegister("sp", Address(SimAddress(Stack, 0x100, true)));
    var _ := st.SetRegister("a0", Literal(4, 0x41, true));
    st.SetMemoryByte(l, Literal(1, 0, true));
    assert SrcOperand(op, t) == Indirect("sp", 0) && DstOperand(op, t) == Register("a0");
    assert st.Lhs(Indirect("sp", 0)) == MemoryLocation(SimAddress(Stack, 0x100, true));
    assert st.Rhs(Register("a0"), 4) == Literal(4, 0x41, true);
    assert LowByte(Literal(4, 0x41, true)) == Literal(1, 0x41, true) by {
      assert ByteOf(0x41, 1) == 0x41 by {
        assert 0x41 % Pow32 == 0x41;
      }
    }
    var _ := SimulateIntended(op, t, "0x400000", st);
    rt := st.RegisterValue("a0");
    stored := st.memory[l];
  }
}
