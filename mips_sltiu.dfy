/** SLTIU rt, rs, immediate: set rt to 1 when rs is below the immediate,
    to 0 otherwise. */
module MipsSltiu {
  import opened Base
  import opened SimValue
  import opened MipsState

  /** args[0] is the destination, args[1] the source register, args[2] the
      immediate. */
  predicate WellFormed(op: Opcode)
  {
    |op.args| == 3
  }

  function DstOperand(op: Opcode, t: OperandTable): MipsOperand
    requires WellFormed(op)
  {
    t(op.args[0])
  }

  function SrcOperand(op: Opcode, t: OperandTable): MipsOperand
    requires WellFormed(op)
  {
    t(op.args[1])
  }

  function ImmOperand(op: Opcode, t: OperandTable): MipsOperand
    requires WellFormed(op)
  {
    t(op.args[2])
  }

  /** annotation: "lhs := 1 if <condition> else 0". */
  function Annotation(x: InstrXData): (s: string)
    requires |x.vars| >= 1 && |x.xprs| >= 4 && |x.args| >= 4
    ensures x.args[2] == x.args[3] ==> s == x.vars[0] + " := 1 if " + x.xprs[2] + " else 0"
    ensures x.args[2] != x.args[3] ==> s == x.vars[0] + " := 1 if " + x.xprs[2] + " (= " + x.xprs[3] + ") else 0"
  {
    x.vars[0] + " := 1 if " + SimplifyResult(x.args[2], x.args[3], x.xprs[2], x.xprs[3]) + " else 0"
  }

  /** The value written to the destination: one, zero or the undefined
      doubleword, and never any other literal. */
  function SltiuResult(v: Value, imm: int): (r: Value)
    ensures r == SimOne || r == SimZero || r == UndefinedDW
    ensures r == SimOne <==> v.IsLiteral() && v.IsDefined() && v.bits < imm
    ensures r == SimZero <==> v.IsLiteral() && v.IsDefined() && v.bits >= imm
  {
    if v.IsDefined() && v.IsLiteral() then
      if v.bits < imm then SimOne else SimZero
    else UndefinedDW
  }

  /** The comparison is on the unsigned source: a source of 0xFFFFFFFF is
      never below a 16-bit immediate. */
  lemma AllOnesNeverBelow(imm: int)
    requires imm <= 0xFFFF
    ensures SltiuResult(Literal(4, 0xFFFF_FFFF, true), imm) == SimZero
  {
  }

  /** simulate: the destination is written once and the program counter moves
      once on every path; it never raises. */
  method Simulate(op: Opcode, t: OperandTable, iaddr: string, st: MipsSimState) returns (trace: string)
    requires WellFormed(op) && DstOperand(op, t).Register? && ImmOperand(op, t).Immediate?
    modifies st`registers, st`programCounter, st`delayedProgramCounter
    ensures var v := old(st.Rhs(SrcOperand(op, t), 4));
            var imm := ImmOperand(op, t).value;
            var rt := DstOperand(op, t).name;
            && st.registers == old(st.registers)[rt := SltiuResult(v, imm)]
            && trace == SimAssign(iaddr, rt, SltiuResult(v, imm), Render(v) + " < " + Str(imm))
    ensures st.programCounter == NextProgramCounter(old(st.programCounter), old(st.delayedProgramCounter))
    ensures st.delayedProgramCounter == None
  {
    var dstop := DstOperand(op, t);
    var srcval := st.Rhs(SrcOperand(op, t), 4);
    var immval := ImmOperand(op, t).value;
    var result: Value;
    if srcval.IsDefined() && srcval.IsLiteral() {
      if srcval.bits < immval {
        result := SimOne;
      } else {
        result := SimZero;
      }
    } else {
      result := UndefinedDW;
    }
    var lhs := st.SetRegister(dstop.name, result);
    st.IncrementProgramCounter();
    trace := SimAssign(iaddr, lhs, result, Render(srcval) + " < " + Str(immval));
  }
}
