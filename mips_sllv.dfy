/** SLLV rd, rt, rs: shift the word in rt left by the amount in rs. */
module MipsSllv {
  import opened Base
  import opened SimValue
  import opened MipsState

  /** args[0] is rd, args[1] is rt (the value), args[2] is rs (the amount). */
  predicate WellFormed(op: Opcode)
  {
    |op.args| == 3
  }

  function DstOperand(op: Opcode, t: OperandTable): MipsOperand
    requires WellFormed(op)
  {
    t(op.args[0])
  }

  /** The value being shifted (rt). */
  function Src1Operand(op: Opcode, t: OperandTable): MipsOperand
    requires WellFormed(op)
  {
    t(op.args[1])
  }

  /** The shift amount (rs). */
  function Src2Operand(op: Opcode, t: OperandTable): MipsOperand
    requires WellFormed(op)
  {
    t(op.args[2])
  }

  /** The operand accessors pick positions rd, rt, rs. */
  lemma OperandMapping(op: Opcode, t: OperandTable)
    requires WellFormed(op)
    ensures Operands(op, t) == [DstOperand(op, t), Src1Operand(op, t), Src2Operand(op, t)]
  {
  }

  /** annotation: "lhs := result". */
  function Annotation(x: InstrXData): (s: string)
    requires |x.vars| >= 1 && |x.xprs| >= 4 && |x.args| >= 5
    ensures x.args[3] == x.args[4] ==> s == x.vars[0] + " := " + x.xprs[2]
    ensures x.args[3] != x.args[4] ==> s == x.vars[0] + " := " + x.xprs[2] + " (= " + x.xprs[3] + ")"
  {
    x.vars[0] + " := " + SimplifyResult(x.args[3], x.args[4], x.xprs[2], x.xprs[3])
  }

  predicate DefinedLiteral(v: Value)
  {
    v.IsLiteral() && v.IsDefined()
  }

  /** The value written to rd, or None where `simulate` raises.  The whole
      amount is used: no 5-bit mask is applied to it. */
  function SllvResult(v1: Value, v2: Value): (r: Option<Value>)
    ensures r.Some? <==> DefinedLiteral(v2) && (DefinedLiteral(v1) || v1.IsSymbol())
    ensures r.Some? && v1.IsLiteral() ==> r.value == Literal(4, Sll32(v1.bits, v2.bits), true)
    ensures r.Some? && v1.IsSymbol() ==> r.value == MkSymbol(v1.name + ":shifted left by " + Render(v2))
  {
    if DefinedLiteral(v1) && DefinedLiteral(v2) then Some(BitwiseSll(v1, v2.bits))
    else if v1.IsSymbol() && DefinedLiteral(v2) then Some(MkSymbol(v1.name + ":shifted left by " + Render(v2)))
    else None
  }

  /** Shift amounts of 32 or more clear the word, where the instruction
      itself would use only the amount's low five bits. */
  lemma ShiftBeyondWidthClears(v1: Value, v2: Value)
    requires DefinedLiteral(v1) && DefinedLiteral(v2) && v2.bits >= 32
    ensures SllvResult(v1, v2) == Some(SimZero)
  {
    SllBeyondWidth(v1.bits, v2.bits);
  }

  /** A shift by zero keeps a defined doubleword. */
  lemma ShiftByZero(v1: Value)
    requires DefinedLiteral(v1) && v1.bits < Pow32
    ensures SllvResult(v1, SimZero) == Some(Literal(4, v1.bits, true))
  {
  }

  /** simulate: on a result, rd is written and the program counter moves once;
      otherwise a symbolic-expression error is raised before anything changes. */
  method Simulate(op: Opcode, t: OperandTable, iaddr: string, st: MipsSimState) returns (r: Result<string, SimError>)
    requires WellFormed(op) && DstOperand(op, t).Register?
    modifies st`registers, st`programCounter, st`delayedProgramCounter
    ensures var v1 := old(st.Rhs(Src1Operand(op, t), 4));
            var v2 := old(st.Rhs(Src2Operand(op, t), 4));
            var rd := DstOperand(op, t).name;
            var expr := Render(v1) + " << " + Render(v2);
            match SllvResult(v1, v2)
            case Some(v) =>
              && st.registers == old(st.registers)[rd := v]
              && st.programCounter == NextProgramCounter(old(st.programCounter), old(st.delayedProgramCounter))
              && st.delayedProgramCounter == None
              && r == Ok(SimAssign(iaddr, rd, v, expr))
            case None =>
              && r == Err(SymbolicExpression(iaddr, DstOperand(op, t), expr))
              && st.registers == old(st.registers)
              && st.programCounter == old(st.programCounter)
              && st.delayedProgramCounter == old(st.delayedProgramCounter)
  {
    var dstop := DstOperand(op, t);
    var src1val := st.Rhs(Src1Operand(op, t), 4);
    var src2val := st.Rhs(Src2Operand(op, t), 4);
    var expr := Render(src1val) + " << " + Render(src2val);
    var result: Value;
    if DefinedLiteral(src1val) && DefinedLiteral(src2val) {
      result := BitwiseSll(src1val, src2val.bits);
    } else if src1val.IsSymbol() && DefinedLiteral(src2val) {
      result := MkSymbol(src1val.name + ":shifted left by " + Render(src2val));
    } else {
      return Err(SymbolicExpression(iaddr, dstop, expr));
    }
    var lhs := st.SetRegister(dstop.name, result);
    st.IncrementProgramCounter();
    r := Ok(SimAssign(iaddr, lhs, result, expr));
  }
}
