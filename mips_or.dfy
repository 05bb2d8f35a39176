/** OR rd, rs, rt: the bitwise or of two registers, with a symbolic result
    when one side is a symbol and the other a defined literal. */
module MipsOr {
  import opened Base
  import opened SimValue
  import opened MipsState

  /** The opcode's arguments: args[0] is rd, args[1] is rs, args[2] is rt. */
  predicate WellFormed(op: Opcode)
  {
    |op.args| == 3
  }

  function DstOperand(op: Opcode, t: OperandTable): MipsOperand
    requires WellFormed(op)
  {
    t(op.args[0])
  }

  function Src1Operand(op: Opcode, t: OperandTable): MipsOperand
    requires WellFormed(op)
  {
    t(op.args[1])
  }

  function Src2Operand(op: Opcode, t: OperandTable): MipsOperand
    requires WellFormed(op)
  {
    t(op.args[2])
  }

  /** The operand accessors pick the operands' positions rd, rs, rt. */
  lemma OperandMapping(op: Opcode, t: OperandTable)
    requires WellFormed(op)
    ensures Operands(op, t) == [DstOperand(op, t), Src1Operand(op, t), Src2Operand(op, t)]
  {
  }

  /** annotation: vars[0] is the left-hand side, xprs[2] and xprs[3] the
      syntactic and simplified result, args[3] and args[4] their indices. */
  function Annotation(x: InstrXData): (s: string)
    requires |x.vars| >= 1 && |x.xprs| >= 4 && |x.args| >= 5
    ensures x.args[3] == x.args[4] ==> s == x.vars[0] + " := " + x.xprs[2]
    ensures x.args[3] != x.args[4] ==> s == x.vars[0] + " := " + x.xprs[2] + " (= " + x.xprs[3] + ")"
  {
    x.vars[0] + " := " + SimplifyResult(x.args[3], x.args[4], x.xprs[2], x.xprs[3])
  }

  predicate DefinedLiteral(v: Value)
  {
    v.IsLiteral() && v.IsDefined()
  }

  /** The value `simulate` writes to rd, as the code computes it.  In the case
      literal | symbol the new name repeats the symbol's text and leaves the
      literal out. */
  function OrResult(v1: Value, v2: Value): (r: Value)
    ensures r.Literal? ==> r.IsDoubleword()
    ensures r.Literal? && r.defined <==> DefinedLiteral(v1) && DefinedLiteral(v2)
    ensures r.Symbol? <==> (v1.IsSymbol() && DefinedLiteral(v2)) || (DefinedLiteral(v1) && v2.IsSymbol())
    ensures r.Symbol? ==> r.nonNegative == SimUndefinedBool
    ensures r.Literal? || r.Symbol?
  {
    if DefinedLiteral(v1) && DefinedLiteral(v2) then BitwiseOr(v1, v2)
    else if v1.IsSymbol() && DefinedLiteral(v2) then MkSymbol(v1.name + " | " + Render(v2))
    else if DefinedLiteral(v1) && v2.IsSymbol() then MkSymbol(Render(v2) + " | " + v2.name)
    else UndefinedDW
  }

  /** The result the literal | symbol case evidently intends: the name holds
      the text of both operands, the symbol's name first, as in the
      symbol | literal case (the code's first operand of the name is already
      the symbol; only its second is wrong). */
  function OrResultIntended(v1: Value, v2: Value): (r: Value)
    ensures v1.IsSymbol() && DefinedLiteral(v2) ==> r == MkSymbol(v1.name + " | " + Render(v2))
    ensures DefinedLiteral(v1) && v2.IsSymbol() ==> r == MkSymbol(v2.name + " | " + Render(v1))
  {
    if DefinedLiteral(v1) && v2.IsSymbol() then MkSymbol(v2.name + " | " + Render(v1))
    else OrResult(v1, v2)
  }

  /** The two definitions differ only in the literal | symbol case. */
  lemma IntendedAgreesElsewhere(v1: Value, v2: Value)
    requires !(DefinedLiteral(v1) && v2.IsSymbol())
    ensures OrResultIntended(v1, v2) == OrResult(v1, v2)
  {
  }

  /** A defined literal or'ed with a symbol: the name the code builds holds the
      symbol twice and not the literal, where the intended name is
      "unknown_input | 0x1". */
  lemma LiteralOrSymbolName()
    ensures OrResult(SimOne, MkSymbol("unknown_input")) == MkSymbol("unknown_input | unknown_input")
    ensures OrResultIntended(SimOne, MkSymbol("unknown_input")) == MkSymbol("unknown_input | 0x1")
  {
    RenderOne();
    assert "unknown_input" + " | " + "unknown_input" == "unknown_input | unknown_input";
    assert "unknown_input" + " | " + "0x1" == "unknown_input | 0x1";
  }

  /** A literal one renders as "0x1". */
  lemma RenderOne()
    ensures Render(SimOne) == "0x1"
  {
    assert Digits(1, 16) == "1";
  }

  /** In the intended definition a mixed symbol/literal result names both
      operands. */
  lemma IntendedNamesBothOperands(v1: Value, v2: Value)
    requires (v1.IsSymbol() && DefinedLiteral(v2)) || (DefinedLiteral(v1) && v2.IsSymbol())
    ensures var r := OrResultIntended(v1, v2);
            r.Symbol? && Contains(r.name, Render(v1)) && Contains(r.name, Render(v2))
  {
    if v1.IsSymbol() {
      ContainsParts(Render(v1), " | ", Render(v2));
    } else {
      ContainsParts(Render(v2), " | ", Render(v1));
    }
  }

  /** On two defined literals the result does not depend on the operand order. */
  lemma OrLiteralsCommute(v1: Value, v2: Value)
    requires DefinedLiteral(v1) && DefinedLiteral(v2)
    ensures OrResult(v1, v2) == OrResult(v2, v1)
  {
    assert ToBv32(v1.bits) | ToBv32(v2.bits) == ToBv32(v2.bits) | ToBv32(v1.bits);
  }

  /** simulate: reads rs and rt, writes rd once and increments the program
      counter once, on every path; it never raises. */
  method Simulate(op: Opcode, t: OperandTable, iaddr: string, st: MipsSimState) returns (trace: string)
    requires WellFormed(op) && DstOperand(op, t).Register?
    modifies st`registers, st`programCounter, st`delayedProgramCounter
    ensures var v1 := old(st.Rhs(Src1Operand(op, t), 4));
            var v2 := old(st.Rhs(Src2Operand(op, t), 4));
            var rd := DstOperand(op, t).name;
            && st.registers == old(st.registers)[rd := OrResult(v1, v2)]
            && trace == SimAssign(iaddr, rd, OrResult(v1, v2), Render(v1) + " | " + Render(v2))
    ensures st.programCounter == NextProgramCounter(old(st.programCounter), old(st.delayedProgramCounter))
    ensures st.delayedProgramCounter == None
  {
    var dstop := DstOperand(op, t);
    var src1op := Src1Operand(op, t);
    var src2op := Src2Operand(op, t);
    var src1val := st.Rhs(src1op, 4);
    var src2val := st.Rhs(src2op, 4);
    var result: Value;
    if DefinedLiteral(src1val) && DefinedLiteral(src2val) {
      result := BitwiseOr(src1val, src2val);
    } else if src1val.IsSymbol() && DefinedLiteral(src2val) {
      result := MkSymbol(src1val.name + " | " + Render(src2val));
    } else if DefinedLiteral(src1val) && src2val.IsSymbol() {
      result := MkSymbol(Render(src2val) + " | " + src2val.name);
    } else {
      result := UndefinedDW;
    }
    var lhs := st.SetRegister(dstop.name, result);
    st.IncrementProgramCounter();
    trace := SimAssign(iaddr, lhs, result, Render(src1val) + " | " + Render(src2val));
  }
}
