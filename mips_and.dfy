/** AND rd, rs, rt: the bitwise and of two registers; a symbolic operand
    stops the simulation with a symbolic-expression error. */
module MipsAnd {
  import opened Base
  import opened SimValue
  import opened MipsState

  /** The constructor's key check: one tag and three args (rd, rs, rt). */
  function FromRecord(op: Opcode): (r: Result<Opcode, SimError>)
    ensures r.Ok? <==> |op.tags| == 1 && |op.args| == 3
    ensures r.Ok? ==> r.value == op
    ensures r.Err? ==> r.error.StructuralError?
  {
    CheckKey(op, 1, 3, "And")
  }

  predicate WellFormed(op: Opcode)
  {
    |op.args| == 3
  }

  function DstOperand(op: Opcode, t: OperandTable): MipsOperand
    requires WellFormed(op)
  {
    t(op.args[0])
  }

  function Src1Operand(op: Opcode, t: OperandTable): MipsOperand
    requires WellFormed(op)
  {
    t(op.args[1])
  }

  function Src2Operand(op: Opcode, t: OperandTable): MipsOperand
    requires WellFormed(op)
  {
    t(op.args[2])
  }

  /** A record that passes the key check has the three operand positions. */
  lemma FromRecordWellFormed(op: Opcode, t: OperandTable)
    requires FromRecord(op).Ok?
    ensures WellFormed(op)
    ensures Operands(op, t) == [DstOperand(op, t), Src1Operand(op, t), Src2Operand(op, t)]
  {
  }

  /** annotation: "lhs := result", the result simplified where it differs. */
  function Annotation(x: InstrXData): (s: string)
    requires |x.vars| >= 1 && |x.xprs| >= 4 && |x.args| >= 5
    ensures x.args[3] == x.args[4] ==> s == x.vars[0] + " := " + x.xprs[2]
    ensures x.args[3] != x.args[4] ==> s == x.vars[0] + " := " + x.xprs[2] + " (= " + x.xprs[3] + ")"
  {
    x.vars[0] + " := " + SimplifyResult(x.args[3], x.args[4], x.xprs[2], x.xprs[3])
  }

  /** The trace's expression: the operands and the values read from them. */
  function TraceExpr(src1: MipsOperand, v1: Value, src2: MipsOperand, v2: Value): string
  {
    "val(" + OperandText(src1) + ") = " + Render(v1) + ", val(" + OperandText(src2) + ") = " + Render(v2)
  }

  /** On defined 32-bit words the and is zero exactly when the two bit
      patterns share no set bit, that is, when or-ing them is the same as
      adding them (no bit position carries). */
  lemma AndDisjointWords(a: bv32, b: bv32)
    ensures BitwiseAnd(Literal(4, a as nat, true), Literal(4, b as nat, true)) == SimZero <==> a | b == a + b
  {
    WordToBv32(a);
    WordToBv32(b);
    BitsZero(a & b);
    DisjointBits(a, b);
  }

  /** A word read as a number is the same word at doubleword width. */
  lemma WordToBv32(a: bv32)
    ensures ToBv32(a as nat) == a
  {
    BitsBelowPow32(a);
    ModBelow(a as nat);
    BitsRoundTrip(a);
  }

  /** A word read as a number is below 2^32. */
  lemma BitsBelowPow32(c: bv32)
    ensures c as nat < Pow32
  {
  }

  /** A number below 2^32 is its own residue. */
  lemma ModBelow(n: nat)
    requires n < Pow32
    ensures n % Pow32 == n
  {
  }

  /** A word read as a number converts back to the same word. */
  lemma BitsRoundTrip(c: bv32)
    ensures (c as nat) as bv32 == c
  {
  }

  /** Two 32-bit words share no set bit exactly when their or is their
      (wrapping) sum. */
  lemma DisjointBits(a: bv32, b: bv32)
    ensures a & b == 0 <==> a | b == a + b
  {
  }

  /** A word is zero exactly when its value as a number is. */
  lemma BitsZero(c: bv32)
    ensures c == 0 <==> c as nat == 0
  {
  }

  /** And with zero clears every bit. */
  lemma AndZero(v: Value)
    requires v.IsLiteral()
    ensures BitwiseAnd(v, SimZero) == Literal(4, 0, v.defined)
  {
    assert ToBv32(0) == 0;
    assert ToBv32(v.bits) & 0 == 0;
  }

  /** On two literals the result does not depend on the operand order. */
  lemma AndLiteralsCommute(v1: Value, v2: Value)
    requires v1.IsLiteral() && v2.IsLiteral()
    ensures BitwiseAnd(v1, v2) == BitwiseAnd(v2, v1)
  {
    assert ToBv32(v1.bits) & ToBv32(v2.bits) == ToBv32(v2.bits) & ToBv32(v1.bits);
  }

  /** simulate: a symbolic operand raises before anything changes; otherwise
      rd receives the bitwise and of the two literals and the program counter
      moves once. */
  method Simulate(op: Opcode, t: OperandTable, iaddr: string, st: MipsSimState) returns (r: Result<string, SimError>)
    requires WellFormed(op) && DstOperand(op, t).Register?
    modifies st`registers, st`programCounter, st`delayedProgramCounter
    ensures var v1 := old(st.Rhs(Src1Operand(op, t), 4));
            var v2 := old(st.Rhs(Src2Operand(op, t), 4));
            var rd := DstOperand(op, t).name;
            if v1.IsSymbolic() || v2.IsSymbolic() then
              && r == Err(SymbolicExpression(iaddr, DstOperand(op, t), Render(v1) + " +&" + Render(v2)))
              && st.registers == old(st.registers)
              && st.programCounter == old(st.programCounter)
              && st.delayedProgramCounter == old(st.delayedProgramCounter)
            else
              && st.registers == old(st.registers)[rd := BitwiseAnd(v1, v2)]
              && st.programCounter == NextProgramCounter(old(st.programCounter), old(st.delayedProgramCounter))
              && st.delayedProgramCounter == None
              && r == Ok(SimAssign(iaddr, rd, BitwiseAnd(v1, v2), TraceExpr(Src1Operand(op, t), v1, Src2Operand(op, t), v2)))
  {
    var dstop := DstOperand(op, t);
    var src1op := Src1Operand(op, t);
    var src2op := Src2Operand(op, t);
    var src1val := st.Rhs(src1op, 4);
    var src2val := st.Rhs(src2op, 4);
    if src1val.IsSymbolic() || src2val.IsSymbolic() {
      return Err(SymbolicExpression(iaddr, dstop, Render(src1val) + " +&" + Render(src2val)));
    }
    var result := BitwiseAnd(src1val, src2val);
    var lhs := st.SetRegister(dstop.name, result);
    st.IncrementProgramCounter();
    r := Ok(SimAssign(iaddr, lhs, result, TraceExpr(src1op, src1val, src2op, src2val)));
  }
}
