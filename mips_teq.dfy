/** TEQ rs, rt: raise a trap when the two registers are equal. */
module MipsTeq {
  import opened Base
  import opened SimValue
  import opened MipsState

  /** args[0] is the trap code, args[1] is rs, args[2] is rt. */
  predicate WellFormed(op: Opcode)
  {
    |op.args| == 3
  }

  /** The operands leave out the code field args[0]. */
  function Operands(op: Opcode, t: OperandTable): (ops: seq<MipsOperand>)
    ensures |ops| == if |op.args| == 0 then 0 else |op.args| - 1
    ensures forall i :: 1 <= i < |op.args| ==> ops[i - 1] == t(op.args[i])
  {
    if |op.args| == 0 then [] else OperandsOf(op.args[1..], t)
  }

  function Src1Operand(op: Opcode, t: OperandTable): MipsOperand
    requires WellFormed(op)
  {
    t(op.args[1])
  }

  function Src2Operand(op: Opcode, t: OperandTable): MipsOperand
    requires WellFormed(op)
  {
    t(op.args[2])
  }

  /** annotation: "trap if rhs1 == rhs2 (result)". */
  function Annotation(x: InstrXData): (s: string)
    requires |x.xprs| >= 4 && |x.args| >= 4
    ensures x.args[2] == x.args[3] ==> s == "trap if " + x.xprs[0] + " == " + x.xprs[1] + " (" + x.xprs[2] + ")"
    ensures x.args[2] != x.args[3] ==> s == "trap if " + x.xprs[0] + " == " + x.xprs[1] + " (" + x.xprs[2] + " (= " + x.xprs[3] + "))"
  {
    "trap if " + x.xprs[0] + " == " + x.xprs[1] + " (" + SimplifyResult(x.args[2], x.args[3], x.xprs[2], x.xprs[3]) + ")"
  }

  predicate DefinedLiteral(v: Value)
  {
    v.IsLiteral() && v.IsDefined()
  }

  /** simulate: a symbol raises a symbolic-expression error and equal defined
      literals raise the trap, both before the program counter moves; in every
      other case the program counter moves once.  No register is written on
      any path: the frame leaves registers out. */
  method Simulate(op: Opcode, t: OperandTable, iaddr: string, st: MipsSimState) returns (r: Result<string, SimError>)
    requires WellFormed(op)
    modifies st`programCounter, st`delayedProgramCounter
    ensures var v1 := old(st.Rhs(Src1Operand(op, t), 4));
            var v2 := old(st.Rhs(Src2Operand(op, t), 4));
            var raises := v1.IsSymbol() || v2.IsSymbol() || (DefinedLiteral(v1) && DefinedLiteral(v2) && v1.bits == v2.bits);
            && (v1.IsSymbol() || v2.IsSymbol() ==>
                  r == Err(SymbolicExpression(iaddr, Src1Operand(op, t), Render(v1) + " == " + Render(v2))))
            && (!v1.IsSymbol() && !v2.IsSymbol() && DefinedLiteral(v1) && DefinedLiteral(v2) ==>
                  r == if v1.bits == v2.bits then Err(TrapSignal(iaddr, v1, v2))
                       else Ok("trap if equal: " + Render(v1) + ", " + Render(v2)))
            && (!v1.IsSymbol() && !v2.IsSymbol() && !(DefinedLiteral(v1) && DefinedLiteral(v2)) ==>
                  r == Ok("trap if equal: ?"))
            && (raises ==> st.programCounter == old(st.programCounter) && st.delayedProgramCounter == old(st.delayedProgramCounter))
            && (!raises ==> st.programCounter == NextProgramCounter(old(st.programCounter), old(st.delayedProgramCounter))
                            && st.delayedProgramCounter == None)
  {
    var src1op := Src1Operand(op, t);
    var src1val := st.Rhs(src1op, 4);
    var src2val := st.Rhs(Src2Operand(op, t), 4);
    if src1val.IsSymbol() || src2val.IsSymbol() {
      r := Err(SymbolicExpression(iaddr, src1op, Render(src1val) + " == " + Render(src2val)));
    } else if DefinedLiteral(src1val) && DefinedLiteral(src2val) {
      if src1val.bits == src2val.bits {
        r := Err(TrapSignal(iaddr, src1val, src2val));
      } else {
        st.IncrementProgramCounter();
        r := Ok("trap if equal: " + Render(src1val) + ", " + Render(src2val));
      }
    } else {
      st.IncrementProgramCounter();
      r := Ok("trap if equal: ?");
    }
  }
}
