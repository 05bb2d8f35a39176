/** BGEZL rs, offset: branch likely when rs is non-negative; the delay slot
    is executed only when the branch is taken. */
module MipsBgezl {
  import opened Base
  import opened SimValue
  import opened MipsState

  /** args[0] is rs, args[1] the branch target. */
  predicate WellFormed(op: Opcode)
  {
    |op.args| == 2
  }

  function SrcOperand(op: Opcode, t: OperandTable): MipsOperand
    requires WellFormed(op)
  {
    t(op.args[0])
  }

  function Target(op: Opcode, t: OperandTable): MipsOperand
    requires WellFormed(op)
  {
    t(op.args[1])
  }

  /** branch_condition: the simplified result, xprs[2]. */
  function BranchCondition(x: InstrXData): string
    requires |x.xprs| >= 4
  {
    x.xprs[2]
  }

  /** ft_conditions: the fall-through condition (the negated result, xprs[3])
      and then the branch condition. */
  function FtConditions(x: InstrXData): (cs: seq<string>)
    requires |x.xprs| >= 4
    ensures |cs| == 2 && cs[0] == x.xprs[3]
    ensures cs[1] == BranchCondition(x)
  {
    [x.xprs[3], x.xprs[2]]
  }

  /** annotation: "if <result> then goto <target>". */
  function Annotation(op: Opcode, t: OperandTable, x: InstrXData): (s: string)
    requires WellFormed(op) && |x.xprs| >= 3 && |x.args| >= 3
    ensures x.args[1] == x.args[2] ==> s == "if " + x.xprs[1] + " then goto " + OperandText(Target(op, t))
    ensures x.args[1] != x.args[2] ==> s == "if " + x.xprs[1] + " (= " + x.xprs[2] + ") then goto " + OperandText(Target(op, t))
  {
    "if " + SimplifyResult(x.args[1], x.args[2], x.xprs[1], x.xprs[2]) + " then goto " + OperandText(Target(op, t))
  }

  /** The branch decision: a defined literal's sign as a 32-bit word, a
      symbol's recorded sign, and undefined for everything else. */
  function Decision(v: Value): (b: SimBool)
    ensures v.IsLiteral() && v.IsDefined() ==> b.IsDefined() && (b.IsTrue() <==> NonNegative32(v.bits))
    ensures v.IsSymbol() ==> b == v.nonNegative
    ensures !(v.IsLiteral() && v.IsDefined()) && !v.IsSymbol() ==> b == SimUndefinedBool
  {
    if v.IsLiteral() && v.IsDefined() then FromBool(NonNegative32(v.bits))
    else if v.IsSymbol() then v.nonNegative
    else SimUndefinedBool
  }

  /** Whether `simulate` moves the program counter: for a taken branch on a
      literal, and for every symbol, including one whose sign is unknown. */
  predicate MovesProgramCounter(v: Value)
  {
    (v.IsLiteral() && v.IsDefined() && NonNegative32(v.bits)) || v.IsSymbol()
  }

  /** A symbol of unknown sign moves the program counter and still has no
      decision: the error comes after the move. */
  lemma UnknownSymbolMovesThenFails(name: string)
    ensures MovesProgramCounter(MkSymbol(name))
    ensures !Decision(MkSymbol(name)).IsDefined()
  {
  }

  /** On a defined literal the program counter moves exactly when the branch
      is taken: a branch not taken skips the delay slot. */
  lemma LiteralMovesIffTaken(v: Value)
    requires v.IsLiteral() && v.IsDefined()
    ensures MovesProgramCounter(v) <==> Decision(v).IsTrue()
  {
  }

  /** 0x80000000 is negative as a word; 0x7FFFFFFF is not. */
  lemma SignBoundary()
    ensures Decision(Literal(4, 0x8000_0000, true)) == SimFalse
    ensures Decision(Literal(4, 0x7FFF_FFFF, true)) == SimTrue
  {
  }

  /** Branch likely on a defined literal, with no branch pending: a taken
      branch leaves the program counter on the delay slot and the next
      increment lands on the target; a branch not taken leaves the program
      counter on the branch itself and the next increment jumps over the
      delay slot to pc + 8. */
  lemma DelaySlotOnlyWhenTaken(v: Value, pc: int, truetgt: int)
    requires v.IsLiteral() && v.IsDefined()
    ensures var after := if MovesProgramCounter(v) then NextProgramCounter(pc, None) else pc;
            var delayed := Some(if Decision(v).IsTrue() then truetgt else pc + 8);
            && (Decision(v).IsTrue() ==> after == pc + 4 && NextProgramCounter(after, delayed) == truetgt)
            && (!Decision(v).IsTrue() ==> after == pc && NextProgramCounter(after, delayed) == pc + 8)
  {
    LiteralMovesIffTaken(v);
  }

  /** simulate.  The targets are computed first: the target operand's address
      and the program counter plus 8.  The program counter moves when
      MovesProgramCounter holds; a defined decision then sets the delayed
      program counter to the target it selects, and an undefined one raises
      the unknown-branch error. */
  method Simulate(op: Opcode, t: OperandTable, iaddr: string, st: MipsSimState) returns (r: Result<string, SimError>)
    requires WellFormed(op) && Target(op, t).Absolute?
    modifies st`programCounter, st`delayedProgramCounter
    ensures var v := old(st.Rhs(SrcOperand(op, t), 4));
            var truetgt := Target(op, t).address;
            var falsetgt := old(st.programCounter) + 8;
            var b := Decision(v);
            && (MovesProgramCounter(v) ==>
                  st.programCounter == NextProgramCounter(old(st.programCounter), old(st.delayedProgramCounter)))
            && (!MovesProgramCounter(v) ==> st.programCounter == old(st.programCounter))
            && (b.IsDefined() ==>
                  && st.delayedProgramCounter == Some(if b.IsTrue() then truetgt else falsetgt)
                  && r == Ok(SimBranch(iaddr, truetgt, falsetgt, Render(v) + " >= 0", b)))
            && (!b.IsDefined() ==>
                  && st.delayedProgramCounter == (if MovesProgramCounter(v) then None else old(st.delayedProgramCounter))
                  && r == Err(BranchUnknown(iaddr, truetgt, falsetgt,
                                            "branch greater or equal to zero condition: " + Render(v) + " >= 0")))
  {
    var srcval := st.Rhs(SrcOperand(op, t), 4);
    var truetgt := Target(op, t).address;
    var falsetgt := st.programCounter + 8;
    if srcval.IsLiteral() && srcval.IsDefined() {
      var result: SimBool;
      if NonNegative32(srcval.bits) {
        st.IncrementProgramCounter();
        result := SimTrue;
        st.SetDelayedProgramCounter(truetgt);
      } else {
        result := SimFalse;
        st.SetDelayedProgramCounter(falsetgt);
      }
      var expr := Render(srcval) + " >= 0";
      return Ok(SimBranch(iaddr, truetgt, falsetgt, expr, result));
    } else if srcval.IsSymbol() {
      st.IncrementProgramCounter();
      var result := srcval.nonNegative;
      if result.IsDefined() {
        if result.IsTrue() {
          st.SetDelayedProgramCounter(truetgt);
        } else {
          st.SetDelayedProgramCounter(falsetgt);
        }
        var expr := Render(srcval) + " >= 0";
        return Ok(SimBranch(iaddr, truetgt, falsetgt, expr, result));
      }
    }
    r := Err(BranchUnknown(iaddr, truetgt, falsetgt, "branch greater or equal to zero condition: " + Render(srcval) + " >= 0"));
  }
}
