/** BEQ rs, rt, offset: branch, after the delay slot, when the two registers
    are equal. */
module MipsBeq {
  import opened Base
  import opened SimValue
  import opened MipsState

  /** args[0] is rs, args[1] is rt, args[2] the branch target. */
  predicate WellFormed(op: Opcode)
  {
    |op.args| == 3
  }

  function Src1Operand(op: Opcode, t: OperandTable): MipsOperand
    requires WellFormed(op)
  {
    t(op.args[0])
  }

  function Src2Operand(op: Opcode, t: OperandTable): MipsOperand
    requires WellFormed(op)
  {
    t(op.args[1])
  }

  function Target(op: Opcode, t: OperandTable): MipsOperand
    requires WellFormed(op)
  {
    t(op.args[2])
  }

  /** annotation: "if <condition> then goto <target>", the condition
      simplified where it differs. */
  function Annotation(op: Opcode, t: OperandTable, x: InstrXData): (s: string)
    requires WellFormed(op) && |x.xprs| >= 5 && |x.args| >= 4
    ensures x.args[2] == x.args[3] ==> s == "if " + x.xprs[2] + " then goto " + OperandText(Target(op, t))
    ensures x.args[2] != x.args[3] ==> s == "if " + x.xprs[2] + " (= " + x.xprs[3] + ") then goto " + OperandText(Target(op, t))
  {
    "if " + SimplifyResult(x.args[2], x.args[3], x.xprs[2], x.xprs[3]) + " then goto " + OperandText(Target(op, t))
  }

  /** ft_conditions: the condition of the fall-through edge (the negated
      result, xprs[4]) and then that of the taken edge (the simplified result,
      xprs[3]). */
  function FtConditions(x: InstrXData): (cs: seq<string>)
    requires |x.xprs| >= 5
    ensures |cs| == 2 && cs[0] == x.xprs[4] && cs[1] == x.xprs[3]
  {
    [x.xprs[4], x.xprs[3]]
  }

  /** How the code's case split ends: with a condition, or at one of the two
      raises that name the branch targets before they are assigned, which
      Python reports as an unbound local variable. */
  datatype Condition = Decided(result: SimBool) | Unassigned

  /** The condition as the code computes it.  The address/address case of the
      code never applies: an address is already caught by the first test. */
  function BeqCondition(v1: Value, v2: Value): (c: Condition)
    ensures v1.IsStringAddress() || v1.IsAddress() ==>
              c == Decided(if v2.IsLiteral() then SimFalse else SimUndefinedBool)
    ensures v1.IsLiteral() && v2.IsLiteral() ==> c == Decided(IsEqual(v1, v2))
    ensures v1.IsFilePointer() && v2.IsLiteral() ==>
              (c == Decided(SimFalse) <==> v2.bits == 0) && (c.Unassigned? <==> v2.bits != 0)
    ensures c.Unassigned? <==>
              !(v1.IsStringAddress() || v1.IsAddress()) && !(v1.IsLiteral() && v2.IsLiteral())
              && !(v1.IsFilePointer() && v2.IsLiteral() && v2.bits == 0)
  {
    if v1.IsStringAddress() || v1.IsAddress() then
      Decided(if v2.IsLiteral() then SimFalse else SimUndefinedBool)
    else if v1.IsLiteral() && v2.IsLiteral() then
      Decided(IsEqual(v1, v2))
    else if v1.IsFilePointer() && v2.IsLiteral() then
      if v2.bits == 0 then Decided(SimFalse) else Unassigned
    else
      Unassigned
  }

  /** The condition the address/address case evidently intends: equal
      offsets compare equal.  The other cases keep the code's answers, and
      every case the code cannot decide is undefined (so that `simulate`
      raises the unknown-branch error with both targets). */
  function BeqConditionIntended(v1: Value, v2: Value): (b: SimBool)
    ensures v1.IsAddress() && v2.IsAddress() && v1.addr.offset == v2.addr.offset ==> b == SimTrue
    ensures v1.IsStringAddress() && v2.IsLiteral() ==> b == SimFalse
    ensures v1.IsLiteral() && v2.IsLiteral() ==> b == IsEqual(v1, v2)
  {
    if v1.IsAddress() && v2.IsAddress() then
      if v1.addr.offset == v2.addr.offset then SimTrue else SimUndefinedBool
    else
      match BeqCondition(v1, v2)
      case Decided(b) => b
      case Unassigned => SimUndefinedBool
  }

  /** Outside the address/address case the intended condition agrees with the
      code wherever the code decides, and is undefined where the code fails
      on an unassigned target. */
  lemma IntendedAgrees(v1: Value, v2: Value)
    requires !(v1.IsAddress() && v2.IsAddress())
    ensures BeqCondition(v1, v2).Decided? ==> BeqConditionIntended(v1, v2) == BeqCondition(v1, v2).result
    ensures BeqCondition(v1, v2).Unassigned? ==> BeqConditionIntended(v1, v2) == SimUndefinedBool
  {
  }

  /** An address compared with itself: the code reaches no decision (and
      `simulate` raises the unknown-branch error), where the intended
      condition is true. */
  lemma EqualAddressesUndecided(a: SimAddress)
    requires a.defined
    ensures BeqCondition(Address(a), Address(a)) == Decided(SimUndefinedBool)
    ensures BeqConditionIntended(Address(a), Address(a)) == SimTrue
  {
  }

  /** A file pointer compared with a nonzero literal: the code fails on the
      unassigned targets instead of raising the unknown-branch error. */
  lemma FilePointerNonzeroUnassigned(name: string)
    ensures BeqCondition(FilePointer(name), SimOne) == Unassigned
    ensures BeqConditionIntended(FilePointer(name), SimOne) == SimUndefinedBool
  {
  }

  /** The delay slot: with no branch pending and a decided condition,
      `simulate` leaves the program counter on the instruction after the
      branch (the delay slot), and the next increment lands on the target the
      condition selected: the true target when taken, and otherwise the
      instruction after the delay slot, which is where a string address or an
      address compared with a literal always goes. */
  lemma DelaySlotThenTarget(v1: Value, v2: Value, pc: int, truetgt: int)
    requires BeqCondition(v1, v2).Decided? && BeqCondition(v1, v2).result.IsDefined()
    ensures var b := BeqCondition(v1, v2).result;
            var slot := NextProgramCounter(pc, None);
            var landing := NextProgramCounter(slot, Some(if b.IsTrue() then truetgt else pc + 8));
            && slot == pc + 4
            && (b.IsTrue() ==> landing == truetgt)
            && (!b.IsTrue() ==> landing == slot + 4)
            && ((v1.IsStringAddress() || v1.IsAddress()) && v2.IsLiteral() ==> landing == slot + 4)
  {
  }

  /** simulate.  The false target is the program counter plus 8, taken before
      the program counter moves; the true target is the target operand's
      address.  A defined condition moves the program counter once and then
      sets the delayed program counter to the target it selects; an undefined
      one raises the unknown-branch error, and the cases that reach a raise
      before the targets are assigned fail as Python does, both with the
      program counters untouched. */
  method Simulate(op: Opcode, t: OperandTable, iaddr: string, st: MipsSimState) returns (r: Result<string, SimError>)
    requires WellFormed(op) && Target(op, t).Absolute?
    modifies st`programCounter, st`delayedProgramCounter
    ensures var v1 := old(st.Rhs(Src1Operand(op, t), 4));
            var v2 := old(st.Rhs(Src2Operand(op, t), 4));
            var truetgt := Target(op, t).address;
            var falsetgt := old(st.programCounter) + 8;
            match BeqCondition(v1, v2)
            case Unassigned =>
              && r == Err(UnboundLocal("truetgt"))
              && st.programCounter == old(st.programCounter)
              && st.delayedProgramCounter == old(st.delayedProgramCounter)
            case Decided(b) =>
              if b.IsDefined() then
                && st.programCounter == NextProgramCounter(old(st.programCounter), old(st.delayedProgramCounter))
                && st.delayedProgramCounter == Some(if b.IsTrue() then truetgt else falsetgt)
                && r == Ok(SimBranch(iaddr, truetgt, falsetgt, Render(v1) + " == " + Render(v2), b))
              else
                && r == Err(BranchUnknown(iaddr, truetgt, falsetgt, "branch-equal condition: " + Render(v1) + " == " + Render(v2)))
                && st.programCounter == old(st.programCounter)
                && st.delayedProgramCounter == old(st.delayedProgramCounter)
  {
    var src1val := st.Rhs(Src1Operand(op, t), 4);
    var src2val := st.Rhs(Src2Operand(op, t), 4);
    var result: SimBool;
    if src1val.IsStringAddress() || src1val.IsAddress() {
      if src2val.IsLiteral() {
        result := SimFalse;
      } else {
        result := SimUndefinedBool;
      }
    } else if src1val.IsAddress() && src2val.IsAddress() {
      assert false;
    } else if src1val.IsLiteral() && src2val.IsLiteral() {
      result := IsEqual(src1val, src2val);
    } else if src1val.IsFilePointer() && src2val.IsLiteral() {
      if src2val.bits == 0 {
        result := SimFalse;
      } else {
        return Err(UnboundLocal("truetgt"));
      }
    } else {
      return Err(UnboundLocal("truetgt"));
    }
    var truetgt := Target(op, t).address;
    var falsetgt := st.programCounter + 8;
    if result.IsDefined() {
      st.IncrementProgramCounter();
      if result.IsTrue() {
        st.SetDelayedProgramCounter(truetgt);
      } else {
        st.SetDelayedProgramCounter(falsetgt);
      }
      var expr := Render(src1val) + " == " + Render(src2val);
      r := Ok(SimBranch(iaddr, truetgt, falsetgt, expr, result));
    } else {
      r := Err(BranchUnknown(iaddr, truetgt, falsetgt, "branch-equal condition: " + Render(src1val) + " == " + Render(src2val)));
    }
  }
}
