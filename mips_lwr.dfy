/** LWR rt, offset(base): load the right part of an unaligned word into rt,
    merging memory bytes into the register's old value by alignment and byte
    order. */
module MipsLwr {
  import opened Base
  import opened SimValue
  import opened MipsState

  /** args[0] is rt, args[1] is offset(base). */
  predicate WellFormed(op: Opcode)
  {
    |op.args| == 2
  }

  function DstOperand(op: Opcode, t: OperandTable): MipsOperand
    requires WellFormed(op)
  {
    t(op.args[0])
  }

  function SrcOperand(op: Opcode, t: OperandTable): MipsOperand
    requires WellFormed(op)
  {
    t(op.args[1])
  }

  /** annotation: "lhs := rhs". */
  function Annotation(x: InstrXData): (s: string)
    requires |x.vars| >= 1 && |x.xprs| >= 1
    ensures |s| == |x.vars[0]| + 4 + |x.xprs[0]|
    ensures s[..|x.vars[0]|] == x.vars[0] && s[|x.vars[0]| + 4..] == x.xprs[0]
  {
    x.vars[0] + " := " + x.xprs[0]
  }

  /** The register's old value is the merge base only when it is a defined
      doubleword literal; otherwise the undefined doubleword is. */
  function MergeBase(v: Value): (b: Value)
    ensures b.IsDoubleword()
    ensures v.IsLiteral() && v.IsDefined() && v.IsDoubleword() ==> b == v
    ensures !(v.IsLiteral() && v.IsDefined() && v.IsDoubleword()) ==> b == UndefinedDW
  {
    if v.IsLiteral() && v.IsDefined() && v.IsDoubleword() then v else UndefinedDW
  }

  /** Whether the load replaces the whole register with the word at the
      address: alignment 3 big-endian, alignment 0 little-endian. */
  predicate WholeWord(bigendian: bool, alignment: nat)
  {
    (bigendian && alignment == 3) || (!bigendian && alignment == 0)
  }

  /** The new register value.  `m0`, `m1` and `m2` are the bytes at the
      address, the address - 1 and the address - 2; `word` is the word at the
      address. */
  function Merge(bigendian: bool, alignment: nat, base: Value, m0: Value, m1: Value, m2: Value, word: Value): (r: Value)
    requires alignment < 4
    ensures WholeWord(bigendian, alignment) ==> r == word
  {
    if WholeWord(bigendian, alignment) then word
    else if bigendian then
      if alignment == 0 then SetByte(base, 1, m0)
      else if alignment == 1 then SetByte(SetByte(base, 1, m0), 2, m1)
      else SetByte(SetByte(SetByte(base, 1, m0), 2, m1), 3, m2)
    else
      if alignment == 1 then SetByte(SetByte(SetByte(base, 1, m0), 2, m1), 3, m2)
      else if alignment == 2 then SetByte(SetByte(base, 2, m1), 1, m0)
      else SetByte(base, 4, m0)
  }

  /** Where byte `j` (1 is the least significant) of the new value comes
      from: Some(d) for the memory byte at the address - d, None for the
      register's old byte. */
  function ByteSource(bigendian: bool, alignment: nat, j: nat): Option<nat>
    requires 1 <= j <= 4
  {
    if bigendian then (if j <= alignment + 1 then Some(j - 1) else None)
    else if alignment == 1 then (if j <= 3 then Some(j - 1) else None)
    else if alignment == 2 then (if j <= 2 then Some(j - 1) else None)
    else (if j == 4 then Some(0) else None)
  }

  predicate DefinedByte(v: Value)
  {
    v.IsLiteral() && v.IsDefined() && v.bits < 256
  }

  /** One set_byteN on defined values: byte `k` is the new byte and every
      other byte is the old one. */
  lemma SetByteDefined(dst: Value, k: nat, b: Value, j: nat)
    requires dst.IsLiteral() && dst.IsDefined() && DefinedByte(b)
    requires 1 <= k <= 4 && 1 <= j <= 4
    ensures SetByte(dst, k, b).IsLiteral() && SetByte(dst, k, b).IsDefined()
    ensures ByteOf(SetByte(dst, k, b).bits, j) as int == if j == k then b.bits else ByteOf(dst.bits, j) as int
  {
    SetByteFrame(dst.bits, k, b.bits as byte, j);
  }

  /** On defined inputs, every byte of a partial load is the memory byte
      ByteSource names, or else the register's old byte. */
  lemma {:induction false} MergeBytes(bigendian: bool, alignment: nat, base: Value, m0: Value, m1: Value, m2: Value, word: Value, j: nat)
    requires alignment < 4 && !WholeWord(bigendian, alignment) && 1 <= j <= 4
    requires base.IsLiteral() && base.IsDefined()
    requires DefinedByte(m0) && DefinedByte(m1) && DefinedByte(m2)
    ensures var r := Merge(bigendian, alignment, base, m0, m1, m2, word);
            && r.IsLiteral() && r.IsDefined()
            && ByteOf(r.bits, j) as int == match ByteSource(bigendian, alignment, j)
                                           case Some(d) => [m0, m1, m2][d].bits
                                           case None => ByteOf(base.bits, j) as int
  {
    var x1 := SetByte(base, 1, m0);
    SetByteDefined(base, 1, m0, j);
    if bigendian {
      if alignment >= 1 {
        var x2 := SetByte(x1, 2, m1);
        SetByteDefined(x1, 2, m1, j);
        if alignment == 2 {
          SetByteDefined(x2, 3, m2, j);
        }
      }
    } else if alignment == 1 {
      var x2 := SetByte(x1, 2, m1);
      SetByteDefined(x1, 2, m1, j);
      SetByteDefined(x2, 3, m2, j);
    } else if alignment == 2 {
      var y := SetByte(base, 2, m1);
      SetByteDefined(base, 2, m1, j);
      SetByteDefined(y, 1, m0, j);
    } else {
      SetByteDefined(base, 4, m0, j);
    }
  }

  /** A partial load is undefined as soon as the register's old value is
      not a defined literal. */
  lemma UndefinedBaseStaysUndefined(bigendian: bool, alignment: nat, base: Value, m0: Value, m1: Value, m2: Value, word: Value)
    requires alignment < 4 && !WholeWord(bigendian, alignment)
    requires !(base.IsLiteral() && base.IsDefined())
    ensures Merge(bigendian, alignment, base, m0, m1, m2, word) == UndefinedDW
  {
  }

  /** The register value the loads and byte merges of `simulate` build from
      the word at `a` (which `src` designates) and the merge base. */
  method LoadRight(st: MipsSimState, src: MipsOperand, a: SimAddress, base: Value) returns (v: Value)
    requires st.Lhs(src) == MemoryLocation(a)
    ensures v == Merge(st.bigendian, a.Alignment(), base, st.MemVal(a, 1), st.MemVal(a.AddOffset(-1), 1),
                       st.MemVal(a.AddOffset(-2), 1), st.MemVal(a, 4))
  {
    var alignment := a.Alignment();
    if st.bigendian {
      if alignment == 0 {
        var b1 := st.MemVal(a, 1);
        v := SetByte(base, 1, b1);
      } else if alignment == 1 {
        var b1 := st.MemVal(a, 1);
        var b2 := st.MemVal(a.AddOffset(-1), 1);
        v := SetByte(SetByte(base, 1, b1), 2, b2);
      } else if alignment == 2 {
        var b1 := st.MemVal(a, 1);
        var b2 := st.MemVal(a.AddOffset(-1), 1);
        var b3 := st.MemVal(a.AddOffset(-2), 1);
        v := SetByte(SetByte(SetByte(base, 1, b1), 2, b2), 3, b3);
      } else {
        v := st.Rhs(src, 4);
      }
    } else {
      if alignment == 0 {
        v := st.Rhs(src, 4);
      } else if alignment == 1 {
        var b3 := st.MemVal(a.AddOffset(-2), 1);
        var b2 := st.MemVal(a.AddOffset(-1), 1);
        var b1 := st.MemVal(a, 1);
        v := SetByte(SetByte(SetByte(base, 1, b1), 2, b2), 3, b3);
      } else if alignment == 2 {
        var b2 := st.MemVal(a.AddOffset(-1), 1);
        var b1 := st.MemVal(a, 1);
        v := SetByte(SetByte(base, 2, b2), 1, b1);
      } else {
        var b4 := st.MemVal(a, 1);
        v := SetByte(base, 4, b4);
      }
    }
  }

  /** simulate.  A source that is not a global or stack memory location
      raises a simulation error before anything changes; otherwise rt
      receives the merged value, written once, and the program counter moves
      once. */
  method Simulate(op: Opcode, t: OperandTable, iaddr: string, st: MipsSimState) returns (r: Result<string, SimError>)
    requires WellFormed(op) && DstOperand(op, t).Register?
    modifies st`registers, st`programCounter, st`delayedProgramCounter
    ensures var loc := old(st.Lhs(SrcOperand(op, t)));
            if !(loc.IsGlobal() || loc.IsStack()) then
              && r == Err(SimulationError(iaddr, "Load-word-right source is not a memory location: " + LocationText(loc)))
              && st.registers == old(st.registers)
              && st.programCounter == old(st.programCounter)
              && st.delayedProgramCounter == old(st.delayedProgramCounter)
            else
              var a := loc.address;
              var rt := DstOperand(op, t).name;
              var v := Merge(st.bigendian, a.Alignment(), MergeBase(old(st.Rhs(DstOperand(op, t), 4))),
                             old(st.MemVal(a, 1)), old(st.MemVal(a.AddOffset(-1), 1)),
                             old(st.MemVal(a.AddOffset(-2), 1)), old(st.MemVal(a, 4)));
              && st.registers == old(st.registers)[rt := v]
              && st.programCounter == NextProgramCounter(old(st.programCounter), old(st.delayedProgramCounter))
              && st.delayedProgramCounter == None
              && r == Ok(SimAssign(iaddr, rt, v, ""))
  {
    var srcop := SrcOperand(op, t);
    var srclocation := st.Lhs(srcop);
    if !srclocation.IsMemoryLocation() || !(srclocation.IsGlobal() || srclocation.IsStack()) {
      return Err(SimulationError(iaddr, "Load-word-right source is not a memory location: " + LocationText(srclocation)));
    }
    var srcaddress := srclocation.address;
    var dstop := DstOperand(op, t);
    var dstvalue := st.Rhs(dstop, 4);
    if !(dstvalue.IsLiteral() && dstvalue.IsDefined() && dstvalue.IsDoubleword()) {
      dstvalue := UndefinedDW;
    }
    var dstval := LoadRight(st, srcop, srcaddress, dstvalue);
    var lhs := st.SetRegister(dstop.name, dstval);
    st.IncrementProgramCounter();
    r := Ok(SimAssign(iaddr, lhs, dstval, ""));
  }
}
