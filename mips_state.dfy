/** What a MIPS opcode's `simulate` sees of the simulation: decoded operands,
    the instruction's analysis record, the exceptions it may raise, and the
    simulation state (registers, byte memory, program counter, pending delayed
    program counter, log).  The state class of the repository
    (MIPSimulationState) and the trace formatters (simassign, simbranch) are
    not part of this model; the members below are stand-ins with the
    behaviour the opcodes rely on. */
module MipsState {
  import opened Base
  import opened SimValue

  /** A decoded MIPS operand. */
  datatype MipsOperand =
    | Register(name: string)
    | Immediate(value: int)
    | Indirect(base: string, offset: int)
    | Absolute(address: int)

  /** str(operand), in the assembler's syntax. */
  function OperandText(op: MipsOperand): string
  {
    match op
    case Register(r) => r
    case Immediate(v) => Hex(v)
    case Indirect(b, off) => Hex(off) + "(" + b + ")"
    case Absolute(a) => Hex(a)
  }

  /** An opcode record: its tags and its argument indices into the MIPS
      dictionary. */
  datatype Opcode = Opcode(tags: seq<string>, args: seq<int>)

  /** mipsd.mips_operand: the dictionary that decodes an operand index. */
  type OperandTable = int -> MipsOperand

  /** The operands named by a list of dictionary indices, in order. */
  function OperandsOf(ixs: seq<int>, table: OperandTable): (ops: seq<MipsOperand>)
    ensures |ops| == |ixs|
    ensures forall i :: 0 <= i < |ixs| ==> ops[i] == table(ixs[i])
  {
    seq(|ixs|, i requires 0 <= i < |ixs| => table(ixs[i]))
  }

  /** The operands of an opcode whose every argument is an operand index:
      one per argument, in order. */
  function Operands(op: Opcode, t: OperandTable): (ops: seq<MipsOperand>)
    ensures |ops| == |op.args|
    ensures forall i :: 0 <= i < |op.args| ==> ops[i] == t(op.args[i])
  {
    OperandsOf(op.args, t)
  }

  /** The exceptions a simulation step can raise. */
  datatype SimError =
      /** CHBSimError */
    | SimulationError(iaddr: string, msg: string)
      /** CHBSimBranchUnknownError, with the two branch targets */
    | BranchUnknown(iaddr: string, truetgt: int, falsetgt: int, msg: string)
      /** CHBSymbolicExpression, naming the operand the expression concerns */
    | SymbolicExpression(iaddr: string, operand: MipsOperand, expr: string)
      /** CHBSimTrapSignalException, with the two compared values */
    | TrapSignal(iaddr: string, v1: Value, v2: Value)
      /** CHBError */
    | StructuralError(msg: string)
      /** Python's UnboundLocalError: a local variable read before assignment */
    | UnboundLocal(name: string)
      /** Python's ValueError, which int() raises on text that is not a number */
    | ValueError(msg: string)

  /** check_key(ntags, nargs, name): an opcode record of the wrong shape is
      refused at construction. */
  function CheckKey(op: Opcode, ntags: nat, nargs: nat, name: string): (r: Result<Opcode, SimError>)
    ensures r.Ok? <==> |op.tags| == ntags && |op.args| == nargs
    ensures r.Ok? ==> r.value == op
  {
    if |op.tags| == ntags && |op.args| == nargs then Ok(op)
    else Err(StructuralError(name + ": expected " + Str(ntags) + " tags and " + Str(nargs) + " args"))
  }

  /** The analysis record of one instruction: variables, expressions (as their
      printed text) and argument indices. */
  datatype InstrXData = InstrXData(vars: seq<string>, xprs: seq<string>, args: seq<int>)

  /** simplify_result(id1, id2, x, rx): the syntactic expression, followed by
      its simplified form when the two differ. */
  function SimplifyResult(id1: int, id2: int, x: string, rx: string): string
  {
    if id1 == id2 then x else x + " (= " + rx + ")"
  }

  /** A key into simulated memory: a region and an offset within it. */
  datatype Loc = Loc(region: Region, offset: int)

  /** The location an operand designates (get_lhs). */
  datatype Location = RegisterLocation(register: string) | MemoryLocation(address: SimAddress) | NoLocation
  {
    predicate IsMemoryLocation() { MemoryLocation? }
    predicate IsGlobal() { MemoryLocation? && address.region.Global? }
    predicate IsStack() { MemoryLocation? && address.region.Stack? }
  }

  function LocationText(l: Location): string
  {
    match l
    case RegisterLocation(r) => r
    case MemoryLocation(a) => Render(Address(a))
    case NoLocation => "no location"
  }

  /** simassign: the trace line of an assignment. */
  function SimAssign(iaddr: string, lhs: string, result: Value, expr: string): string
  {
    iaddr + ": " + lhs + " := " + Render(result) + (if expr == "" then "" else " (" + expr + ")")
  }

  /** simbranch: the trace line of a decided branch. */
  function SimBranch(iaddr: string, truetgt: int, falsetgt: int, expr: string, result: SimBool): string
  {
    iaddr + ": if " + expr + " then goto " + Hex(truetgt) + " else goto " + Hex(falsetgt)
    + (if result.IsTrue() then " (taken)" else " (not taken)")
  }

  /** increment_program_counter: a pending delayed target (a branch in the
      previous instruction) becomes the program counter; otherwise the program
      counter moves to the next instruction. */
  function NextProgramCounter(pc: int, delayed: Option<int>): (next: int)
    ensures delayed.None? ==> next == pc + 4
    ensures delayed.Some? ==> next == delayed.value
  {
    match delayed
    case Some(t) => t
    case None => pc + 4
  }

  /** The simulation state the opcodes read and update. */
  class MipsSimState {
    var registers: map<string, Value>
    /** One byte per location; a byte value may be undefined. */
    var memory: map<Loc, Value>
    var programCounter: int
    var delayedProgramCounter: Option<int>
    var log: seq<string>
    const bigendian: bool

    constructor (bigendian: bool, start: int)
      ensures this.bigendian == bigendian
      ensures programCounter == start && delayedProgramCounter == None
      ensures registers == map[] && memory == map[] && log == []
    {
      this.bigendian := bigendian;
      programCounter := start;
      delayedProgramCounter := None;
      registers := map[];
      memory := map[];
      log := [];
    }

    /** A register that was never written holds the undefined doubleword. */
    function RegisterValue(r: string): (v: Value)
      reads this
      ensures r !in registers ==> v == UndefinedDW
      ensures r in registers ==> v == registers[r]
    {
      if r in registers then registers[r] else UndefinedDW
    }

    /** The defined bytes at `offset .. offset + n - 1` of a region, or None
        when one of them is missing or undefined. */
    function MemoryBytes(region: Region, offset: int, n: nat): (r: Option<seq<byte>>)
      reads this
      ensures r.Some? ==> |r.value| == n
      decreases n
    {
      if n == 0 then Some([])
      else
        var l := Loc(region, offset);
        if l in memory && memory[l].Literal? && memory[l].defined && memory[l].bits < 256 then
          match MemoryBytes(region, offset + 1, n - 1)
          case None => None
          case Some(rest) => Some([memory[l].bits as byte] + rest)
        else None
    }

    /** get_memval(address, size): the value of `size` bytes from `a`, in the
        state's byte order; undefined unless every byte is defined. */
    function MemVal(a: SimAddress, size: nat): (v: Value)
      reads this
      ensures v.Literal? && v.size == size
      ensures v.defined <==> MemoryBytes(a.region, a.offset, size).Some?
    {
      match MemoryBytes(a.region, a.offset, size)
      case Some(bs) => Literal(size, Assemble(bs, bigendian), true)
      case None => Literal(size, 0, false)
    }

    /** get_lhs: the location an operand designates. */
    function Lhs(op: MipsOperand): Location
      reads this
    {
      match op
      case Register(r) => RegisterLocation(r)
      case Immediate(_) => NoLocation
      case Indirect(b, off) =>
        var base := RegisterValue(b);
        if base.Address? then MemoryLocation(base.addr.AddOffset(off)) else NoLocation
      case Absolute(a) => MemoryLocation(SimAddress(Global, a, true))
    }

    /** get_rhs(op, size): the value an operand denotes. */
    function Rhs(op: MipsOperand, size: nat): Value
      reads this
    {
      match op
      case Register(r) => RegisterValue(r)
      case Immediate(v) => MkSimValue(v, 4)
      case _ =>
        match Lhs(op)
        case MemoryLocation(a) => MemVal(a, size)
        case _ => Literal(size, 0, false)
    }

    /** set(register, v): returns the name of the written location. */
    method SetRegister(r: string, v: Value) returns (lhs: string)
      modifies this`registers
      ensures registers == old(registers)[r := v]
      ensures lhs == r
    {
      registers := registers[r := v];
      lhs := r;
    }

    /** set_byte: writes one byte of memory. */
    method SetMemoryByte(l: Loc, b: Value)
      modifies this`memory
      ensures memory == old(memory)[l := b]
    {
      memory := memory[l := b];
    }

    method IncrementProgramCounter()
      modifies this`programCounter, this`delayedProgramCounter
      ensures programCounter == NextProgramCounter(old(programCounter), old(delayedProgramCounter))
      ensures delayedProgramCounter == None
    {
      programCounter := NextProgramCounter(programCounter, delayedProgramCounter);
      delayedProgramCounter := None;
    }

    method SetDelayedProgramCounter(target: int)
      modifies this`delayedProgramCounter
      ensures delayedProgramCounter == Some(target)
    {
      delayedProgramCounter := Some(target);
    }

    /** add_logmsg(facility, msg): appends one line to the log. */
    method AddLogMsg(facility: string, msg: string)
      modifies this`log
      ensures log == old(log) + [facility + ": " + msg]
    {
      log := log + [facility + ": " + msg];
    }
  }
}
