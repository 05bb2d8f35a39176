# CodeHawk-Binary core, modelled in Dafny

This project models five parts of CodeHawk-Binary's Python front end:

- **The MIPS simulator's memory regions** (`MIPSimMemory.py`):
  - the stack region, which has no environment strings;
  - the global region, which reads patched globals first, then copies bytes in from the ELF file image on a miss, logs uninitialised reads and records every access;
  - the base region of a dynamically allocated buffer, with its buffer size, its status and a reading that never raises.
- **Nine MIPS opcodes**: OR, AND, SLLV, SLTIU, TEQ, BEQ, BGEZL, LWR and SB. For each, the model covers its operands, its annotation and its `simulate` step on the simulator state.
- **ARM operand kinds, ARM memory offsets and the ARM PUSH opcode**: their accessors and their assembler text.
- **Non-relational invariant values**: the symbolic expression, the interval and the base-offset value, with their bounds, predicates and text.
- **The call-graph renderer** (`DotCallgraph.py`): reachability from a start address, the nodes kept for drawing, and the node and edge calls made on the dot graph.

## Files

- `base.dfy`: shared pieces.
  - `Option` and `Result`.
  - Python's `hex` and `str` of integers, with parsers proved to invert them.
  - `split` and `join`.
  - Bytes, in little- and big-endian order.
- `sim_value.dfy`: a stand-in for the simulator's value domain, which is not part of this model. It has:
  - literals of a byte size, with a defined flag;
  - symbols, which carry a known or unknown sign;
  - addresses in a region (stack, global or base), string addresses and file pointers;
  - the three-valued boolean of branch conditions;
  - 32-bit `or`, `and` and shift-left, and byte access.
- `mips_state.dfy`: the simulation state as a class.
  - State: the registers, byte memory per region, the program counter, the pending delayed-branch target and the log.
  - Operand lookup through the opcode's argument indices.
  - The error kinds the opcodes raise.
  - The trace strings of `simassign` and `simbranch`.
- `mips_memory.dfy`: the three memory regions.
- `mips_<opcode>.dfy`: one module per MIPS opcode.
- `arm_records.dfy`, `arm_operand_kind.dfy`, `arm_memory_offset.dfy` and `arm_push.dfy`: the ARM dictionary records and the three ARM components.
- `non_relational_value.dfy`: invariant values.
- `dot_callgraph.dfy`: the call-graph renderer.

## Stand-ins and assumptions

Parts the core calls into are not part of this model. Each one becomes a parameter or a small definition, as follows:

- The base memory's own `get` (`SimMemory.get`) becomes `MipsMemory.OverlayRead`. It succeeds only when every byte of the read has been written, and it assembles the bytes in the state's endianness.
- `increment_program_counter` becomes `MipsState.NextProgramCounter`. The counter jumps to a pending delayed-branch target if there is one, and otherwise moves on by 4. The pending target is then cleared.
- `simassign`, `simbranch` and `simplify_result` become functions that return the trace text.
- The ELF header becomes a record of two functions:
  - `sectionIndex`, standing for `get_elf_section_index`;
  - `memoryValue`, standing for `get_memory_value`.
- The simulator support's patched globals become a map that is passed in.
- ARM and expression dictionary lookups become function-valued fields of a record (`ArmDictionary`, `XprDictionary`).
- The record text of the generic dictionary class is one of those fields.
- The graph's `find_paths` becomes a function parameter of the renderer.
- The `DotGraph` is the sequence of `add_node` and `add_edge` calls made on it.
- Destination operands of register-writing opcodes are required to be registers. The opcode's format guarantees this.

## Where the documentation and the code differ (the model follows the code)

- An uninitialised global read outside every section is not stored back. Each later read of the same address logs "uninitialized" again.
- A read from the image logs "uninitialized" even when every byte was found, because the log call is not inside the undefined-value test.
- `is_arm_absolute` is false for every operand kind, the absolute kind `a` included.
- BGEZL moves the program counter before it raises on an undecided condition.
- SLLV is documented by its own comment as shifting by the low five bits of rs (`s <- GPR[rs][4..0]`), but the code shifts by the whole value, so an amount of 32 or more clears the word.
- The base-offset invariant value is documented with `args[4]`. It has four args, `args[0..3]`.

## Model

| member | source | states |
|---|---|---|
| MipsMemory.StackMemory.SetEnvironmentString | chb/mips/simulation/MIPSimMemory.py:52-53 | setting the environment string leaves the stack memory unchanged |
| MipsMemory.Patches | chb/mips/simulation/MIPSimMemory.py:72-76 | the patched globals are the cached ones when any are cached, and the support's otherwise |
| MipsMemory.GlobalMemory.PatchedGlobals | chb/mips/simulation/MIPSimMemory.py:72-76 | the first call loads the support's patches when the cache is empty, and the result is the cache |
| MipsMemory.GlobalMemory.HasPatchedGlobal | chb/mips/simulation/MIPSimMemory.py:99-100 | true exactly when the hex of the address's offset is a patched key |
| MipsMemory.PatchedGlobal | chb/mips/simulation/MIPSimMemory.py:102-108 | a missing key raises "No patched global found for" (a CHB error); a present key yields the 4-byte value its hex text denotes, and a patch that is not hex raises Python's ValueError, not a CHB error |
| MipsMemory.PatchReadsBack | chb/mips/simulation/MIPSimMemory.py:102-108 | a patch written as the hex of v reads back as the doubleword v |
| MipsMemory.GlobalMemory.GetPatchedGlobal | chb/mips/simulation/MIPSimMemory.py:102-108 | the result is PatchedGlobal on the loaded patches |
| MipsMemory.Case | chb/mips/simulation/MIPSimMemory.py:115-130 | the case split: an undefined address, then a patched one, then outside every section, then a missing image byte, then a read from the image |
| MipsMemory.ImageCase | chb/mips/simulation/MIPSimMemory.py:124-142 | an address outside every section is its own case; otherwise the first offset with no image byte is named, or there is none |
| MipsMemory.FirstMissing | chb/mips/simulation/MIPSimMemory.py:133-142 | the first offset in the range with no image byte: every offset before it has one, and none is missing when it returns None |
| MipsMemory.FirstMissingIs | chb/mips/simulation/MIPSimMemory.py:133-142 | an offset whose predecessors all have image bytes and which has none is the first missing one |
| MipsMemory.ImageRange | chb/mips/simulation/MIPSimMemory.py:133-136 | the bytes copied cover exactly the range, each the image's byte |
| MipsMemory.ImageBytes | chb/mips/simulation/MIPSimMemory.py:133-136 | the image's bytes over the range, in address order |
| MipsMemory.GlobalMemory.CopyFromImage | chb/mips/simulation/MIPSimMemory.py:133-142 | the copy loop stops at the first missing byte, which it reports, having stored exactly the bytes before it |
| MipsMemory.ImageResult | chb/mips/simulation/MIPSimMemory.py:124-153 | outside the image the read is a zero of the read size; a missing byte raises "No value found for … in section …"; otherwise the copied bytes are read |
| MipsMemory.SectionResult | chb/mips/simulation/MIPSimMemory.py:110-155 | get_from_section's result in each case, with "Address is not defined" for an undefined address |
| MipsMemory.GlobalMemory.FromImage | chb/mips/simulation/MIPSimMemory.py:124-153 | the image branch's result, memory, log and accesses |
| MipsMemory.GlobalMemory.FromSection | chb/mips/simulation/MIPSimMemory.py:132-153 | for an address inside a section: the copy either stops at a missing byte (an error, no log line, no access) or completes, and the read, log line and access entry follow |
| MipsMemory.GlobalMemory.AfterCopy | chb/mips/simulation/MIPSimMemory.py:137-153 | once the copy loop has stopped, the outcome is ImageResult over the overlay the copy started from: the missing-byte error with no log line and no access, or the read with one log line and one access |
| MipsMemory.GlobalMemory.MissingError | chb/mips/simulation/MIPSimMemory.py:137-142 | the first byte the section lacks raises the structural "No value found" error, the result ImageResult gives for that case |
| MipsMemory.GlobalMemory.ReadSection | chb/mips/simulation/MIPSimMemory.py:144-153 | after a complete copy the read always succeeds with ImageResult, logs one line and records one access |
| MipsMemory.Recorded | chb/mips/simulation/MIPSimMemory.py:151-152 | recording an access adds the address's key, leaves every other history as it was, and appends exactly one entry to that address's history |
| MipsMemory.GlobalMemory.ReadCopied | chb/mips/simulation/MIPSimMemory.py:144-153 | reading the copied bytes back: an undefined value becomes zero; every successful read logs one "uninitialized" line and appends one entry to the address's access history |
| MipsMemory.GlobalMemory.FromDefined | chb/mips/simulation/MIPSimMemory.py:115-153 | for a defined address: a patched one reads the patch with memory, log and accesses unchanged; any other reads the image with ImageResult, ImageMemory, its log line and its access record |
| MipsMemory.GlobalMemory.GetFromSection | chb/mips/simulation/MIPSimMemory.py:110-155 | the result is SectionResult, the memory is SectionMemory, and an access is recorded only for a read from the image |
| MipsMemory.GlobalMemory.Get | chb/mips/simulation/MIPSimMemory.py:85-97 | a defined overlay value is returned with nothing changed; an undefined or failed overlay read falls back to get_from_section, with its result, memory, log line ("uninitialized" exactly in the cases that log) and access record (only for a read from the image) |
| MipsMemory.OverlayRead | chb/mips/simulation/MIPSimMemory.py:91-97 | the region's own read succeeds exactly when every byte of it was written, and yields a literal of the read size |
| MipsMemory.DefinedBytesOfWritten | chb/mips/simulation/MIPSimMemory.py:133-136 | bytes that were written read back as themselves |
| MipsMemory.InImageReadsImage | chb/mips/simulation/MIPSimMemory.py:133-153 | when every byte of a read lies in the image, the read returns the image's bytes |
| MipsMemory.CopiedRangeReadsBack | chb/mips/simulation/MIPSimMemory.py:133-145 | a range copied from the image reads back as the image's bytes |
| MipsMemory.SecondReadHitsOverlay | chb/mips/simulation/MIPSimMemory.py:85-97 | after one read from the image, a second read of the same address is answered by the overlay without going to the section |
| MipsMemory.PatchPrecedesImage | chb/mips/simulation/MIPSimMemory.py:118-120 | a patched address reads the same whatever the image holds, and nothing is copied |
| MipsMemory.BaseMemory.constructor | chb/mips/simulation/MIPSimMemory.py:160-168 | a new base region has its name, its optional buffer size, no bytes and status "valid" |
| MipsMemory.BaseMemory.Buffersize | chb/mips/simulation/MIPSimMemory.py:178-183 | the buffer size when it is known; otherwise it raises "Buffersize of memory is not known" |
| MipsMemory.BaseMemory.HasBuffersize | chb/mips/simulation/MIPSimMemory.py:191-192 | as written, it never answers false: it is true with a size and raises without one |
| MipsMemory.BaseMemory.HasBuffersizeIntended | chb/mips/simulation/MIPSimMemory.py:191-192 | true exactly when the buffer size is known |
| MipsMemory.BaseMemory.UnknownSizeRaises | chb/mips/simulation/MIPSimMemory.py:191-192 | with no size, the intended answer is false, and the code raises |
| MipsMemory.BaseMemory.Free | chb/mips/simulation/MIPSimMemory.py:185-189 | after free the status is "freed" and the region is no longer valid |
| MipsMemory.BaseMemory.IsValid | chb/mips/simulation/MIPSimMemory.py:188-189 | true exactly while the status is "valid": the constructor starts a region valid and Free ends it (their contracts state both) |
| MipsMemory.BaseMemory.Get | chb/mips/simulation/MIPSimMemory.py:194-210 | a successful read is returned; a failed one becomes the symbol "name[offset] (value not retrieved: error)" |
| MipsMemory.BaseMemory.FailedReadNamesRegion | chb/mips/simulation/MIPSimMemory.py:198-208 | reading an unwritten byte never raises: it yields a symbol of unknown sign whose name starts with the region's name and "[" |
| MipsState.Operands | chb/mips/opcodes/MIPSAnd.py:69-71 | one operand per argument index, looked up in order (the `operands` property of OR, AND, SLLV, SLTIU, BEQ, BGEZL, LWR and SB is this same lookup) |
| MipsOr.OperandMapping | chb/mips/opcodes/MIPSOr.py:90-100 | the operands are rd, rs, rt in that order |
| MipsOr.Annotation | chb/mips/opcodes/MIPSOr.py:74-88 | "lhs := result", with "(= simplified)" exactly when the simplified result differs |
| MipsOr.OrResult | chb/mips/opcodes/MIPSOr.py:106-158 | as written: defined literals give a defined doubleword; a symbol with a defined literal gives a symbol of unknown sign; anything else gives an undefined literal |
| MipsOr.OrResultIntended | chb/mips/opcodes/MIPSOr.py:127-148 | each mixed case names the symbol first, then the literal's text, as the symbol-or-literal case does |
| MipsOr.IntendedAgreesElsewhere | chb/mips/opcodes/MIPSOr.py:106-158 | the two definitions agree outside the literal-with-symbol case |
| MipsOr.LiteralOrSymbolName | chb/mips/opcodes/MIPSOr.py:138-148 | 0x1 or'ed with symbol s is named "s \| s" as written, and "s \| 0x1" as intended |
| MipsOr.IntendedNamesBothOperands | chb/mips/opcodes/MIPSOr.py:127-148 | in the intended result the symbol's name and the literal's text both appear |
| MipsOr.OrLiteralsCommute | chb/mips/opcodes/MIPSOr.py:112-126 | on defined literals the result does not depend on operand order |
| MipsOr.Simulate | chb/mips/opcodes/MIPSOr.py:106-158 | rd becomes OrResult of rs and rt, the program counter moves once, and the trace is the assignment |
| MipsAnd.FromRecord | chb/mips/opcodes/MIPSAnd.py:67 | a record is accepted exactly when it has one tag and three args |
| MipsAnd.FromRecordWellFormed | chb/mips/opcodes/MIPSAnd.py:67-99 | an accepted record has operands rd, rs, rt |
| MipsAnd.Annotation | chb/mips/opcodes/MIPSAnd.py:73-87 | "lhs := result", with "(= simplified)" exactly when it differs |
| MipsAnd.AndDisjointWords | chb/mips/opcodes/MIPSAnd.py:105-131 | for every two defined 32-bit words, the and is zero exactly when they share no set bit, that is, when their or equals their sum |
| MipsAnd.AndZero | chb/mips/opcodes/MIPSAnd.py:105-131 | and with zero clears every bit |
| MipsAnd.AndLiteralsCommute | chb/mips/opcodes/MIPSAnd.py:105-131 | on literals the result does not depend on operand order |
| MipsAnd.Simulate | chb/mips/opcodes/MIPSAnd.py:105-131 | a symbolic operand raises before any change; otherwise rd becomes the bitwise and and the program counter moves once |
| MipsSllv.OperandMapping | chb/mips/opcodes/MIPSShiftLeftLogicalVariable.py:91-101 | the operands are rd, rt (the value), rs (the amount) |
| MipsSllv.Annotation | chb/mips/opcodes/MIPSShiftLeftLogicalVariable.py:75-89 | "lhs := result", with "(= simplified)" exactly when it differs |
| MipsSllv.SllvResult | chb/mips/opcodes/MIPSShiftLeftLogicalVariable.py:109-144 | a result exists exactly for a defined amount with a defined literal or a symbol; a literal is shifted within 32 bits; a symbol is renamed "name:shifted left by n" |
| MipsSllv.ShiftBeyondWidthClears | chb/mips/opcodes/MIPSShiftLeftLogicalVariable.py:115-130 | shifting a literal by 32 or more gives zero |
| MipsSllv.ShiftByZero | chb/mips/opcodes/MIPSShiftLeftLogicalVariable.py:115-130 | shifting by zero keeps the bits |
| MipsSllv.Simulate | chb/mips/opcodes/MIPSShiftLeftLogicalVariable.py:109-144 | with a result, rd is written and the program counter moves; otherwise it raises and nothing changes |
| MipsSltiu.Annotation | chb/mips/opcodes/MIPSSetLTImmediateUnsigned.py:75-89 | "lhs := 1 if cond else 0", with "(= simplified)" exactly when it differs |
| MipsSltiu.SltiuResult | chb/mips/opcodes/MIPSSetLTImmediateUnsigned.py:111-128 | one exactly when the defined source is below the immediate, zero exactly when it is not, and undefined otherwise |
| MipsSltiu.AllOnesNeverBelow | chb/mips/opcodes/MIPSSetLTImmediateUnsigned.py:111-128 | the unsigned source 0xFFFFFFFF is never below an immediate in range |
| MipsSltiu.Simulate | chb/mips/opcodes/MIPSSetLTImmediateUnsigned.py:111-128 | the destination becomes SltiuResult and the program counter moves once |
| MipsTeq.Operands | chb/mips/opcodes/MIPSTrapIfEqual.py:70-72 | the operands skip the trap-code argument |
| MipsTeq.Annotation | chb/mips/opcodes/MIPSTrapIfEqual.py:74-88 | "trap if a == b (result)", with "(= simplified)" exactly when it differs |
| MipsTeq.Simulate | chb/mips/opcodes/MIPSTrapIfEqual.py:104-126 | a symbol raises; equal defined literals raise the trap; otherwise no trap and the program counter moves once |
| MipsBeq.Annotation | chb/mips/opcodes/MIPSBranchEqual.py:77-90 | "if cond then goto target", with "(= simplified)" exactly when it differs |
| MipsBeq.FtConditions | chb/mips/opcodes/MIPSBranchEqual.py:92-93 | the fall-through condition comes first, then the branch condition |
| MipsBeq.BeqCondition | chb/mips/opcodes/MIPSBranchEqual.py:115-166 | as written: each case split ends in a decided or undefined condition, or where a target is never assigned |
| MipsBeq.BeqConditionIntended | chb/mips/opcodes/MIPSBranchEqual.py:120-155 | equal addresses compare true; a string address differs from a literal; literals compare their bits |
| MipsBeq.IntendedAgrees | chb/mips/opcodes/MIPSBranchEqual.py:115-166 | wherever the code reaches a decision the intended condition agrees, and where it raises the intended is undefined |
| MipsBeq.EqualAddressesUndecided | chb/mips/opcodes/MIPSBranchEqual.py:120-131 | an address compared with itself is undecided as written, and true as intended |
| MipsBeq.FilePointerNonzeroUnassigned | chb/mips/opcodes/MIPSBranchEqual.py:137-147 | a file pointer compared with a nonzero literal leaves the targets unassigned |
| MipsBeq.DelaySlotThenTarget | chb/mips/opcodes/MIPSBranchEqual.py:115-163 | for a decided condition: after the branch the program counter is on the delay slot, and the next step lands on the true target when taken, and otherwise on the instruction after the delay slot, where an address compared with a literal always goes |
| MipsBeq.Simulate | chb/mips/opcodes/MIPSBranchEqual.py:115-173 | an unassigned target raises; a decided condition moves the program counter and sets the delayed target; an undecided one raises "branch-equal condition" |
| MipsBgezl.FtConditions | chb/mips/opcodes/MIPSBranchGEZeroLikely.py:82-86 | the fall-through condition comes first, then the branch condition |
| MipsBgezl.BranchCondition | chb/mips/opcodes/MIPSBranchGEZeroLikely.py:82-83 | the simplified result, xprs[2]; FtConditions states that it is the second entry of ft_conditions, the condition of the taken edge |
| MipsBgezl.Annotation | chb/mips/opcodes/MIPSBranchGEZeroLikely.py:88-100 | "if cond then goto target", with "(= simplified)" exactly when it differs |
| MipsBgezl.Decision | chb/mips/opcodes/MIPSBranchGEZeroLikely.py:110-145 | a defined literal is taken exactly when it is non-negative as a 32-bit word; a symbol gives its sign; anything else is undefined |
| MipsBgezl.UnknownSymbolMovesThenFails | chb/mips/opcodes/MIPSBranchGEZeroLikely.py:110-145 | a symbol of unknown sign moves the program counter, then raises |
| MipsBgezl.LiteralMovesIffTaken | chb/mips/opcodes/MIPSBranchGEZeroLikely.py:110-145 | on a defined literal the program counter moves exactly when the branch is taken |
| MipsBgezl.SignBoundary | chb/mips/opcodes/MIPSBranchGEZeroLikely.py:110-145 | 0x80000000 is not taken and 0x7FFFFFFF is |
| MipsBgezl.DelaySlotOnlyWhenTaken | chb/mips/opcodes/MIPSBranchGEZeroLikely.py:110-145 | on a defined literal, a taken branch passes through the delay slot to the target, and a branch not taken jumps over the delay slot to pc + 8 |
| MipsBgezl.Simulate | chb/mips/opcodes/MIPSBranchGEZeroLikely.py:110-145 | the program counter, the delayed target and the result in each case, including moving before raising |
| MipsLwr.Annotation | chb/mips/opcodes/MIPSLoadWordRight.py:81-91 | the text starts with the left-hand side and ends with the right-hand side |
| MipsLwr.MergeBase | chb/mips/opcodes/MIPSLoadWordRight.py:135-140 | the old register is the merge base only when it is a defined doubleword; otherwise an undefined doubleword |
| MipsLwr.Merge | chb/mips/opcodes/MIPSLoadWordRight.py:143-196 | an aligned load (alignment 3 big-endian, 0 little-endian) is the whole word; for a partial load MergeBytes states byte by byte where each byte comes from |
| MipsLwr.SetByteDefined | chb/mips/opcodes/MIPSLoadWordRight.py:143-196 | setting byte k changes byte k and no other |
| MipsLwr.MergeBytes | chb/mips/opcodes/MIPSLoadWordRight.py:143-196 | on defined inputs, each byte of the result is the memory byte the alignment and endianness name, or the old register's byte |
| MipsLwr.LoadRight | chb/mips/opcodes/MIPSLoadWordRight.py:143-196 | the bytes loaded and merged for each byte order and alignment give Merge of the memory bytes and the merge base, changing nothing |
| MipsLwr.UndefinedBaseStaysUndefined | chb/mips/opcodes/MIPSLoadWordRight.py:135-196 | a partial load onto an undefined register is undefined |
| MipsLwr.Simulate | chb/mips/opcodes/MIPSLoadWordRight.py:114-198 | a source that is not a global or stack location raises; otherwise rt becomes the merge and the program counter moves once |
| MipsSb.Annotation | chb/mips/opcodes/MIPSStoreByte.py:77-90 | "lhs := rhs", with "(= simplified)" exactly when it differs |
| MipsSb.Simulate | chb/mips/opcodes/MIPSStoreByte.py:109-115 | as written: the byte at offset(base) is read and written into rt, and the program counter moves once |
| MipsSb.LowByte | chb/mips/opcodes/MIPSStoreByte.py:109-115 | the least significant byte, defined exactly when the value is a defined literal |
| MipsSb.SimulateIntended | chb/mips/opcodes/MIPSStoreByte.py:109-115 | as intended: the low byte of rt is stored at offset(base), and registers are untouched |
| MipsSb.AsWrittenScenario | chb/mips/opcodes/MIPSStoreByte.py:109-115 | SB a0 with 0x41 in a0 over a zero byte leaves a0 zero and memory zero |
| MipsSb.IntendedScenario | chb/mips/opcodes/MIPSStoreByte.py:109-115 | the same store as intended leaves a0 at 0x41 and memory at 0x41 |
| ArmRecords.Tag | chb/arm/ARMOperandKind.py:84-85 | a record's variant tag, "" when it has none |
| ArmRecords.CheckKey | chb/arm/opcodes/ARMPush.py:61 | a record is accepted exactly when it has the expected tag and arg counts |
| ArmOperandKind.BaseText | chb/arm/ARMOperandKind.py:84-85 | "operandkind: " followed by the tag |
| ArmOperandKind.Registers | chb/arm/ARMOperandKind.py:122-124 | the register list is the tags after the first |
| ArmOperandKind.RegListTextReadsBack | chb/arm/ARMOperandKind.py:126-127 | the text is braced, and splitting inside at the commas gives back the registers |
| ArmOperandKind.ShiftedRegisterTextInjective | chb/arm/ARMOperandKind.py:144-153 | two shifted registers render alike exactly when register and shift agree |
| ArmOperandKind.SignedOffsetText | chb/arm/ARMOperandKind.py:233-236 | the offset text, with "-" prefixed exactly when the offset subtracts |
| ArmOperandKind.OffsetAddressForm | chb/arm/ARMOperandKind.py:233-243 | the text shows the addressing form: "]!" for pre-indexed write-back, "], " for post-indexed, "]" for offset |
| ArmOperandKind.OffsetAddressSign | chb/arm/ARMOperandKind.py:233-243 | the offset's sign can be read from the text |
| ArmOperandKind.Value | chb/arm/ARMOperandKind.py:255-257 | the immediate is the decimal of tags[1], and an error when tags[1] is not decimal |
| ArmOperandKind.ImmediateReadsBack | chb/arm/ARMOperandKind.py:255-270 | an immediate written as n has value n, signed and unsigned, and its hex text reads back as n |
| ArmOperandKind.Text | chb/arm/ARMOperandKind.py:84-270 | each kind's text: a register or memory register kind is its register name, an absolute kind is the address text, an immediate is the hex of its value, and the register list, shifted register, offset address and base kinds their own forms; it fails exactly for an immediate that is not decimal |
| ArmOperandKind.FlagsByKind | chb/arm/ARMOperandKind.py:76-82 | only the immediate kind is an immediate, and no kind is absolute |
| ArmOperandKind.IsArmAbsolute | chb/arm/ARMOperandKind.py:76-78 | false for every kind, since no kind overrides the base property (FlagsByKind states it) |
| ArmOperandKind.IsArmImmediate | chb/arm/ARMOperandKind.py:265-267 | true for the immediate kind only, the one class that overrides the base false (FlagsByKind states it) |
| ArmOperandKind.IsAdd | chb/arm/ARMOperandKind.py:221-224 | args[1] is 1; SignedOffsetText and OffsetAddressSign state that the offset text carries "-" exactly when it is false |
| ArmOperandKind.IsWriteBack | chb/arm/ARMOperandKind.py:225-228 | args[2] is 1; OffsetAddressForm states that the text is post-indexed "[r], off" exactly when it holds without IsIndex, and pre-indexed "[r, off]!" exactly when it holds with IsIndex |
| ArmOperandKind.IsIndex | chb/arm/ARMOperandKind.py:229-232 | args[3] is 1; OffsetAddressForm states how it selects the addressing form together with IsWriteBack |
| ArmOperandKind.ToUnsignedInt | chb/arm/ARMOperandKind.py:259-260 | the immediate's value; ImmediateReadsBack states that an immediate written as n gives n |
| ArmOperandKind.ToSignedInt | chb/arm/ARMOperandKind.py:262-263 | the immediate's value, the same as the unsigned one; ImmediateReadsBack states that an immediate written as n gives n |
| ArmMemoryOffset.Offset | chb/arm/ARMMemoryOffset.py:92-126 | the offset is args[0] for an index offset and args[1] for a shifted index offset |
| ArmMemoryOffset.Text | chb/arm/ARMMemoryOffset.py:62-126 | as written: an index offset renders as the generic record text |
| ArmMemoryOffset.TextIntended | chb/arm/ARMMemoryOffset.py:92-101 | an index offset renders as its register; the others as written |
| ArmMemoryOffset.ImmOffsetReadsBack | chb/arm/ARMMemoryOffset.py:75-80 | "#" followed by hex text that reads back as the immediate |
| ArmMemoryOffset.ShiftedIndexOffsetTextInjective | chb/arm/ARMMemoryOffset.py:113-126 | two shifted index offsets render alike exactly when register and shift agree |
| ArmMemoryOffset.IndexOffsetDropsRegister | chb/arm/ARMMemoryOffset.py:100-101 | the index offset of r3 renders as the record text as written, and as "r3" as intended |
| ArmPush.FromRecord | chb/arm/opcodes/ARMPush.py:61 | a record is accepted exactly when it has 2 tags and 3 args |
| ArmPush.Operands | chb/arm/opcodes/ARMPush.py:63-65 | every argument but the last, decoded in order |
| ArmPush.OperandsOfConstructed | chb/arm/opcodes/ARMPush.py:61-65 | an accepted PUSH has exactly the stack pointer and the register list as operands |
| ArmPush.Assigns | chb/arm/opcodes/ARMPush.py:67-77 | one "v := x" per position, as many as the shorter list |
| ArmPush.Annotation | chb/arm/opcodes/ARMPush.py:67-77 | empty when either list is empty; otherwise it starts with the first assignment "v := x" |
| ArmPush.AnnotationFirstPair | chb/arm/opcodes/ARMPush.py:67-77 | the annotation is the first pair, then "; " and the rest |
| ArmPush.AnnotationCountsPairs | chb/arm/opcodes/ARMPush.py:67-77 | splitting the annotation at ";" gives one part per pair |
| NonRelationalValue.Bound | chb/invariants/NonRelationalValue.py:107-119 | -1 is no bound; any other index is the numerical at that index |
| NonRelationalValue.IntervalBounds | chb/invariants/NonRelationalValue.py:107-119 | an interval's bounds are absent exactly when args[0] or args[1] is -1 |
| NonRelationalValue.BaseOffsetBounds | chb/invariants/NonRelationalValue.py:173-185 | a base-offset value's bounds are absent exactly when args[1] or args[2] is -1 |
| NonRelationalValue.PredicatesNest | chb/invariants/NonRelationalValue.py:121-135 | a singleton is bounded, and bounded means bounded on both sides |
| NonRelationalValue.IsLowerBounded | chb/invariants/NonRelationalValue.py:125-127 | the lower bound is present (the base-offset value defines it alike at lines 191-193); PredicatesNest relates it to IsBounded |
| NonRelationalValue.IsUpperBounded | chb/invariants/NonRelationalValue.py:129-131 | the upper bound is present (alike at lines 195-197); PredicatesNest relates it to IsBounded |
| NonRelationalValue.IsBounded | chb/invariants/NonRelationalValue.py:121-123 | both bounds are present (alike at lines 187-189); PredicatesNest states it is exactly lower and upper bounded |
| NonRelationalValue.IsSingleton | chb/invariants/NonRelationalValue.py:133-135 | bounded with equal bounds (alike at lines 199-201); PredicatesNest states that a singleton is bounded with ub == lb |
| NonRelationalValue.Text | chb/invariants/NonRelationalValue.py:68-220 | each variant's text: a symbolic expression is the text of its expression argument, an interval the interval form, a base-offset value the base followed by its offset form |
| NonRelationalValue.BoundsSplit | chb/invariants/NonRelationalValue.py:137-148 | "lb;ub" splits at ";" into the two numbers |
| NonRelationalValue.BoundedTextReadsBack | chb/invariants/NonRelationalValue.py:137-148 | "[lb;ub]" reads back as both bounds |
| NonRelationalValue.LowerTextReadsBack | chb/invariants/NonRelationalValue.py:137-148 | "[lb; ->" reads back as a lower bound alone |
| NonRelationalValue.UpperTextReadsBack | chb/invariants/NonRelationalValue.py:137-148 | "<- ; ub]" reads back as an upper bound alone |
| NonRelationalValue.RangeTextReadsBack | chb/invariants/NonRelationalValue.py:137-148 | every bracket form reads back as its bounds |
| NonRelationalValue.IntervalTextReadsBack | chb/invariants/NonRelationalValue.py:137-148 | an interval's text, a hex singleton or a bracket form, reads back as its bounds |
| NonRelationalValue.SingleOffsetReadsBack | chb/invariants/NonRelationalValue.py:203-220 | a base with a single offset v, written "base + v", reads back as the bounds [v, v] |
| NonRelationalValue.RangeOffsetReadsBack | chb/invariants/NonRelationalValue.py:203-220 | a base with an offset range that is not a single value reads back as that range |
| NonRelationalValue.BaseOffsetTextReadsBack | chb/invariants/NonRelationalValue.py:203-220 | a base-offset text starts with the base and reads back as its bounds |
| NonRelationalValue.BaseOffsetPrefixesInterval | chb/invariants/NonRelationalValue.py:203-220 | outside the singleton case, the text is the base followed by the interval's text |
| DotCallgraph.ReachableStart | chb/graphics/DotCallgraph.py:98-101 | the start address is reachable |
| DotCallgraph.ReachableStep | chb/graphics/DotCallgraph.py:101-113 | a callee of a reachable node is reachable |
| DotCallgraph.ClosedHoldsReachable | chb/graphics/DotCallgraph.py:106-117 | a set with the start that holds every callee of its members holds every reachable node |
| DotCallgraph.Pass | chb/graphics/DotCallgraph.py:107-113 | one pass keeps the nodes, adds only reachable ones, and adds every callee of the nodes it started with |
| DotCallgraph.ReachableFromFixedPoint | chb/graphics/DotCallgraph.py:114-117 | when a pass adds nothing, the nodes are all the reachable ones |
| DotCallgraph.DotCallgraph.RestrictNodesFrom | chb/graphics/DotCallgraph.py:98-117 | a start missing from the edge list raises KeyError; otherwise the path nodes are exactly the nodes reachable from the start |
| DotCallgraph.AllNodes | chb/graphics/DotCallgraph.py:75-83 | the graph's nodes and every callee of them |
| DotCallgraph.DotCallgraph.CollectNodes | chb/graphics/DotCallgraph.py:75-83 | the nodes collected are AllNodes |
| DotCallgraph.PathUnion | chb/graphics/DotCallgraph.py:89-94 | a node is in the union exactly when it is in the base or on some path |
| DotCallgraph.DotCallgraph.RestrictNodes | chb/graphics/DotCallgraph.py:75-96 | as written: all nodes without a start or without sinks; with both, an AttributeError while the path nodes were never set |
| DotCallgraph.DotCallgraph.RestrictNodesIntended | chb/graphics/DotCallgraph.py:75-96 | the union of the paths to the first sink, or all nodes when that is empty |
| DotCallgraph.New | chb/graphics/DotCallgraph.py:39-61 | with a non-empty start and no sinks, construction succeeds exactly when the start is a node of the graph, and the path nodes are then exactly the nodes reachable from it; without a start, or with the empty start and no sinks, construction succeeds with all nodes; with a start and sinks it fails |
| DotCallgraph.DotCallgraph.NodeCalls | chb/graphics/DotCallgraph.py:119-122 | one add_node call exactly when the node is kept |
| DotCallgraph.DotCallgraph.EdgeCalls | chb/graphics/DotCallgraph.py:124-131 | an add_node and an add_edge exactly when the callee has a colour and both ends are kept |
| DotCallgraph.DotCallgraph.AddCgNode | chb/graphics/DotCallgraph.py:119-122 | the dot graph gains NodeCalls |
| DotCallgraph.DotCallgraph.AddCgEdge | chb/graphics/DotCallgraph.py:124-131 | the dot graph gains EdgeCalls |
| DotCallgraph.DotCallgraph.DrawAll | chb/graphics/DotCallgraph.py:65-72 | the dot graph gains the calls of every coloured node, in node order |
| DotCallgraph.DotCallgraph.Build | chb/graphics/DotCallgraph.py:62-73 | build always succeeds and draws every coloured node; without sinks the path nodes are unchanged; with sinks they become all nodes when there is no start address, and otherwise the earlier path nodes joined with the paths to the first sink, or all nodes when that union is empty |
| DotCallgraph.DotCallgraph.EdgesCallsKept | chb/graphics/DotCallgraph.py:124-131 | every node and edge drawn for one caller has kept, coloured endpoints |
| DotCallgraph.DotCallgraph.BuildCallsKept | chb/graphics/DotCallgraph.py:63-73 | every node and edge drawn has kept, coloured endpoints |

## Left out

- Logging of the simulator state is modelled as a list of strings. The simulator's own message formats beyond "facility: message" are not modelled.
- The simulator value classes (`SimValue`, `SimSymbol`, `SimAddress` and their arithmetic) are not part of this model. `sim_value.dfy` stands in for the parts the opcodes use.
- ELF parsing, the XML and dictionary loaders and all file I/O are not modelled. They are the parameters listed above.
- DotCallgraph: the `edges` dictionaries built in restrict_nodes and restrict_nodes_from are never read afterwards, so they are not modelled.
- DotCallgraph: the debug print of each path is not modelled.
- DotCallgraph: the dot graph's `rankdir`, and the edge count text that add_cg_edge builds but never passes on, are not modelled.
- DotCallgraph.New: the graph is required to list, for every node, its callees in both `edgelist` and `edges`. With a graph that does not, the code raises KeyError.
- The base class `SimMemory` is not part of this model; its `get` is the overlay stand-in named above.
- MipsState.MipsSimState.Rhs and MipsState.MipsSimState.MemVal: an opcode's memory operand reads the state's flat byte map, not the region objects. A global or base read there does not consult the patched globals, copy from the file image, log "uninitialized", record an access or raise "No value found"; those effects are modelled only on MipsMemory.GlobalMemory.Get.
- Base.ParseDecimal and Base.ParseHex: Python's `int` also accepts non-ASCII Unicode decimal digits (Arabic-Indic digits, for example); the parsers accept only ASCII digits.
- The `simulate` methods of SB, OR and BEQ follow the code as written. The corrected definitions stand beside them (see Findings).
- The opcodes' `target` properties return an operand. The model requires an absolute target, which the branch formats guarantee.

## Findings

| source | as written | input that shows it | evidently intended | confidence | as-written member | corrected member |
|---|---|---|---|---|---|---|
| chb/mips/opcodes/MIPSOr.py:138-148 | in the literal-or-symbol case the symbol's name is built from the second operand twice | 0x1 or'ed with symbol `s` is named "s \| s" | the symbol's name, then the literal's text: "s \| 0x1", as in the symbol-or-literal case | high (not executed) | MipsOr.OrResult | MipsOr.OrResultIntended |
| chb/mips/opcodes/MIPSBranchEqual.py:120-131 | the address-with-address test sits under a branch already taken by the address-with-anything test, so it is dead | an address compared with itself gives an undefined condition | equal addresses compare true | high (not executed) | MipsBeq.BeqCondition | MipsBeq.BeqConditionIntended |
| chb/mips/opcodes/MIPSBranchEqual.py:137-158 | some inner cases assign no condition, and the targets are read unassigned (UnboundLocalError) | a file pointer compared with the literal 1 | an undefined condition, reported as an unknown branch | high (not executed) | MipsBeq.FilePointerNonzeroUnassigned | MipsBeq.BeqConditionIntended |
| chb/mips/opcodes/MIPSStoreByte.py:109-115 | store byte reads the byte at offset(base) and assigns it to rt | SB a0, 0(sp) with 0x41 in a0 and a zero byte at 0(sp): a0 becomes 0, memory stays 0 | the low byte of rt is stored at offset(base) | medium (not executed) | MipsSb.AsWrittenScenario | MipsSb.IntendedScenario |
| chb/mips/simulation/MIPSimMemory.py:191-192 | has_buffersize compares buffersize with None, but buffersize raises when the size is unknown, so the answer is never false | a base region created with no buffer size | false when no buffer size is known | high (not executed) | MipsMemory.BaseMemory.HasBuffersize | MipsMemory.BaseMemory.HasBuffersizeIntended |
| chb/arm/ARMMemoryOffset.py:100-101 | the index offset's rendering method is named `__str`, so Python never calls it and prints the generic record text | the index offset of register r3 | "r3" | medium (not executed) | ArmMemoryOffset.Text | ArmMemoryOffset.TextIntended |
| chb/graphics/DotCallgraph.py:92-93 | the constructor sets `_pathnodes` (line 56), but restrict_nodes reads `pathnodes`, which no one has set yet | a renderer created with a start address and one sink | start from the empty set and take the union of the paths | high (not executed) | DotCallgraph.DotCallgraph.RestrictNodes | DotCallgraph.DotCallgraph.RestrictNodesIntended |
