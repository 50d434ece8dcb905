# Riscy, verified: from RV64I words to emitted A64 blocks

Riscy translates RV64I programs to A64 ahead of time: it decodes words, builds a control-flow
graph, lifts each block to a block-local SSA form, selects A64 instructions over virtual
registers, assigns physical registers by linear scan, and emits labelled blocks with address
tables. This project models each of these stages, gives each level a meaning, and proves that
every stage keeps the meaning of the one before it, up to the whole run of a program.

`dafny verify dfyconfig.toml` checks everything.

## Levels and files

| level | code | meaning | theorems |
|---|---|---|---|
| words | `Words` | plain arithmetic on integers, bits and bytes | `WordLaws` |
| RV64I | `Riscv`, `Decoder` | `Riscv.Exec`, `Reference.Step` (fetch, decode, execute) | `IsaLaws`, `Decoder`, `DecoderInverse`, `KnownWords`, `Manual`, `ManualMachine`, `Reference` |
| graph | `Cfg` | the reference machine, block by block | `CfgTheorems`, `Terminators` |
| SSA | `Lifter` | `IR.Step`, typed values, stuck on ill-typed operands | `LifterTheorems`, `LifterExact`, `LiftBlock` |
| A64, virtual | `ISel` | `AArch64.Exec` | `ISelTheorems`, `ISelBlock`, `SelectedCode` |
| A64, physical | `Liveness`, `RegAlloc`, `Emitter` | `AArch64.Exec`, `Emitter.RunLines` | `RegAllocTheorems`, `AllocSim`, `Pressure`, `BlockTheorems` |
| the sentinel | `Liveness`, `RegAlloc` | `Misread.SteppedMisread` | `Sentinel`, `Misread`, `MisreadCode`, `MisreadAlloc`, `MisreadTheorems`, `MisreadExact`, `Sensitivity`, `AsWritten` |
| indirect jumps | `Lifter`, `RegAlloc` | `Indirect.TrueTarget` | `Indirect`, `IndirectOrders`, `IndirectAsWritten` |
| program | `Pipeline`, `Orders`, `Runtime`, `Labels` | `Runtime.RunBlocks` | `PipelineTheorems` |

Loops of the source are methods with the source's loops, each proved equal to a specification
function (`Lift` to `Lifted`, `Select` to `Selected`, `Analyze` to `Analyzed`, `Allocate` to
`Allocated`, `Emit` to `Emitted`) or to a predicate that fixes its result (`Build` to `ValidCfg`);
the theorems are about those.

## Main results

* **End to end.** For every code memory, entry, guest with x0 = 0 and host state that shows it, the
  emitted program, entered through the trampoline and the runtime's table search, agrees at every
  block boundary on all guest registers and memory, and on the place or the reason to stop (trap,
  return, indirect jump), with a machine that depends on what is asked. With the presence test
  described below, for every program, it is the machine whose instructions do what they do when
  lifted (`PipelineTheorems.EndToEndLifted`; `LiftBlock.LiftMeans` for one block). The other results
  are for programs each of whose instructions is `Faithful` (it has a lowering, or only writes x0;
  AUIPC stands first in its block). With the analysis as written and any orders of its intervals it agrees with a machine that does
  each block, or the block with its first lifted instruction misread, according to the registers of
  two values (`PipelineTheorems.EndToEndAsWritten`). With the presence test, or as
  written for programs none of whose blocks misreads, it agrees with the reference machine
  (`EndToEnd`, `StopsWithReference`, `ReferenceStopsToo`), and with a machine that follows the manual
  (`EndToEndManual`). `Pipeline.TranslateProgram` goes from code memory to the module and establishes
  everything else.
* **What the machines compute.** All levels share the functions on words, so their agreement says
  nothing about those. `WordLaws` and `IsaLaws` state in plain arithmetic what each of them, and each
  decoded instruction, does (`IsaLaws.InstructionsMean`, `BranchesMean`, `JumpsMean`); `Terminators`
  tells from the bits of a word how it ends a block, stops the reference machine and ends the emitted
  lines; `KnownWords` reads a word of the manual for every instruction.
* **Which register.** `RegAllocTheorems.ActiveInOrder`, `FreedInOrder`, `TakesLast` and `TakesOver` fix
  the assignment: an item takes over the register of the last interval, in start order, that was
  still held and has ended; otherwise the register at the end of the pool.
* **No abort.** On its own blocks the allocator never runs out (at most four of 25 registers are
  occupied, for blocks of any length and both forms of the analysis), and the emitter finds every
  register (`Pressure.PipelineNeverRunsOut`, `Pipeline.Translate`).

## What the code does not meet, and exactly when it does

* **Lifting.** `LifterExact.LiftingIsExact`: an instruction is lifted correctly for every state if
  and only if it is `Faithful`; for every other one there is a guest on which its IR goes wrong.
  `LifterTheorems.UnfaithfulDoesNothing`: all of these leave the state as it is and define no value,
  except AUIPC, which adds its immediate to the start of its block.
* **Liveness.** The analysis takes the interval 0..0 for "not seen yet", so that the interval of the
  register of position 0 starts at its second position. `MisreadTheorems.EitherWay`: for every order
  of the intervals, the emitted block does what the block does, or what it does when its first
  lifted instruction reads its second operand twice, according to whether the first two values share
  a register; `ClashExists`: if the first lifted instruction has two operands, some order makes them
  share. `AsWritten.RightExactly`: the block is right for every order and guest if and only if that
  misreading makes no difference to it on any guest. From the guest code alone
  (`AsWritten.MisreadsExactly`): it is right if the first lifted instruction is not `Sensitive`; and
  when no later instruction of the block overwrites its result, only then. `Sensitive` is told from
  opcode, registers and immediate, and `Sensitivity.SensitiveExactly` proves it exact for the
  instruction. The proviso is needed: in `AsWritten.MisreadMayNotShow` a sensitive ADD is misread and
  its result overwritten, and the block is right. `AsWritten.FirstBranchIsConstant`: a block whose
  first lifted instruction is a branch goes the same way for every order and every guest. The
  condition `Sentinel.Outlived` is about intervals and is sufficient only.
* **Decoding.** SRLI and SRAI with amounts of 32 to 63 are instructions of RV64I which the decoder
  rejects, and it accepts some words that are no RV64I instruction. `Manual.ManualDecodes`: an
  instruction of the manual is read back from each of its encodings unless it is such a shift, and
  then the word is rejected. `Manual.DecodersAgreeExactly`: the decoder reads a word as the manual
  does if and only if it is no such shift and, when it accepts it, the fields it does not look at are
  legal.
* **Indirect jumps.** `IndirectAsWritten.ArrivesAsWritten`: with the analysis as written, for every
  order of the intervals, x1 holds the address of the next instruction when no link register is
  written; otherwise the first operand that the block's first lifted instruction has at block start,
  or its second one, or its result when misread, according to the registers of three values.
  `IndirectAsWritten.DispatchesExactly`: x1 is the target RISC-V computes for every order if and only
  if each value that can arrive is. `LoneExactlyAsWritten`: a block that is one JALR dispatches
  rightly for every guest and order if and only if its base is x0 and, with a link register, its
  offset is 0 or, without, the masked offset is the address of the next instruction. The
  corresponding results for assignments that keep registers apart are `Indirect.ApartDispatch`,
  `ApartIndirectExactly` and `ApartLoneExactly`.
* **Misaligned targets.** In RV64I a jump to a target that is not aligned to four bytes traps on the
  jump, which writes nothing (section 2.5). The translated code, and the reference machine with it,
  writes the link register first and traps at the target. `ManualMachine.StraysExactly`: an
  instruction at an aligned address steps as the manual says for every guest if and only if it is no
  JAL with a link register whose immediate has bit 1 set, and no JALR except one with base x0 and an
  aligned target. Branches and JAL without a link register only trap one step later.

## Modelling decisions

* Words are integers below 2^64 with the wrap-around written out; the decoder works on bit-vectors.
* Code memory is a finite map from addresses to words, fixed during a run: a failed `read32` is a
  missing key. Building the graph ends when the entry is misaligned and for every code memory with a
  barrier, an aligned address that is unmapped, undecodable or a terminator; every code memory of
  fewer than 2^62 words has one. Otherwise no graph exists (`CfgTheorems.GraphNeedsBarrier`), and the
  source's walk does not end either.
* The source returns a decoded instruction through out-parameters and flags; here the decoder
  returns a result. The raw word is not kept in it.
* The presence test. `Liveness.Analyzed` and `Liveness.Analyze` are the code as it is.
  `Liveness.ExactLive` puts absence from the map in place of the interval 0..0; it is not in the
  source, and its intervals run from first to last touch (`Liveness.ExactLiveIsExact`).
  `Pipeline.Translate` takes either.
* `std::sort` is not stable and the live map has no order: allocator theorems hold for every
  sequence that lists the map with ascending starts (`RegAlloc.IsSorting`).
* A64 semantics follow section C6.2 of the Arm Architecture Reference Manual (DDI 0487). RV64I
  semantics follow sections 2.2 to 2.8 and 5.2 to 5.3 of the RISC-V Instruction Set Manual,
  Volume I (20191213), except that the reference machine reads words with the translator's decoder
  and traps at a misaligned target instead of on the jump; the machine of the manual differs from it
  in these two points only, and where that shows is stated above.
* The repository's README says that the translator handles RV64I with its 32-bit operations and
  keeps program semantics. The code lifts a part of it and drops the rest; the model follows the
  code.

## Model

| member | source | states |
|---|---|---|
| `Decoder.DecodeInvertsEncode` | src/RISCV/Decoder.cpp:28-358 | every instruction the decoder can return (U, I, S, B, J, R formats; even B and J offsets; SLLI to 63, SRLI, SRAI and W shifts to 31) is read back from its encoding unchanged |
| `DecoderInverse.EncodeInvertsDecode` | src/RISCV/Decoder.cpp:28-358 | re-encoding a decoded word gives the word back if and only if the fields the decoder does not check are canonical; for U, J, B, S, load and non-shift immediate words it always does |
| `DecoderInverse.DecodedIsEncodable` | src/RISCV/Decoder.cpp:28-358 | whatever is accepted has its format's operand shape and immediate range |
| `DecoderInverse.DecodeIsWellFormed` | src/RISCV/Decoder.cpp:11-28 | the same for a fetch at any address that succeeds |
| `Manual.ManualDecodes` | src/RISCV/Decoder.cpp:28-358 | every RV64I instruction of the manual, with SRLI and SRAI to 63 and FENCE with any ordering sets, is read back from each of its words, except that right shifts by more than 31 are rejected |
| `Manual.ManualIsUnique` | src/RISCV/Decoder.cpp:28-358 | a word encodes at most one instruction of the manual |
| `Manual.AcceptedExactly` | src/RISCV/Decoder.cpp:28-358 | the accepted words with legal unread fields are exactly the manual's words other than right shifts by more than 31 |
| `Manual.AcceptedWhenCleared` | src/RISCV/Decoder.cpp:28-358 | a word is accepted if and only if, with the bits the decoder does not look at cleared, it is such a word of the manual, and it is then read as the instruction of that word |
| `Manual.ClearedDecodes` | src/RISCV/Decoder.cpp:53-358 | clearing the bits the decoder does not look at changes nothing in its answer, for accepted and rejected words: funct7 1 is read as funct7 0 |
| `Manual.FailureIsExact` | src/RISCV/Decoder.cpp:13-28 | exactly when a fetch fails with each of the three errors |
| `Manual.LongShiftIsInvalid` | src/RISCV/Decoder.cpp:211-229 | every SRLI and SRAI word with an amount above 31 is rejected |
| `Manual.DecodersAgreeExactly` | src/RISCV/Decoder.cpp:28-358 | the decoder reads a word as the manual does if and only if it is no right shift by more than 31 and, if accepted, its unread fields are legal |
| `ManualMachine.StraysExactly` | src/RISCV/Lifter.cpp:399-421 | an instruction at an aligned address steps as the manual says for every guest if and only if it is no JAL with a link register and a misaligned target, and no JALR other than from x0 to an aligned one |
| `ManualMachine.RunMatches` | src/RISCV/CFG.cpp:85-125 | as long as fetched words are read as the manual does and no jump strays, the manual's machine runs as the reference machine, up to the one step by which it traps earlier on misaligned targets |
| `KnownWords.UpperWords` | src/RISCV/Decoder.cpp:30-60 | words of LUI, AUIPC, JAL, JALR and `ret` are read as these instructions with their registers and signed immediates |
| `KnownWords.BranchWords` | src/RISCV/Decoder.cpp:61-93 | so are words of the six branches |
| `KnownWords.LoadWords` | src/RISCV/Decoder.cpp:95-128 | and of the seven loads |
| `KnownWords.StoreWords` | src/RISCV/Decoder.cpp:129-152 | and of the four stores |
| `KnownWords.ImmediateWords` | src/RISCV/Decoder.cpp:153-203 | and of the operations with an immediate |
| `KnownWords.ShiftWords` | src/RISCV/Decoder.cpp:204-281 | and of the shifts by an immediate, and the W forms |
| `KnownWords.RegisterWords` | src/RISCV/Decoder.cpp:282-316 | and of those on two registers |
| `KnownWords.BitwiseWords` | src/RISCV/Decoder.cpp:282-316 | the bitwise operations and right shifts among them |
| `KnownWords.WordWords` | src/RISCV/Decoder.cpp:317-336 | and of the W operations on two registers |
| `KnownWords.SystemWords` | src/RISCV/Decoder.cpp:337-353 | and of FENCE, ECALL and EBREAK |
| `WordLaws.SignExtends` | src/RISCV/Lifter.cpp:129-143 | sign extension from 32 bits keeps the signed value, and its low half is the word |
| `WordLaws.SumRepresents` | src/RISCV/Lifter.cpp:119-178 | sums and differences of words are those of the numbers modulo 2^64 |
| `WordLaws.ShlMultiplies` | src/RISCV/Lifter.cpp:240-278 | a left shift multiplies by a power of two, modulo 2^64 |
| `WordLaws.ShrDivides` | src/RISCV/Lifter.cpp:250-288 | a logical right shift divides by a power of two |
| `WordLaws.SarDivides` | src/RISCV/Lifter.cpp:260-298 | an arithmetic right shift divides the signed value, rounding down |
| `WordLaws.BitwiseBits` | src/RISCV/Lifter.cpp:180-238 | AND, OR and XOR at each of the 64 bits |
| `WordLaws.LoadTakesBytes` | src/RISCV/Lifter.cpp:300-333 | a load takes the byte at address a + i as its i-th lowest byte |
| `WordLaws.LoadAfterStore` | src/RISCV/Lifter.cpp:335-350 | a load after a store of that size at the same address returns the low bytes stored |
| `IsaLaws.InstructionsMean` | src/RISCV/Lifter.cpp:117-430 | what each decoded instruction does to registers and memory, in plain arithmetic: only its destination or its bytes change, and hold the stated number |
| `IsaLaws.SumsAreSigned` | src/RISCV/Lifter.cpp:129-168 | ADDIW and ADDW leave the signed 32-bit sum in their register |
| `IsaLaws.WordsAreSigned` | src/RISCV/Lifter.cpp:300-313 | LW leaves the signed 32-bit little-endian word at its address in its register |
| `IsaLaws.BranchesMean` | src/RISCV/Lifter.cpp:351-388 | when each branch is taken, signed and unsigned |
| `IsaLaws.JumpsMean` | src/RISCV/Lifter.cpp:399-421 | where the program counter goes after each instruction; JALR clears the low bit of its sum |
| `Decoder.FieldsOfJ` | src/RISCV/Decoder.cpp:42-52 | the scattered J immediate is put together again, with its sign |
| `Decoder.FieldsOfB` | src/RISCV/Decoder.cpp:61-93 | the scattered B immediate is put together again, with its sign |
| `Cfg.BuildBlock` | src/RISCV/CFG.cpp:74-126 | the walk ends, also from a misaligned start, and yields exactly the decoded instructions up to the first terminator, other known leader or decode failure, with that end's kind and successors |
| `Cfg.Enqueue` | src/RISCV/CFG.cpp:62-66 | an address enters the queue only the first time it becomes a leader |
| `Cfg.Build` | src/RISCV/CFG.cpp:52-133 | building ends, for a misaligned entry or any code memory with a barrier; block i starts at the i-th leader seen and was walked against the leaders known then; the index is a bijection with the blocks |
| `Cfg.NotBuiltYet` | src/RISCV/CFG.cpp:69-72 | the queue never holds a built address: the skip never fires |
| `Cfg.SuccsAreCandidates` | src/RISCV/CFG.cpp:94-112 | new block starts come from a finite set fixed by the code memory |
| `CfgTheorems.SuccessorsAreKeys` | src/RISCV/CFG.cpp:57-130 | keys are exactly the leaders, the entry and every successor are keys, starts are distinct |
| `CfgTheorems.KeysAreLeast` | src/RISCV/CFG.cpp:57-130 | the keys are closed under successors and contained in every such set with the entry: each key is reachable |
| `CfgTheorems.KeysAreLeastByFlow` | src/RISCV/CFG.cpp:57-130 | the keys are the least set with the entry and, for each member, every address where the reference machine may go from the branch or JAL that ends the straight walk from it: independent of building order and splits |
| `CfgTheorems.ExecutionGoes` | src/RISCV/CFG.cpp:94-125 | the reference machine goes on at the next address after a straight instruction, where a branch or JAL may go after one of these, and stops otherwise |
| `CfgTheorems.SuccessorsMean` | src/RISCV/CFG.cpp:77-125 | the successors of a block by its kind: target and next address of its branch in this order, where its JAL goes, the leader it was split at, and none for an indirect jump, a return or a trap |
| `Cfg.AddNewInOrder` | src/RISCV/CFG.cpp:62-66 | new leaders are queued in the order in which successors name them |
| `Terminators.BlockByWords` | src/RISCV/CFG.cpp:11-50 | from the bits of the words walked over: no word before the last ends a block; Return means the last is 0x00008067 up to funct3, IndirectJump any other word with opcode 0x67, Trap ECALL, EBREAK or bad code next, and so on for branches, JAL and splits |
| `Terminators.ExecuteByWord` | src/RISCV/CFG.cpp:27-45 | the reference machine stops for return, indirect jump or trap exactly on such words |
| `CfgTheorems.SmallCodeHasBarrier` | src/RISCV/CFG.cpp:77-92 | a code memory of fewer than 2^62 words has a barrier, so building ends |
| `CfgTheorems.GraphNeedsBarrier` | src/RISCV/CFG.cpp:77-92 | a graph exists only for a misaligned entry or a code memory with a barrier |
| `CfgTheorems.InteriorIsNotEarlier` | src/RISCV/CFG.cpp:77-83 | no block runs over the start of an earlier one |
| `CfgTheorems.SharedAddress` | src/RISCV/CFG.cpp:77-83 | of two blocks that share an address, the one that starts later was built later and is a prefix of the other's suffix |
| `CfgTheorems.BlockRuns` | src/RISCV/CFG.cpp:68-130 | a block is exactly what fetch, decode and step do from its start, for branches, jumps, splits, traps, undecodable and misaligned ends |
| `Lifter.Lift` | src/RISCV/Lifter.cpp:75-489 | the loop computes the specified IR block, whose values and effects `LiftBlock.LiftMeans` states |
| `Lifter.FindLastICmp` | src/RISCV/Lifter.cpp:436-443 | the backward search returns the value of the comparison that no other follows, 0 when there is none |
| `Lifter.LiftInstIsLocal` | src/RISCV/Lifter.cpp:79-430 | an expansion has at most seven instructions, names results by index and reads only its own earlier results |
| `Lifter.OperandsInOrder` | src/RISCV/Lifter.cpp:79-430 | an operation reads the two values before it in the order of their definition, and a store writes the second through the first |
| `Lifter.LiftIsSsa` | src/RISCV/Lifter.cpp:13-15 | every lifted block is in single-assignment form: destination equals index, operands are earlier results |
| `LifterTheorems.FaithfulSimulates` | src/RISCV/Lifter.cpp:117-430 | the IR of a faithful instruction does not get stuck and has exactly its RV64I effect, from any state with x0 = 0 |
| `LifterTheorems.LiftedRuns` | src/RISCV/Lifter.cpp:117-430 | for every decoded instruction and state with x0 = 0: each value its IR defines, in order, the discarded results of writes to x0 and the masked target of JALR included, and its effect |
| `LifterTheorems.UnfaithfulDoesNothing` | src/RISCV/Lifter.cpp:390-430 | an instruction that is not faithful leaves every state as it is and defines no value; AUIPC gives its register the block start plus its immediate |
| `LifterExact.LiftingIsExact` | src/RISCV/Lifter.cpp:117-430 | an instruction is lifted correctly for all states if and only if it is faithful; LUI, SLT*, byte and half memory operations, W shifts, SUBW with a destination, and AUIPC after the first instruction, all go wrong |
| `LiftBlock.LiftMeans` | src/RISCV/Lifter.cpp:75-489 | the IR of any block of the graph, faithful or not, runs to its end with these values and effects, and leaves where the block's last instruction goes on those registers |
| `LiftBlock.LiftPreservesMeaning` | src/RISCV/Lifter.cpp:75-489 | running the IR of a block of faithful instructions gives the registers, memory and next program counter of stepping its instructions |
| `LiftBlock.BranchCondition` | src/RISCV/Lifter.cpp:434-451 | the condition found is the truth value of the block's own branch, on the registers at its end |
| `LiftBlock.LiftSparesX0` | src/RISCV/Lifter.cpp:84-87 | no lifted instruction writes x0 |
| `Indirect.DispatchedValue` | src/RISCV/Lifter.cpp:459-468 | the value a lifted indirect jump names is the return address (rd = x0) or the first operand, at block start, of the first lifted instruction |
| `Indirect.ApartDispatch` | src/AArch64/Emitter.cpp:222-228 | for assignments that keep registers apart, as with the presence test, the emitted block calls the dispatcher with that value in x1 |
| `Indirect.ApartIndirectExactly` | src/RISCV/Lifter.cpp:406-421 | for such assignments the value in x1 is the masked sum if and only if the stated guest condition holds |
| `Indirect.ApartLoneExactly` | src/RISCV/Lifter.cpp:459-468 | for such assignments a lone JALR dispatches to its target for every guest if and only if its base is x0 and its offset fits; otherwise some guest goes wrong |
| `IndirectAsWritten.ArrivesAsWritten` | src/RISCV/Lifter.cpp:459-468 | with the analysis as written, for every order, guest and host state, the emitted block calls the dispatcher and x1 holds one of four stated values, by link register, first lifted instruction and registers of three values |
| `IndirectAsWritten.DispatchesExactly` | src/AArch64/Liveness.cpp:9-12 | with the analysis as written x1 is the target for every order if and only if every value that can arrive, told in guest terms, is the target |
| `IndirectAsWritten.LoneExactlyAsWritten` | src/RISCV/Lifter.cpp:406-421 | over the emitted lines, a lone JALR dispatches to its target for every guest and order if and only if its base is x0 and its offset is 0 (with a link register) or masks to the next address (without) |
| `IndirectAsWritten.OrderMatters` | src/AArch64/RegAlloc.cpp:13-19 | with the analysis as written two orders of one block's intervals give different assignments |
| `AArch64.ConditionsMean` | src/AArch64/ISel.cpp:126-157 | after CMP each condition code holds exactly when its relation does, signed and unsigned |
| `ISel.VRegOf` | src/AArch64/ISel.cpp:26-32 | looking up a value id gives the id plus one and grows the map to hold it |
| `ISel.FreshReg` | src/AArch64/ISel.cpp:194-195 | an address register is the next index of the map plus one |
| `ISel.Select` | src/AArch64/ISel.cpp:20-297 | the loop over the mutable value map computes the specified block |
| `ISelTheorems.ConstIsBuilt` | src/AArch64/ISel.cpp:40-57 | MOV, or MOVZ and a MOVK for each non-zero field, leaves exactly the 64-bit constant and touches nothing else |
| `ISelTheorems.ConstIsShort` | src/AArch64/ISel.cpp:40-57 | that sequence is MOV alone below 2^16, and otherwise MOVZ and exactly one MOVK for each further field that is not zero |
| `ISelTheorems.ConversionRuns` | src/AArch64/ISel.cpp:159-186 | what the code of a conversion leaves for any contents of the source register: an extension of its low half to 64 bits, a copy otherwise |
| `ISelTheorems.NoResultNoCode` | src/AArch64/ISel.cpp:34-257 | an instruction without a result has no code, unless it writes a register or memory or compares |
| `ISelTheorems.CompareAgrees` | src/AArch64/ISel.cpp:120-158 | CMP and the chosen CSET compute the IR comparison |
| `ISelTheorems.HostAddress` | src/AArch64/ISel.cpp:191-219 | base + x21 + cast offset is the host place of the guest address if and only if the offset survives the cast to 32 bits |
| `ISelTheorems.InstFollows` | src/AArch64/ISel.cpp:34-257 | one IR instruction and its code keep the relation "the low w bits of a register are the w-bit value", for every payload |
| `ISelBlock.SelectionPreservesMeaning` | src/AArch64/ISel.cpp:20-297 | a selected block ends with the guest registers and memory of its IR and leaves by the same way |
| `SelectedCode.SelectIsOk` | src/AArch64/ISel.cpp:24-32 | code selected from single-assignment IR defines every register before using it and takes one fresh register for each memory access |
| `SelectedCode.SelectedDefinesFirst` | src/AArch64/ISel.cpp:260-284 | the same with the terminator's register |
| `SelectedCode.AddressRegistersAreFresh` | src/AArch64/ISel.cpp:224-226 | the map sizes at memory accesses, whose registers hold their addresses, differ from each other and from all value indices |
| `SelectedCode.AccessGoesThroughFresh` | src/AArch64/ISel.cpp:187-250 | the code of each memory access adds x21 to its base into that fresh register and loads or stores through it |
| `SelectedCode.FirstTouchDefines` | src/AArch64/Liveness.cpp:7-48 | the exact interval of a register of such a block starts at the instruction that defines it |
| `SelectedCode.StartsAreDistinct` | src/AArch64/RegAlloc.cpp:13-19 | with the presence test, whose intervals run from first to last touch, starts are pairwise distinct |
| `SelectedCode.AssignmentIsDetermined` | src/AArch64/RegAlloc.cpp:13-19 | with the presence test the assignment is the same for every map order and every sort |
| `Liveness.Analyze` | src/AArch64/Liveness.cpp:5-49 | the loop over positions and operands computes the specified intervals |
| `Liveness.AnalyzeIsExact` | src/AArch64/Liveness.cpp:7-48 | exactly the touched registers have an interval, from first to last touch, except that a register of position 0 touched again starts at its second position |
| `Liveness.CoversExactly` | src/AArch64/Liveness.cpp:9-12 | the intervals cover all touches if and only if no register of position 0 is touched later |
| `Sentinel.AnalysisSeparatesExactly` | src/AArch64/Liveness.cpp:9-12 | the intervals of the analysis keep apart all registers that meet if and only if those that meet the register of position 0 are touched after its next touch |
| `Misread.TwistedMeansMisread` | src/RISCV/Lifter.cpp:117-430 | IR whose third value reads value 1 twice does what stepping the block does with its first lifted instruction misread |
| `MisreadExact.OtherIsOutlived` | src/AArch64/Liveness.cpp:9-12 | blocks that begin with a load, a store, a JAL or nothing keep their registers apart |
| `MisreadTheorems.EitherWay` | src/AArch64/RegAlloc.cpp:50-65 | for every order of the analysed intervals the emitted block agrees with the block or with the block misread, according to the registers of its first two values |
| `MisreadTheorems.ClashExists` | src/AArch64/RegAlloc.cpp:17-19 | if the first lifted instruction has two operands some order gives them one register |
| `Sensitivity.SensitiveExactly` | src/RISCV/Lifter.cpp:117-398 | the instructions that can tell, on some guest, that their second operand is read twice are those a stated test of opcode, registers and immediate accepts |
| `AsWritten.RightExactly` | src/AArch64/Liveness.cpp:9-12 | with the analysis as written a block is right for every order and guest if and only if the misreading makes no difference to it on any guest |
| `AsWritten.MisreadsExactly` | src/AArch64/Liveness.cpp:9-12 | a block whose first lifted instruction is not sensitive is right; when its result is not overwritten in the block, only such a block is |
| `AsWritten.FirstBranchIsConstant` | src/AArch64/Liveness.cpp:9-12 | a block whose first lifted instruction is a branch always goes the same way, for every order, guest and host state |
| `AsWritten.MisreadMayNotShow` | src/AArch64/Liveness.cpp:9-12 | a block with a sensitive first instruction can be right for every order and guest, when the result is overwritten |
| `AsWritten.AgreesAsWritten` | src/AArch64/Emitter.cpp:68-235 | with any assignment of the analysis as written, a whole emitted block agrees with the block, or with the block misread when it begins with an operation and its first two values share a register |
| `RegAlloc.Expire` | src/AArch64/RegAlloc.cpp:34-48 | the ended intervals' registers join the end of the pool and the others stay active, in the orders that `FreedInOrder` and `KeptInOrder` state |
| `RegAllocTheorems.FreedInOrder` | src/AArch64/RegAlloc.cpp:36-47 | the registers freed are those at an increasing list of positions of the active list, which are exactly the ended ones |
| `RegAllocTheorems.KeptInOrder` | src/AArch64/RegAlloc.cpp:36-45 | the entries kept are those at an increasing list of positions, exactly the ones that have not ended |
| `RegAllocTheorems.TakesLast` | src/AArch64/RegAlloc.cpp:50-65 | each item takes the register of the last entry of the active list that has ended, or that at the end of the pool when none has; pool and active list after it |
| `RegAllocTheorems.ActiveInOrder` | src/AArch64/RegAlloc.cpp:34-65 | after any items the active list holds, in their order, exactly those that had not ended when the last one started, each with the register it was given |
| `RegAllocTheorems.TakesOver` | src/AArch64/RegAlloc.cpp:34-65 | an item takes over the register of the last item before it that was still held and has ended when it starts |
| `RegAlloc.Allocate` | src/AArch64/RegAlloc.cpp:50-66 | the scan over the mutable pool and active list computes the specified outcome, the abort included; the register each item gets is stated by `TakesLast` and `TakesOver` |
| `RegAllocTheorems.PoolIsConserved` | src/AArch64/RegAlloc.cpp:25-65 | after every step pool and active registers are together a permutation of the initial 25 |
| `RegAllocTheorems.PoolHasNoRepeats` | src/AArch64/RegAlloc.cpp:25-26 | the pool names no register twice and none of x0, x1, x19, x21, x29, x30 |
| `RegAllocTheorems.AssignedFromPool` | src/AArch64/RegAlloc.cpp:60-62 | every listed register gets an entry, and every entry is in the pool |
| `RegAllocTheorems.ActiveIsAlive` | src/AArch64/RegAlloc.cpp:34-48 | the active list shows exactly the earlier intervals that have not ended |
| `RegAllocTheorems.NoInterference` | src/AArch64/RegAlloc.cpp:34-65 | registers whose intervals meet get different physical registers, for every live map and tie order |
| `RegAllocTheorems.AllocatesExactly` | src/AArch64/RegAlloc.cpp:50-58 | allocation completes if and only if never 25 earlier intervals are alive at a start |
| `RegAllocTheorems.SortingIsUnique` | src/AArch64/RegAlloc.cpp:17-19 | with distinct starts there is one sorting only |
| `AllocSim.StepAlong` | src/AArch64/Emitter.cpp:71-205 | one rewritten instruction keeps physical and virtual machine in step, also when it writes to a register whose interval ends there |
| `AllocSim.AllocationPreservesMeaning` | src/AArch64/Emitter.cpp:71-233 | for any block that defines before use and any live map that separates its registers, physical code has the slots, memory and way out of virtual code |
| `AllocSim.CoveringSeparates` | src/AArch64/RegAlloc.cpp:34-48 | every live map that covers all touches separates, however long its intervals |
| `AllocSim.EmitterNeverAborts` | src/AArch64/Emitter.cpp:16-24 | every register the emitter looks up has an assignment |
| `Pressure.LiftedIsNear` | src/RISCV/Lifter.cpp:117-430 | a lifted instruction reads only the two values before it |
| `Pressure.AtMostFour` | src/AArch64/RegAlloc.cpp:50-65 | at every item at most four registers are occupied, the one it takes included |
| `Pressure.PipelineNeverRunsOut` | src/AArch64/RegAlloc.cpp:50-58 | the out-of-registers abort is unreachable on lifted blocks, with either analysis |
| `Emitter.EmitInstr` | src/AArch64/Emitter.cpp:71-205 | an instruction is rewritten register by register, or aborts exactly when one of them has no assignment |
| `Emitter.EmitBlock` | src/AArch64/Emitter.cpp:68-235 | prologue, body and terminator lines, or the abort |
| `Emitter.Emit` | src/AArch64/Emitter.cpp:34-240 | tables and blocks in the given order; it aborts exactly when a block has an unassigned register |
| `Terminators.LinesEnd` | src/AArch64/Emitter.cpp:207-235 | the emitted lines of a block leave it at their end only: RET, BRK, the dispatcher call or a jump to the last successor, after CMP and a branch to the first for a conditional branch |
| `Terminators.LinesByWords` | src/AArch64/Emitter.cpp:207-235 | the last line is RET exactly when the last word is `ret`, the dispatcher call exactly for other words with opcode 0x67, BRK exactly for ECALL, EBREAK and bad code |
| `Labels.LabelReadsBack` | src/AArch64/Emitter.cpp:7-11 | a label is the prefix and the address in lower-case hexadecimal without leading zeros |
| `Labels.LabelInjective` | src/AArch64/Emitter.cpp:7-11 | different addresses have different labels |
| `Runtime.FindBlock` | src/runtime/runtime.c:9-14 | the search returns the first index with the address, -1 exactly when there is none |
| `Orders.SortAddresses` | tools/riscy.cpp:60-64 | the block addresses in strictly increasing order, all of them and no other |
| `Orders.AddressOrderIsUnique` | tools/riscy.cpp:60-64 | that order is determined by the set of keys |
| `Orders.SortItems` | src/AArch64/RegAlloc.cpp:13-19 | the intervals of the map by ascending start |
| `Pipeline.Translate` | tools/riscy.cpp:80-111 | the driver reaches no abort and emits every block in address order; each assignment is the allocator's, from the analysis as written in some order or from the presence test, names only pool registers and covers the block; it is sound with the presence test, or when no block misreads |
| `Pipeline.TranslateProgram` | tools/riscy.cpp:56-111 | for a misaligned entry or any code memory with a barrier, building and translating gives a valid graph, its module and such assignments |
| `BlockTheorems.BlockAgreesLifted` | src/AArch64/Emitter.cpp:68-235 | with assignments that keep registers apart, any emitted block of the graph, faithful or not, agrees with its lifted instructions and the way it is left on their registers |
| `BlockTheorems.BlockAgrees` | src/AArch64/Emitter.cpp:68-235 | with assignments that keep registers apart, a whole emitted block of faithful instructions, prologue included, agrees with the reference machine after the block's steps |
| `PipelineTheorems.OneBlock` | src/AArch64/Emitter.cpp:64-237 | with sound assignments the reference machine makes progress from one block boundary to the next and agreement is kept |
| `PipelineTheorems.EntersAtEntry` | src/runtime/runtime.c:16-26 | the entry trampoline finds the entry block in the tables |
| `PipelineTheorems.EndToEnd` | tools/riscy.cpp:80-108 | with sound assignments, after any number of blocks the translated program agrees with the reference machine on registers, memory and place |
| `PipelineTheorems.EndToEndManual` | tools/riscy.cpp:80-108 | the same against a machine that follows the manual, as long as it fetches only words the decoder reads alike and no jump strays; after a jump to a misaligned target the translated program traps one block later with the same registers and memory |
| `PipelineTheorems.EndToEndLifted` | tools/riscy.cpp:80-108 | for every program, faithful or not, with assignments that keep registers apart, as with the presence test: after any number of blocks the translated program agrees with the machine whose instructions do what they do when lifted |
| `PipelineTheorems.EndToEndAsWritten` | tools/riscy.cpp:80-108 | for every program of faithful instructions, with the analysis as written in any orders, after any number of blocks the translated program agrees with the machine that does each block or the block misread |
| `PipelineTheorems.StopsWithReference` | src/AArch64/Emitter.cpp:207-233 | with sound assignments, when the reference machine stops, the translated program has stopped alike |
| `PipelineTheorems.ReferenceStopsToo` | src/AArch64/Emitter.cpp:207-233 | with sound assignments, when the translated program has stopped, so does the reference machine, and no label was missing |
| `PipelineTheorems.LabelsAreDefinedOnce` | src/AArch64/ISel.cpp:260-278 | every label branched to is the name of exactly one emitted block |
| `PipelineTheorems.SearchFindsKeys` | src/AArch64/Emitter.cpp:54-61 | the tables are strictly increasing and in step with the blocks; the search finds an address if and only if it is a key, and its pointer is the block's label |
| `PipelineTheorems.ReservedRegistersStay` | src/AArch64/RegAlloc.cpp:22-26 | with assignments from the pool, so with either analysis, no emitted line writes x0, x19, x29 or x30 |

## Left out

- PipelineTheorems.EndToEnd: stops at the first return, indirect jump or trap, because a return leaves translated code and the lifted indirect target is not the computed one; the transfer of an indirect jump and the return after the emitted `bl` are not modelled. It asks for sound assignments; `EndToEndAsWritten` does not.
- AArch64: the guest state structure (x0 plus 0 to 263) and the rest of host memory are kept apart, so a guest store that hits the state structure is not modelled; nor is a store into code.
- ISel.VRegOf: registers and value ids are unbounded here and 32-bit in the source, so blocks of 2^32 values are not covered.
- Cfg.Build: asks for a misaligned entry or a barrier, as described under the decisions; the source's loop does not end without one.
- Sentinel.AnalysisSeparatesExactly: is about intervals; what it means for the code of a block is stated by `AsWritten.RightExactly`.
- AsWritten.RightExactly: compares registers, memory and the way out; the value in x1 at an indirect jump, where runs stop, is stated by `IndirectAsWritten` instead.
- SelectedCode.StartsAreDistinct: is about the presence test; with the analysis as written starts can coincide and the assignment then depends on the order (`IndirectAsWritten.OrderMatters`).
- SelectedCode.AssignmentIsDetermined: likewise.
- BlockTheorems.BlockAgrees: asks for an assignment that keeps registers apart; `AsWritten.AgreesAsWritten` is the statement for the analysis as written.
- PipelineTheorems.OneBlock: asks for sound assignments; `OneWrittenBlock` is the statement for the analysis as written.
- PipelineTheorems.EndToEndLifted: asks for assignments that keep registers apart; programs that have instructions without a lowering and also blocks that misread are not covered by any of the program theorems.
- PipelineTheorems.StopsWithReference: asks for sound assignments; a program with a block that misreads can go another way, which `EndToEndAsWritten` follows.
- PipelineTheorems.ReferenceStopsToo: likewise.
- PipelineTheorems.EndToEndManual: asks for sound assignments and leaves out runs in which a jump strays or a word is read otherwise than the manual does, for which it fails.
- Orders.SortAddresses: picks minima one by one; which algorithm `std::sort` uses is not modelled, only its result.
- IR: the meaning is given for the operand types the lifter produces and is stuck on others, such as extensions from narrower types; narrow loads and stores are defined and selected but never lifted.
- The LDRSW opcode of the emitter, which the selector never produces.
- Assembler encodability: ranges of `mov` immediates and of load and store offsets.
- The host calling convention: saved registers, x18, x19, x30 and the stack.
- Calls and returns as a discipline of the guest: JAL has only its target as successor.
- Text of the assembly, printing of blocks and IR, ELF loading, the command line, and the runtime's argument parsing and output: formatting and input/output.
- Initial register values set by the runtime (stack and frame pointer, arguments): any guest with x0 = 0 is allowed instead.
