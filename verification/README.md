# A verified model of the RISC-V simulator

The simulator runs RV32IM programs. It decodes straight-line traces up to a jump, keeps them in an LRU cache that a
Robin Hood hash table indexes, interprets them with the program counter updated only at the end, and compiles hot
traces to x86 code with register allocation on the fly. This project models those parts in Dafny and proves that they
do what they are for.

The main results:

- **The compiler preserves meaning** (`JitCorrect.CompilerCorrect`): native code returns exactly the states that some
  number of interpreted passes reach. The side conditions on one instruction's operands are exact, both for the places
  they are in (`TemplateExact.TemplateRightExactly`) and, with a memory of at most 2^32 bytes, for their values
  (`TemplateExact.OperandsRightExactly`).
- **A whole run is a run of the plain machine** (`SimRun.RunIsArch`): caching, thresholds, traces and native code do not
  show, compared with a machine that fetches, decodes and executes one instruction at a time.
- **The hash table is a map** (`HashTable.Table.FindIdx`, `DoInsert`, `Erase`): for an arbitrary hash, through shifting,
  in-place narrowing and rehashing. When an insertion overflows is told exactly from the state before it
  (`Crowding.GivesUp` in the contract of `DoInsert`), and the overflow the source calls impossible is reached
  (`Overflow.ThrowsInRehash`).
- **The LRU cache holds the most recent keys** (`Lru.CacheIsMostRecent`), with stack inclusion and a hit criterion.
- **Decoder and standard encoding are inverse** (`Decoding.DecodeEncode`, `Decoding.EncodeDecode`).

## How it is organised

| files | content |
|---|---|
| Words, Isa, Guest, Rv32m, IsaLaws | 32-bit words, instructions, the interpreter's meaning on values, multiplication, division and shift laws, and what each instruction computes, bit by bit and byte by byte |
| Host, Alloc, Templates, TemplateLaws, TemplateCorrect, TemplateExact | the x86-like machine, liveness and allocation, code templates and what they compute |
| Compiler, JitCorrect, Translator | compilation of a trace, its correctness, and the translator object that emits the code |
| RobinHood, Narrowing, Crowding, HashTable, Overflow | the hash table on values, the narrowing step, when an insertion overflows, the table object with its arrays, and a run that overflows inside a rehash |
| Lru, Caches | the cache as a function of its history, and the cache object on top of the table |
| Decoding, DecoderTables | decoding, encoding and round trips, and the decoder object with its tables |
| Arch, Stops, Interpreter, SimRun, Thresholds, Departures, Simulator | the reference machine and where it stops, the interpreter object, whole runs, when traces are translated, two programs that part from the reference machine, and the simulator's main loop |

Objects that the source updates in place are classes; each method is proved against a function on values, and the
theorems are about those functions. `dafny verify dfyconfig.toml` checks everything.

## Model

| member | source | states |
|---|---|---|
| JitCorrect.CompilerCorrect | sim/jit.cpp:16-66 | whole-trace compiler correctness: under the guards of `Translatable` and `Safe`, the compiled function returns with guest state t exactly when k >= 1 interpreted runs of the trace, all but the last ending with the branch to the trace head, lead from the start state to t (registers, pc, memory, instruction counter), for every host register content |
| JitCorrect.PassesAreNative | sim/jit.cpp:40-64 | one direction, per number of passes: native code follows any safe sequence of interpreted passes and then returns |
| JitCorrect.NativeIsPasses | sim/jit.cpp:40-64 | the other direction: when native code returns, it has made some number of complete passes of the interpreter |
| JitCorrect.PassesCount | sim/jit.cpp:40-42 | k native passes add k times the trace length to the 64-bit instruction counter |
| JitCorrect.BackEdgeKeepsPc | sim/translate_inst.cpp:67-71 | a pass that ends with the branch back leaves pc at the trace head, so the next entry at the function start sees the same pc |
| JitCorrect.OnePass | sim/translate_inst.cpp:57-71 | from the function start with every guest register in its slot, one pass of native code ends back at the start or returned, in the interpreter's state, with everything in its slot again |
| JitCorrect.LoopFront | sim/translate_inst.cpp:67-71 | the compare and the write-backs between it and the conditional jump leave every register in its slot and flags that still answer the guest's comparison |
| JitCorrect.LoopTailRuns | sim/translate_inst.cpp:69-71 | the conditional jump goes to the start of the function when its condition holds; otherwise pc moves past the branch |
| JitCorrect.ExitTailRuns | sim/translate_inst.cpp:57-66 | both ways through the jumps of a branch leave pc at the taken or the next address and reach the end of the function |
| JitCorrect.BranchCompare | sim/translate_inst.cpp:50-56 | the compare leaves flags under which the host condition is the guest's comparison, signed or unsigned, whatever place the operands are in |
| JitCorrect.CarefreeIsSafe | sim/translate_inst.cpp:324-449 | traces without loads, stores and MULH need no condition on operand values |
| JitCorrect.ExampleReturns | sim/jit.cpp:16-66 | a concrete trace, natively, from any machine: it returns with the two differences in the destination registers |
| JitCorrect.InstSound | sim/jit.cpp:43-63 | allocation work, template and write-backs of one instruction keep the simulation relation: represented state, injective mapping, only live registers mapped |
| JitCorrect.PassFrom | sim/jit.cpp:43-64 | the simulation relation carried from any instruction boundary to the end of the pass |
| Alloc.LivenessIsExact | sim/jit.cpp:95-107 | the backward pass computes liveness exactly: r is live after i if and only if a later instruction reads r with no write to r in between |
| Alloc.AllocateEffect | sim/jit.cpp:113-121 | without a mapping and with a register in the pool, r gets the pool's first, the pool loses exactly it, and a load is emitted just when asked for; else nothing happens |
| Alloc.DeallocateEffect | sim/jit.cpp:123-131 | a mapped register goes back to its slot with one store, its host register to the end of the pool; else nothing happens |
| Alloc.AllocateKeepsInv | sim/jit.cpp:113-121 | allocation keeps the mapping injective and mapped plus free host registers a permutation of the six, and maps nothing but r |
| Alloc.DeallocateKeepsInv | sim/jit.cpp:123-131 | write-back unmaps exactly r, keeps the permutation and leaves every other place alone |
| Alloc.AllocateSound | sim/jit.cpp:113-121 | loading into a fresh host register keeps every guest register's represented value; without the load only r may be stale |
| Alloc.DeallocateSound | sim/jit.cpp:123-131 | storing to the slot keeps every represented value and the flags |
| Alloc.DeallocateFromSound | sim/jit.h:41-44 | writing everything back leaves nothing mapped, every value in its slot, and the flags as they were |
| Alloc.WriteRegister | sim/jit.cpp:68 | writing the operand of a register changes that guest register and no other: placements do not alias |
| Alloc.SlotsAreTheState | sim/jit.cpp:62-64 | with nothing mapped the State structure alone is the guest state |
| Compiler.AllocationInvariant | sim/jit.cpp:43-63 | at every instruction boundary of every trace the mapping is injective, mapped plus pool registers are the six initial ones, and every mapped register is in the liveness set |
| Compiler.NothingMappedAtEnd | sim/jit.cpp:62-64 | after the last instruction no register is mapped, so no epilogue is needed |
| Compiler.PreWorkSound | sim/jit.cpp:45-51 | before the instruction's own code every register it reads is in place; only an unread destination may be stale |
| Compiler.PreWorkServes | sim/jit.cpp:45-51 | before the instruction's own code every live register it names, x0 apart, is in a host register unless the pool has run out; nothing else moves and the pool is used from the front |
| Compiler.PreWorkLoads | sim/jit.cpp:45-51 | just the sources that got a host register are loaded, each once |
| Compiler.PostWorkReturns | sim/jit.cpp:55-61 | just the dead registers it names go back to their slots |
| Compiler.SpareRegisterIsOk | sim/translate_inst.cpp:100-102 | with a host register to spare an operation is only dropped when both its destination and its second source are dead |
| Compiler.ExampleIsTranslatable | sim/jit.cpp:113-121 | a concrete trace whose first subtraction is right because of the registers allocation gives it |
| Compiler.PostWorkMaps | sim/jit.cpp:55-61 | after the write-backs only registers live after the instruction stay mapped |
| TemplateCorrect.PlainCorrect | sim/translate_inst.cpp:128-449 | semantic preservation of every template but the conditional branch, for all allocations, placements (register, slot, zero) and equalities of rd, rs1, rs2: represented state before leads to the interpreter's represented state after, and no other register changes |
| TemplateExact.TemplateRightExactly | sim/translate_inst.cpp:75-125 | the side condition `TemplateOk`, read off the operands' places and numbers, is exact: a template is right in exactly the states with acceptable operand values if and only if it holds |
| TemplateExact.OperandsRightExactly | sim/translate_inst.cpp:128-267 | the side condition `OperandsOk` on operand values is exact in every state with at most 2^32 bytes of memory: for an instruction whose places are fine, native code and interpreter agree if and only if a load or store address neither wraps nor is out of range and a MULH with a destination needs no sign correction |
| TemplateExact.WrappingAddressFails | sim/translate_inst.cpp:128-267 | a concrete state where the interpreter wraps the address and goes on and native code misses the buffer |
| TemplateExact.OutOfRangeFails | sim/mmu.h:58-62 | a concrete state where the interpreter throws and native code goes on |
| TemplateExact.NegativeMulhFails | sim/translate_inst.cpp:445-449 | mulh of 0x80000000 and 1: the interpreter computes 0xFFFFFFFF, native code another value |
| TemplateExact.DroppedFails | sim/translate_inst.cpp:100-102 | with RD and RS2 both in memory and RS1 zero the dropped `op` gives a wrong result on a concrete machine |
| TemplateExact.SetImmFails | sim/translate_inst.cpp:339-349 | SLTI and SLTIU of x0 lose the compare; flags that an earlier instruction left make the result wrong |
| TemplateExact.MulFails | sim/translate_inst.cpp:440-449 | MUL and MULH with rs2 = x0 lose the multiply |
| TemplateExact.ShiftFails | sim/translate_inst.cpp:111-125 | a shift into ecx, or with rd = rs2, gives a wrong result on a concrete machine |
| TemplateExact.SupportedExactly | sim/ir.h:89-92 | the commands with a translation function are just those whose code is right within the side conditions, and the branches; commands without effect apart |
| TemplateLaws.ImmTypeComputes | sim/translate_inst.cpp:75-87 | RD op immediate through all register/memory/zero placements, preserving everything but the temporaries |
| TemplateLaws.RegTypeComputes | sim/translate_inst.cpp:89-109 | RS1 op RS2 in RD through all placements and aliasings, and what is left when the pair has no encoding |
| TemplateLaws.ShiftTypeComputes | sim/translate_inst.cpp:111-125 | what the shift template leaves in RD in every placement, with ecx restored |
| TemplateLaws.LoadTypeComputes | sim/translate_inst.cpp:128-222 | a load template reads the guest byte range at rs1 + imm, extended as asked |
| TemplateLaws.StoreTypeComputes | sim/translate_inst.cpp:224-267 | a store template changes exactly the addressed guest bytes |
| TemplateLaws.CompareThenSet | sim/translate_inst.cpp:396-416 | compare, clear, set: RD becomes 1 or 0 by the guest comparison; clearing RD between does not change the flags |
| Host.ConditionsAfterCompare | sim/translate_inst.cpp:300-322 | after a compare the six host conditions answer the signed and unsigned guest comparisons |
| Translator.Translator.CalcLiveness | sim/jit.cpp:95-107 | the backward loop fills the sets with liveness after each instruction |
| Translator.Translator.AllocateReg | sim/jit.cpp:113-121 | nothing changes for a mapped register or an empty pool; else r is in the first host register of the pool, which loses it, and one load is emitted if asked for |
| Translator.Translator.DeallocateReg | sim/jit.cpp:123-131 | nothing changes for an unmapped register; else one store, r is back in its slot, and its host register at the end of the pool |
| Translator.Translator.DeallocateAllRegs | sim/jit.h:41-44 | the loop over all registers is the full write-back |
| Translator.Translator.TranslateMove | sim/translate_inst.cpp:24-29 | appends the code of the move template and nothing else |
| Translator.Translator.TranslateImmType | sim/translate_inst.cpp:75-87 | appends the code of the immediate template |
| Translator.Translator.TranslateRegType | sim/translate_inst.cpp:89-109 | appends the code of the register template |
| Translator.Translator.TranslateShift | sim/translate_inst.cpp:111-125 | appends the code of the shift template |
| Translator.Translator.TranslateCondBranch | sim/translate_inst.cpp:50-73 | appends compare, write-backs and jumps of a branch and updates the allocation with them |
| Translator.Translator.TranslateInst | sim/ir.h:90-92 | dispatches to the template of the command |
| Translator.Translator.Prepare | sim/jit.cpp:45-51 | allocates live rs1, rs2 and rd in that order: afterwards every live operand is in a host register or the pool is empty, and no other register has moved |
| Translator.Translator.Retire | sim/jit.cpp:55-61 | writes back dead rs1, rs2 and rd in that order: afterwards none of them is in a host register, and no other register has moved |
| Translator.Translator.CompileTrace | sim/jit.cpp:16-66 | the constructor loop yields the compiled function that CompilerCorrect is about, or none exactly when an instruction has no translation |
| Rv32m.HighWords | sim/exec_inst.cpp:259-280 | MULH, MULHSU, MULHU are the high words of the exact signed, mixed and unsigned products (section 7.1 of the RISC-V Unprivileged ISA) |
| Rv32m.SignedDivision | sim/exec_inst.cpp:282-305 | DIV and REM: rs1 = q * rs2 + r with truncation and the sign rule, and the zero and overflow results (section 7.2) |
| Rv32m.UnsignedDivision | sim/exec_inst.cpp:292-310 | DIVU and REMU: the same without signs |
| Rv32m.UnsignedVersusSignedHigh | sim/translate_inst.cpp:445-449 | the unsigned high word the translator computes for MULH differs from the signed one by exactly (rs1 < 0 ? rs2 : 0) + (rs2 < 0 ? rs1 : 0) modulo 2^32, and agrees if and only if that is 0 |
| Rv32m.ArithmeticShift | sim/exec_inst.cpp:234-239 | SRA floor-divides the signed operand by a power of two |
| Rv32m.SraAnyAmount | sim/exec_inst.cpp:193-197 | SRAI with the decoded amount, which keeps bit 10, shifts by the amount modulo 32 |
| Words.SraMaskIsFloorDivision | sim/exec_inst.cpp:193-197 | or-ing the sign mask to a logical shift is floor division, for every word and amount |
| Words.BitAndMask | sim/robin_hood.h:1348-1349 | masking with 2^k - 1 is the remainder modulo 2^k |
| IsaLaws.ArithLaw | sim/exec_inst.cpp:153-230 | sums, differences, products modulo 2^32 and the two orders, for register and immediate commands |
| IsaLaws.BitwiseLaw | sim/exec_inst.cpp:168-250 | the logic commands and the logical shifts, bit by bit |
| IsaLaws.UpperLaw | sim/exec_inst.cpp:92-101 | LUI and AUIPC |
| IsaLaws.LoadLaw | sim/exec_inst.cpp:47-75 | rd reads as the number that the bytes at rs1 + imm modulo 2^32 spell, unsigned, or in two's complement when the load is signed; a load out of memory throws |
| IsaLaws.StoreLaw | sim/exec_inst.cpp:77-90 | byte k of rs2 goes to address rs1 + imm + k and no other byte changes; a store out of memory throws |
| IsaLaws.JalLaw | sim/exec_inst.cpp:102-107 | link and target of JAL |
| IsaLaws.JalrLaw | sim/exec_inst.cpp:109-115 | link and target of JALR, with rs1 read after rd is written |
| IsaLaws.BranchLaw | sim/exec_inst.cpp:117-151 | the six comparisons and both targets; nothing else changes |
| IsaLaws.AdvanceLaw | sim/exec_inst.cpp:13-28 | every other instruction that goes on moves pc by 4, and each counts once |
| IsaLaws.FrameLaw | sim/exec_inst.cpp:13-310 | an instruction changes no register but its destination, and memory only if it is a store |
| IsaLaws.ReadsLaw | sim/ir.h:46-65 | what an instruction does does not depend on a register it does not read |
| IsaLaws.ReadsExactly | sim/ir.h:46-65 | of two distinct source registers a command reads exactly those its effect depends on |
| RobinHood.ProbeReaches | sim/robin_hood.h:1409-1426 | from a key's position back to its home no byte is below the probe's info: the search cannot stop early |
| RobinHood.NotBeyond | sim/robin_hood.h:1426-1431 | once the probe's info exceeds the byte, the key is nowhere at or after that position |
| RobinHood.BufferHasRoom | sim/robin_hood.h:2042-2045 | with fewer elements than allowed there is a free position in the overflow buffer, whatever the hash |
| RobinHood.SpotInfo | sim/robin_hood.h:2265-2271 | the byte of an inserted key fits when there was headroom and continues the order of the byte before |
| RobinHood.InsertedKeeps | sim/robin_hood.h:1366-1384 | insertion with shift keeps the Robin Hood invariant: every byte is (index - home + 1) * inc plus the hash bits, and the order of bytes holds |
| RobinHood.InsertedModels | sim/robin_hood.h:2246-2296 | insertion adds exactly one binding and every other key stays findable |
| RobinHood.InsertedHeadroom | sim/robin_hood.h:1376-1384 | the headroom is gone after an insertion if and only if the new byte or a moved byte trips the check that sets the allowed count to 0 |
| RobinHood.RemovedKeeps | sim/robin_hood.h:1386-1404 | backward-shift deletion keeps the invariant and the headroom |
| RobinHood.RemovedModels | sim/robin_hood.h:1961-1979 | deletion removes exactly the key's binding |
| RobinHood.SharedHomeLimit | sim/robin_hood.h:2342-2345 | at most 127 keys share a home in any table that meets the invariant, so a bad enough hash has to run into the overflow exception |
| Crowding.CrowdedExactly | sim/robin_hood.h:1376-1384 | a byte is at the limit at the narrowest increment if and only if some stretch of homes has at least 126 more keys than homes |
| Crowding.GrownDecides | sim/robin_hood.h:2326-2348 | doubling changes neither whether the pending insertion overflows nor the size it ends in |
| Crowding.RemovedDecides | sim/robin_hood.h:1386-1404 | a removal leaves the order of the other keys, so it does not change for which keys an insertion overflows |
| Crowding.CalmGoesOn | sim/robin_hood.h:2338-2347 | with a hash that crowds no key set of the given size in a table it fits in, an insertion into a table that is not out of hash bits does not overflow |
| Crowding.FewAreCalm | sim/robin_hood.h:2342-2345 | that holds for every hash with at most 126 keys at a time |
| Crowding.UncrowdedAreCalm | sim/robin_hood.h:2342-2345 | and for any keys that do not crowd a table of 256 or more positions |
| Crowding.SpreadKeysAreCalm | sim/robin_hood.h:2342-2345 | in particular for any number of keys whose homes differ there |
| Overflow.Fill | sim/robin_hood.h:1440-1445 | 128 insertions with a bad hash fill a table with the given keys that is out of hash bits, more than half full, and too crowded for twice the size |
| Overflow.ThrowsInRehash | sim/robin_hood.h:1443-1445 | there the next insertion overflows because the growing step throws inside `insert_move`, on the line the source calls impossible to reach |
| Narrowing.EightBytes | sim/robin_hood.h:2313-2317 | the 64-bit shift and mask by 0x7f7f... halves each of the eight bytes |
| Narrowing.KeyInfoHalves | sim/robin_hood.h:1345-1349 | half of a key's byte is what `keyToIdx` and `next` compute with the new increment and shift |
| Narrowing.NarrowingKeeps | sim/robin_hood.h:2298-2324 | narrowing keeps invariant, order, occupancy and contents, and restores headroom in every byte |
| HashTable.Table.KeyToIdx | sim/robin_hood.h:1337-1350 | home and info byte of a key |
| Crowding.HomeIsRemainder | sim/robin_hood.h:1337-1350 | the home is the hash without its low 5 bits, modulo the number of positions |
| Crowding.SameInfoExactly | sim/robin_hood.h:1337-1350 | two keys have the same info byte at a position exactly when they share the home and the hash bits left by the shift |
| HashTable.Table.FindIdx | sim/robin_hood.h:1409-1432 | lookup is sound and complete: the slot of the key exactly when it is in the abstract map, the end index otherwise |
| HashTable.Table.NextWhileLess | sim/robin_hood.h:1358-1363 | stops at the first position whose byte is not above the probe, having passed no slot with the key |
| HashTable.Table.ShiftUp | sim/robin_hood.h:1366-1384 | the two loops move slots and bytes up by one with no byte truncated, and zero the allowed count exactly when a moved byte comes too close |
| HashTable.Table.ShiftDown | sim/robin_hood.h:1386-1404 | the loop is the deletion step on values and ends before the sentinel |
| HashTable.Table.Erase | sim/robin_hood.h:1961-1979 | erase by key is map removal; the count tells whether the key was there; whether a later insertion overflows can be told before the removal |
| HashTable.Table.InsertMove | sim/robin_hood.h:1440-1482 | adds a new binding if and only if the table allows an insertion or has a hash bit left to drop; else it throws with the table unchanged. Afterwards the allowed count is 0 exactly when the headroom is gone |
| HashTable.Table.DoInsert | sim/robin_hood.h:2246-2296 | adds exactly the new binding or finds the existing one with the table unchanged, through any number of growing steps; the retry loop ends; it overflows if and only if the key is new and the state before satisfies `GivesUp`, and else inserts into a table of the size told from that state |
| HashTable.Table.TryIncreaseInfo | sim/robin_hood.h:2298-2324 | the in-place loop over eight bytes at a time narrows the table and repairs the sentinel |
| HashTable.Table.IncreaseSize | sim/robin_hood.h:2326-2348 | allocates, narrows or doubles with the contents kept, and makes progress by the measure that ends the retry loop; it fails if and only if there is no hash bit to drop and the table is less than half full or cannot be carried over to twice the size; success does not change whether the insertion will overflow |
| HashTable.Table.RehashPowerOfTwo | sim/robin_hood.h:2105-2132 | the larger table holds the same bindings if and only if all keys but the last are not crowded in it; on overflow it holds those before the first position where they are |
| HashTable.Table.InitData | sim/robin_hood.h:2165-2185 | a new empty table with sentinel and initial increments |
| HashTable.Table.Clear | sim/robin_hood.h:1669-1687 | empties the table in place |
| HashTable.Table.Assign | sim/common.h:72 | assignment through a found iterator changes that binding only |
| HashTable.CollectedAll | sim/robin_hood.h:2114-2121 | the rehash loop carries over every binding and nothing else |
| Lru.CacheIsMostRecent | sim/common.h:52-75 | after any accesses the cache holds exactly the max_size_ most recently used distinct keys, in order of recency |
| Lru.MruOrder | sim/common.h:64-73 | the reference order: distinct keys by decreasing time of last use |
| Lru.MruKeys | sim/common.h:64-73 | the reference list has exactly the keys of the history |
| Lru.HitIffRecent | sim/common.h:53-54 | an access hits if and only if fewer than max_size_ other keys were used since |
| Lru.StackInclusion | sim/common.h:52-75 | a smaller cache's entries are a prefix of a larger cache's |
| Lru.HitsGrow | sim/common.h:52-75 | hits never decrease with the size |
| Caches.LRUCache.Insert | sim/common.h:52-75 | list, hash table and sizes stay in step with the access history; links lead from each key to its own node; a hit returns the old node, a miss a new one; it fails if and only if the key is new and the hash table will overflow with the keys that stay |
| Caches.LRUCache.CalmGoesOn | sim/common.h:52-75 | with a hash that is calm on the keys asked for, in particular with at most 126 entries, no access fails |
| Caches.LRUCache.Clear | sim/common.h:76-80 | empties list and table |
| Decoding.DecodeEncode | sim/decoder.cpp:79-196 | decoding the standard encoding of any instruction in the tables gives it back (sections 2.2 and 2.3 of the RISC-V Unprivileged ISA) |
| Decoding.EncodeDecode | sim/decoder.cpp:79-196 | every accepted word is the standard encoding of what it decodes to |
| Decoding.DecodeInjective | sim/decoder.cpp:79-196 | different accepted words are different instructions |
| Decoding.ShiftAmounts | sim/decoder.cpp:107-122 | a decoded shift amount modulo 32 is its 5-bit field, and bit 10 tells SRAI from SRLI |
| Decoding.SignExtends | sim/decoder.cpp:7-11 | the bitwise sign extension is two's complement extension of an (n + 1)-bit field |
| Decoding.CmdRoundTrip | sim/isa_desc.cpp:25-88 | the row of every command leads back to it, except for the two shared rows |
| DecoderTables.LastIsCmdAt | sim/decoder.cpp:27-54 | filling the tables in order with later entries overwriting earlier ones gives the specified command for every row |
| DecoderTables.Decoder.FillFormats | sim/decoder.cpp:16-23 | the loop over the opcode table |
| DecoderTables.Decoder.FillCmds | sim/decoder.cpp:27-54 | the loop over the command table fills both kinds of tables |
| DecoderTables.Decoder.GetCmd | sim/decoder.cpp:59-67 | table lookup, or nothing for the exception |
| DecoderTables.Decoder.GetCmdByFunct7 | sim/decoder.cpp:69-77 | two-level table lookup |
| DecoderTables.Decoder.Decode | sim/decoder.cpp:79-196 | the table-driven decoder computes the decoding that the round trips are about |
| Arch.TraceIsArch | sim/sim.cpp:53-81 | running a trace with pc updated only at the end is as many steps of a fetch-decode-execute machine as the trace has instructions; it throws exactly when that machine stops on the way, with the same registers and memory |
| Arch.StepSeen | sim/exec_inst.cpp:13-28 | the effect of an instruction at an offset from the trace head is its effect with pc at the instruction |
| Arch.BuildFetches | sim/sim.cpp:37-46 | instruction i of a built trace is what a fetch at head + 4 * i decodes to, and the fetch is in memory |
| Arch.BuildFails | sim/sim.cpp:37-46 | no trace can be built exactly when the straight line from pc meets a word outside memory or one that does not decode before it meets a terminator |
| Arch.DerailedStops | sim/sim.cpp:37-46 | where no trace can be built the reference machine, too, stops within the straight line, unless it stores into it |
| Arch.JalrFollowsIsa | sim/exec_inst.cpp:109-115 | because rd is written before rs1 is read, JALR jumps as section 2.5 of the RISC-V Unprivileged ISA says in all states if and only if rd = x0 or rd is not rs1 |
| Interpreter.State.constructor | sim/sim.cpp:11-25 | initial registers, stack pointer and memory |
| Interpreter.State.SetReg | sim/sim.h:67-77 | changes one register, never x0 |
| Interpreter.State.Load | sim/mmu.h:58-62 | throws when the byte after the access is not in memory, else the little-endian value |
| Interpreter.State.Store | sim/mmu.h:58-62 | changes exactly the addressed bytes, or throws |
| Interpreter.State.ExecInst | sim/exec_inst.cpp:30-310 | the command's function updates the state as the meaning on values says, exceptions included |
| Interpreter.State.ExecFrom | sim/exec_inst.cpp:17-28 | the NEXT_INST chain runs exactly the trace's instructions and stops at the terminator |
| Interpreter.State.Interpret | sim/sim.cpp:74-78 | an interpreted execution; the counter moves only when nothing was thrown |
| SimRun.RunIsArch | sim/sim.cpp:107-114 | for any cache size, threshold and with or without native code, the loop-head states of a run are states of the one-instruction-at-a-time machine after strictly growing numbers of steps, as long as each round executes the trace that would be built now and does not store into its words |
| SimRun.SparingRunIsRun | sim/sim.cpp:107-114 | that holds for every run from an empty cache whose rounds store into no word of a cached trace |
| SimRun.ThrowIsArch | sim/sim.cpp:74-78 | when the interpreter throws inside a trace at the end of a run, the reference machine stops too, at or after the last loop head, with the same registers and memory |
| SimRun.UnbuiltIsArch | sim/sim.cpp:37-46 | when no trace can be built at the end of a run, the reference machine stops there with the same registers and memory if and only if a guard of `StopsHere` holds; unless it stores into the words ahead it stops in any case, at exactly one step, within the straight line |
| Stops.StopsHereExactly | sim/exec_inst.cpp:35-95 | the reference machine stops at once without a change exactly when the fetch fails, a load or store is out of memory, a CSRRW names another register or sets the mode bit, or a call stops |
| Stops.CallStopsExactly | sim/exec_inst.cpp:35-39 | a call, as an arbitrary answer of the host, stops without a change exactly when it says so or a write is out of memory after writes that restore every byte |
| Stops.CallRunsExactly | sim/exec_inst.cpp:35-39 | a call goes on exactly when the host answers and every write is in memory; then a0 holds the answer and each byte what the last write for it wrote |
| Departures.UnbuiltDiffers | sim/sim.cpp:37-46 | a concrete memory where the simulator throws before an instruction that the reference machine executes first |
| Departures.StoreDiffers | sim/sim.h:40-47 | a concrete memory where a store overwrites a cached trace: the simulator executes the stale trace and reaches a loop-head state that the reference machine is never in |
| SimRun.RoundIsArch | sim/sim.cpp:110-111 | one round is a positive number of steps of that machine, if the trace it executes is current and spares its own words |
| SimRun.CoherentRound | sim/sim.cpp:110-111 | a round that stores into no cached trace keeps every cached trace equal to what memory holds |
| SimRun.SettingsAreInvisible | sim/sim.cpp:107-114 | runs of one program under different settings stay on one path: of any two loop-head states one leads to the other |
| SimRun.PassesAreArch | sim/translate_inst.cpp:67-71 | k passes over a self-looping trace are k times its length steps of the reference machine |
| SimRun.CoherentStays | sim/sim.h:40-48 | when no cached word changes, every cached trace is still what would be built from memory |
| SimRun.RunCacheKeys | sim/sim.h:34-50 | at every loop head the trace cache holds the traces executed most recently since the last flush, in order |
| SimRun.ReferTouches | sim/sim.h:40-47 | `refer` changes the cached addresses as an LRU cache does |
| SimRun.FenceEmpties | sim/exec_inst.cpp:41-45 | a round leaves the trace cache empty exactly when the trace it executes ends with FENCE |
| SimRun.FenceIsSeen | sim/exec_inst.cpp:41-45 | the round after a FENCE executes what memory holds then: code stored before is seen |
| Thresholds.TranslatedWhen | sim/sim.cpp:53-68 | after k executions a trace has native code if and only if translation is on, every instruction has a translation and k exceeds the threshold |
| Thresholds.NativeFromThreshold | sim/sim.cpp:53-68 | on any run a round executes natively exactly from execution number threshold + 1 of its trace since it was cached |
| Thresholds.RoundRuns | sim/sim.cpp:71-78 | such a round runs the compiled function from the State structure and takes over what it leaves, any other runs the interpreter |
| Thresholds.StillRunningFrom | sim/sim.cpp:71-72 | only such a round can be still running |
| Simulator.BuildTrace | sim/sim.cpp:37-46 | the decode loop builds the trace at pc or reports the exception, and ends because addresses stay inside memory |
| Simulator.Translate | sim/sim.cpp:54-68 | the threshold test and translation attempt, with its counters |
| Simulator.ExecuteTrace | sim/sim.cpp:71-78 | native code if there is some, else the interpreter; still running only when the native code has not returned within the allowed steps |
| Simulator.ReferTrace | sim/sim.h:40-47 | the cell of the trace at pc, built on a miss; it fails if and only if the trace cannot be built or the cache will overflow |
| Simulator.FlushAfter | sim/exec_inst.cpp:41-45 | the cache is empty after a trace that ends with FENCE and unchanged after any other |
| Simulator.Sim.Round | sim/sim.cpp:110-111 | one iteration of the loop on the real objects is a round of the run that RunIsArch is about; it throws only when no trace can be built, the interpreter stops as in ThrowIsArch, or the cache was going to overflow, and is still running only with translation on, in native code that has not returned |
| Simulator.Sim.Execute | sim/sim.cpp:107-114 | the loop produces a sequence of such rounds, none of which starts at or above the instruction limit but the first, and ends on an exception, at the limit or after the allowed rounds; with at most 126 cached traces, or a hash that is calm on the trace heads, the exception is never the hash table's |

## Left out

- Virtual addressing: the page walk, the TLBs and the translator's MMU templates (sim/mmu.h:64-110, sim/translate_inst.cpp:31-48). It is off by default; CSRRW that would switch it on ends the modelled run. Memory is one flat byte array with the source's bounds check.
- Interpreter.State.ExecInst: system calls and CSRRW are weaker than in the source. ECALL may store any bytes, set a0 or stop, as an arbitrary function of registers and memory (sim/syscall.cpp is not modelled), and a CSRRW that would switch virtual addressing on ends the modelled run.
- Interpreter.State.constructor: starts from a memory image with the program in place; copying the segments and the check of their size (sim/sim.cpp:17-24) would only add easy members.
- Simulator.FlushAfter: flushes between two rounds; in the source FENCE inside a running trace frees the trace that is executing.
- CSR registers and the instructions that only print a message: no effect.
- Machine code: asmjit's byte encoding, label addresses and executable memory. Native code is a list of x86-like instructions; an operand pair without an encoding emits nothing, because the emit result is ignored (sim/translate_inst.cpp:5). A 32-bit immediate stands for its low 32 bits.
- Interpreter.State.Load: models `load` with virtual addressing off.
- Interpreter.State.Store: models `store` with virtual addressing off.
- Simulator.ExecuteTrace: native execution is bounded by a number of steps, after which the model gives up with `StillRunning`. Native code updates the state through a copy that is written back when it returns.
- Simulator.Sim.Round: inherits that bound.
- Simulator.Sim.Execute: bounded by a number of rounds as well.
- Exceptions inside LRUCache::insert: the trace is built before the insertion instead of inside it, so a trace that does not decode leaves the cache unchanged in the model; in the source the run ends there. LRUCache needs a size of at least 1.
- Caches.LRUCache.Insert: when the hash table throws its overflow error the list has the new entry and the table, still a valid one, holds some of the old links; which of them is told by RehashPowerOfTwo and not carried up here. The value is built before the insertion and not inside it.
- Robin Hood table: node-based storage, the bulk allocator, copy, move, swap, iterators' fast-forward, `reserve`, the concrete hash functions, allocation failure and `size_t` overflow of the sizes. The hash is an arbitrary function.
- JitCorrect.CompilerCorrect: needs the guards `Translatable` (operand places, in the allocation they are used in) and `Safe` (operand values). For one instruction both are exact, as TemplateRightExactly and OperandsRightExactly show; for a whole trace they are sufficient only, because a wrong value may be overwritten before anything reads it.
- SimRun.RunIsArch: needs that the trace a round executes is current and spares its own words; the simulator does not watch stores to code, and StoreDiffers shows what happens otherwise.
- ELF reading, options, logging, dumps, statistics and timing.

Where code and comments disagree the code is followed: `getMemPtr` refuses the last valid address (sim/mmu.h:59), SRAI keeps bit 10 of its immediate because line 158 of sim/decoder.cpp undoes line 117, MULH is translated to an unsigned multiply (sim/translate_inst.cpp:447), and the overflow that `insert_move` calls impossible to reach (sim/robin_hood.h:1445) can be reached.
