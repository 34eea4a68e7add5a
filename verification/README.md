# MiniToolchain, verified

MiniToolchain takes assembly source through an addressless intermediate representation, an
optimizer, a two-pass assembler, a linker and a virtual machine. This project models that path in
Dafny and proves that it preserves what a program does.

`dafny verify dfyconfig.toml` checks everything.

## The shape of the model

A code section is a sequence of items: instructions, labels and data. Its own semantics (`Ir`) is a
small-step machine on registers, a stack of words, FLAGS, data memory and the outside world. A word
is either a number or the address of an item, because the section has no addresses yet; code
addresses can be moved, pushed, popped and returned to, and anything else done with them is stuck. A
fault, falling off the end and executing data are stuck too.

Where the source computes a value by cases and calls, the model is a function. Where it changes
things step by step, the model is a class or a method with the loop of the source, proved to compute
a function, and the function is what the laws are about:

- the optimizer: `PassLoops`, `ControlFlow` and `Optimizer` are the loops that rewrite the section and
  fill the shared removal marks; `Passes` says item by item what each pass does; one file per pass
  proves the simulation, and `OptimizerProof` chains them over passes, rounds and whole runs;
- the lexer, parser, assembler, linker, machine, debugger and object reader and writer: `Lexing.Lexer`,
  `Parsing`, `Assembler`, `Linker`, `Vm`, `Debugger` and `ObjectIo` are the objects; the functions in
  `Lexing`, `Grammar`, `AssemblySpec`, `LinkSpec`, `VmSpec`, `Mobj` and `Debugger` are what they compute.

`TextImage`, `HeapMemory` and `BackEnd` carry the semantics of a section over to the machine that runs
its image. `Compiler` composes that with the optimizer, and `EndToEnd` discharges what is left: a
well-made section (its instructions encode, its symbols are its own labels, it fits a region, and its
entry and branch targets have a terminator behind them) always assembles, links and loads, the optimizer
keeps it well made, and its image and the image of its optimized form halt with the same registers, SP,
exit code, output and heap, registers that hold code addresses being addresses of the same item.

In front of all this, `Lexing`, `Grammar`, `Parsing` and `Lowering` read assembly text; `Listings` proves
that printed instructions are read back, and `GrammarProof` that the tokens of any program parse to it.

What the functions compute is said a second time without them: `PassMeaning` and `FixedPoints` say on the
section alone what every pass finds and when a round finds nothing, `AluMeaning` and `MachineMeaning` give
every instruction by integers, bits, addresses and bytes, `AssemblyContents` and `AssemblyErrors` say what
is in an object and when there is one, `LinkAddresses` where every reference leads, `MobjLayout` where
everything stands in a file, `DebuggerRuns` where a run stops.

Machine words are bounded integers with every wrap-around written out (`Words`), bitwise operations
are defined digit by digit (`Bits`), buffers are byte sequences or arrays.

## Where the code and its documentation differ

- The comment at src/optimizer/optimizer.cpp:309-311 says that the passes converge and that the cap of
  eight rounds is a safety net. Nine nested PUSH/POP pairs are not finished after eight rounds
  (`NestedPairs.CapReachesFixedPointIff`). For sections of PUSH and POP the number of rounds needed is
  exactly how deep they nest (`NestedPairs.RoundsReachFixedPointIff`); sections that weigh at most eight
  always converge (`NestedPairs.SmallSectionsConverge`), and without the cap every section does
  (`Optimizer.FixedPointReached`).
- src/vm/memory.cpp:212 subtracts before comparing, so an allocation larger than the end address of the
  heap succeeds; `Memory.AllocatedBlockInsideHeapIff` gives the exact condition.
- A branch to a label with no block behind it gets the index one past the last block
  (src/optimizer/optimizer.cpp:141 and :149) and the liveness loop indexes with it at :213. The loops are
  modelled wherever that does not happen, which `ControlFlowGraph.GraphInRangeIff` characterizes;
  `SettledSections.UnsettledExample` shows that one round can cause it, and
  `SettledSections.PassKeepsSettled` gives a condition on the input that every round keeps.
- An undefined weak reference counts as a definition for the objects checked after it
  (src/linker/linker.cpp:246-251), so whether two objects link can depend on their order
  (`LinkOrder.LinkDependsOnOrder`). `LinkOrder.LinkOrderMakesNoDifferenceIff` says exactly when it does
  not.
- The object reader skips padding without looking at it and accepts any string table and data layout that
  is in bounds, so different buffers are read as the same object (`MobjCanonical.PaddingIsIgnored`).
  Reading undoes writing for exactly the well-formed objects (`MobjProof.RoundTripIff`), and writing
  undoes reading for exactly the canonical buffers (`MobjCanonical.WriteBackIff`).
- Semantic analysis passes the displacement of a memory operand to a range check that looks only at
  immediates (src/assembler/sema.cpp:71-87 and :174), so a displacement that does not fit is found by the
  encoder instead (`Lowering.AcceptedEncodesIff`, `Lowering.LongDisplacement`).
- The parser refuses the printed form of branches (src/isa/encoding.cpp:193-194); all other encodable
  instructions can be printed and read back (`Listings.PrintReadIff`).
- Loading an image that is refused after its memory has been reset (src/vm/vm.cpp:76-90) leaves the
  machine marked as loaded if it was, over what could be mapped (`Vm.VirtualMachine.LoadProgram`).

## Model

| member | source | states |
|---|---|---|
| EndToEnd.WellMadeSectionsFinishAlike | src/optimizer/optimizer.cpp:308-573 | The whole tool chain, for any number of rounds: a code section whose instructions encode, whose symbols are its own labels, that fits a region and whose branch targets and entry have a terminator behind them builds with and without the optimizer, and if it halts both images run to the end with the same SP, exit code, output and heap; registers are equal, or are addresses of the same item before and after |
| EndToEnd.WellMadeBuilds | src/linker/linker.cpp:141-381 | Every such section assembles, links with the default bases and loads |
| EndToEnd.OptimizedWellMade | src/optimizer/optimizer.cpp:308-573 | The optimizer keeps a section of that kind, after any number of rounds: it still encodes, fits, and has its entry and branch targets inside |
| EndToEnd.PassOperand | src/optimizer/optimizer.cpp:350-494 | Every instruction a round rewrites still encodes, and its symbol is still a label of the section |
| Buildable.Assembles | src/assembler/assembler.cpp:61-304 | Such a section assembles without an error, its labels become its symbols and its globals are bound globally |
| Buildable.Links | src/linker/linker.cpp:141-381 | Such a section links: everything resolves, every relocation is in range and the image passes validation |
| Buildable.SiteApplies | src/object/relocation.cpp:44-100 | With the default bases, a relocation of an instruction to a label of the section always fits its field |
| Compiler.OptimizedImageFinishesAlike | src/optimizer/optimizer.cpp:308-573 | For any alignment of bases: if the section and its optimized form both assemble, link and load, and the section halts, both images run to the end alike |
| Compiler.BackEndSimulation | src/vm/vm.cpp:156-312 | Assembled, linked, loaded and run, a section reaches a machine state that matches its own run: registers, SP, stack words, FLAGS, heap, output, exit code, instruction count |
| BackEnd.RunMatches | src/vm/vm.cpp:156-194 | Every run of the section is a run of the machine with no more steps |
| BackEnd.StepMatches | src/vm/vm.cpp:156-194 | A label costs the machine nothing; an instruction is matched by exactly one `step`, with no fault |
| BackEnd.InstructionFollows | src/vm/vm.cpp:196-312 | Whatever instruction the IR can execute, the machine executes with matching results |
| BackEnd.PushFollows | src/vm/vm.cpp:125-138 | A push writes the word at the slot of its depth and leaves the slots above it |
| BackEnd.PopFollows | src/vm/vm.cpp:140-154 | A pop returns the word that was pushed at that depth |
| TextImage.TextLinks | src/linker/linker.cpp:141-381 | The image of one code section is one segment in which every instruction stands at its address, its symbol replaced by the address of the label or the displacement to it; control starts at the entry label |
| TextImage.TextLabels | src/assembler/assembler.cpp:155-174 | Every label of the section becomes a symbol at the true position of the item it stands before |
| HeapMemory.HeapStore | src/vm/memory.cpp:85-117 | A store that the heap alone allows is allowed in the whole memory, has the same result there and touches nothing else |
| HeapMemory.HeapInvoke | src/vm/syscall.cpp:39-129 | A system call that succeeds on the heap alone does exactly the same in the whole memory |
| HeapMemory.HeapAllocate | src/vm/memory.cpp:200-218 | Allocation succeeds, fails and hands out blocks on the heap alone as in the whole memory |
| OptimizerProof.OptimizerPreserves | src/optimizer/optimizer.cpp:308-573 | Whole-run preservation for any number of rounds: a halting run is matched by one of the optimized section with the same registers, stack, memory, output and exit code, code addresses moved by the kept-item map, in no more instructions |
| OptimizerProof.PassPreserves | src/optimizer/optimizer.cpp:320-573 | One round of all passes over shared marks preserves every halting run |
| FixedPoints.NothingLeftIff | src/optimizer/optimizer.cpp:320-573 | A round leaves a section alone exactly when no instruction stands behind a HALT, JMP or RET, no PUSH is followed by a POP, no jump leads over labels only, nothing with a known value that fits is computed without its FLAGS being looked at, nothing is a NOP or a self-move, and no constant or move is overwritten before it is read |
| FixedPoints.OptimizedHasNothingLeft | src/optimizer/optimizer.cpp:308-318 | After as many rounds as a section weighs there is nothing of that kind left in it |
| PassMeaning.FoldMeans | src/optimizer/optimizer.cpp:406-494 | Every move or computation whose operands the text of its straight-line code determines, whose value fits 48 bits and whose FLAGS, if any, no path looks at becomes the load of that value; nothing else changes |
| PassMeaning.ConstantsMean | src/optimizer/optimizer.cpp:406-494 | The constant map before an item holds exactly the values that the last definitions before it give, through any chain of moves and computations |
| PassMeaning.FlagsNeededMeans | src/optimizer/optimizer.cpp:112-256 | FLAGS are needed at an item exactly when some path of control flow from it reaches a conditional branch, or leaves what the section shows, before anything sets them |
| PassMeaning.UnreachableMeans | src/optimizer/optimizer.cpp:325-348 | Exactly the instructions behind a HALT, JMP or RET, up to the next label, are marked |
| PassMeaning.PeepholeMeans | src/optimizer/optimizer.cpp:350-377 | Every PUSH with a POP right behind it goes, or becomes the move it amounts to; nothing else changes |
| PassMeaning.JumpMeans | src/optimizer/optimizer.cpp:379-404 | Exactly the jumps to a label that only labels separate from them are marked |
| PassMeaning.DeadStoreMeans | src/optimizer/optimizer.cpp:522-560 | Exactly the constants and moves whose register is written again in the same straight-line code before it is read are marked |
| UnreachableProof.UnreachableSimulation | src/optimizer/optimizer.cpp:325-348 | Removing what follows a terminator up to the next label preserves every step: such code is never entered, return addresses included |
| PeepholeProof.PeepholeSimulation | src/optimizer/optimizer.cpp:350-377 | Collapsing PUSH/POP pairs preserves every step outside the pair; inside it only the stack and one register lag |
| PeepholeProof.JumpSimulation | src/optimizer/optimizer.cpp:379-404 | A jump over labels and removed items only can go |
| FoldProof.FoldSimulation | src/optimizer/optimizer.cpp:406-494 | Folding a whole section against liveness computed before any fold is jointly safe: every known constant is the run-time value, and FLAGS agree wherever they can still be read |
| FoldProof.TransferSound | src/optimizer/optimizer.cpp:417-493 | Every constant in the map equals its register at run time, through every instruction |
| FoldProof.NeededBefore | src/optimizer/optimizer.cpp:406-494 | FLAGS needed after an instruction that does not write them were needed before it, along the path actually taken |
| StoreProof.IdentitySimulation | src/optimizer/optimizer.cpp:496-520 | Self-moves and NOPs can go |
| StoreProof.DeadStoreSimulation | src/optimizer/optimizer.cpp:522-560 | All dead stores chosen in one sweep can go together, also when the overwriting instruction goes too |
| CompactProof.CompactSimulation | src/optimizer/optimizer.cpp:562-570 | Dropping the marked items and renumbering the rest commutes with execution when code addresses are renumbered alike |
| CompactProof.LabelsMove | src/optimizer/optimizer.cpp:562-570 | Labels keep their names and move with the item they stand before |
| CodePointers.ExecuteRenamed | src/vm/vm.cpp:196-312 | Execution commutes with every renaming of code addresses that keeps an instruction and its successor together |
| CodePointers.ExecuteControl | include/minitool/isa/opcode.hpp:86-101 | Control goes to the next item, to a label of the section or to the address on top of the stack, as the opcode table says |
| Ir.ExecuteRespectsTable | src/isa/opcode.cpp:13-55 | Registers, FLAGS and control change only where the opcode table says |
| Ir.ExecuteReadsOnlyWhatTheTableSays | src/isa/opcode.cpp:13-55 | Two states that agree on what the table says is read give the same results and carry the rest over |
| FlowProof.LivenessIsExact | src/optimizer/optimizer.cpp:112-256 | The solved liveness of a point is true exactly when some path of the control-flow graph from it reads FLAGS, or leaves what is known, before writing FLAGS |
| FlowProof.LeastSolution | src/optimizer/optimizer.cpp:201-230 | The solution reached is below every other solution of the equations |
| ControlFlowGraph.ControlFlow.constructor | src/optimizer/optimizer.cpp:104-108 | The graph object ends up linked, with every successor in range and the liveness equations solved and justified |
| ControlFlowGraph.ControlFlow.SplitBlocks | src/optimizer/optimizer.cpp:132-153 | Blocks tile the section with nothing but labels between them; labels lead to the block that follows |
| ControlFlowGraph.ControlFlow.LinkSuccessors | src/optimizer/optimizer.cpp:165-199 | Each block gets exactly the successors its last instruction allows |
| ControlFlowGraph.ControlFlow.ComputeFlagLiveness | src/optimizer/optimizer.cpp:201-230 | The fixpoint loop terminates and solves the equations |
| ControlFlowGraph.ControlFlow.FlagsDeadAfter | src/optimizer/optimizer.cpp:114-130 | The query is true exactly when no path from behind the instruction needs FLAGS |
| ControlFlowGraph.BlockIndexOutOfRangeIff | src/optimizer/optimizer.cpp:132-153 | A label gets the index one past the last block exactly when nothing but labels follows it |
| ControlFlowGraph.GraphInRangeIff | src/optimizer/optimizer.cpp:132-230 | The liveness loop stays in bounds on the linked graph exactly when no followed branch goes to a label with nothing but labels behind it |
| PassLoops.RemoveUnreachable | src/optimizer/optimizer.cpp:325-348 | The loop marks exactly the unreachable instructions and counts them |
| PassLoops.ReplacePairs | src/optimizer/optimizer.cpp:350-377 | The loop rewrites and marks exactly the pairs a left-to-right scan meets |
| PassLoops.DropJumps | src/optimizer/optimizer.cpp:379-404 | The loop marks exactly the jumps to what follows them |
| PassLoops.FoldConstants | src/optimizer/optimizer.cpp:406-494 | The loops over blocks and items compute the folded section, which `PassMeaning.FoldMeans` describes without them |
| PassLoops.FoldInstruction | src/optimizer/optimizer.cpp:410-493 | One instruction updates the constant map and is folded if its value is known, fits, and its FLAGS are dead (`PassMeaning.FoldMeans`, `PassMeaning.ConstantsMean`) |
| PassLoops.RemoveIdentities | src/optimizer/optimizer.cpp:496-520 | The loop marks exactly the self-moves and NOPs, and counts them |
| PassLoops.RemoveDeadStores | src/optimizer/optimizer.cpp:522-560 | The loop, which changes the marks it reads, still marks exactly the stores dead under the marks it started from |
| PassLoops.IsOverwritten | src/optimizer/optimizer.cpp:540-557 | The inner scan decides whether a register is written before it is read in the rest of the block |
| PassLoops.Compact | src/optimizer/optimizer.cpp:562-570 | The loop keeps exactly the unmarked items, in order |
| Optimizer.RunPasses | src/optimizer/optimizer.cpp:320-573 | All passes over shared marks, compacted once, compute one round, and report a change exactly when there is one; `FixedPoints.NothingLeftIff` says when there is none |
| Optimizer.OptimizeSection | src/optimizer/optimizer.cpp:308-318 | Wherever the liveness loop stays in bounds in every round, the early exit is harmless: the result is that of all eight rounds; instructions gone are exactly those reported, labels and data stay |
| Optimizer.Run | src/optimizer/optimizer.cpp:294-306 | Every code section is optimized, no other is touched, and before minus after is identities plus dead stores plus unreachable plus peepholes |
| Optimizer.FixedPointReached | src/optimizer/optimizer.cpp:308-318 | Without the cap a fixed point is reached within as many rounds as the section weighs |
| Optimizer.SettledStaysInside | src/optimizer/optimizer.cpp:132-230 | A section with something anchoring behind every branch target keeps the liveness loop in bounds for any number of rounds |
| NestedPairs.RoundsReachFixedPointIff | src/optimizer/optimizer.cpp:309-317 | For every section of PUSH and POP in any order, matching ones naming the same register, some number of rounds reaches a fixed point exactly when no balanced stretch of it nests deeper than that number |
| NestedPairs.CapReachesFixedPointIff | src/optimizer/optimizer.cpp:309-317 | For n nested PUSH/POP pairs, the eight rounds reach a fixed point exactly when n is at most eight, against the comment that the passes converge |
| NestedPairs.SmallSectionsConverge | src/optimizer/optimizer.cpp:309-317 | The eight rounds reach a fixed point on every section that weighs at most eight |
| Brackets.RoundsReduceIff | src/optimizer/optimizer.cpp:350-377 | Taking off adjacent pairs for k rounds leaves nothing to take off exactly when no stretch nests deeper than k |
| Brackets.PeakFalls | src/optimizer/optimizer.cpp:350-377 | One round lowers every peak of the stack depth by exactly one |
| NestedPairs.StackRound | src/optimizer/optimizer.cpp:320-573 | A whole round over such a section takes off exactly its adjacent pairs |
| Accounting.PassCounts | src/optimizer/optimizer.cpp:294-306 | A round removes exactly the marked instructions and keeps the sequence of labels and data items |
| Accounting.PassWeight | src/optimizer/optimizer.cpp:308-318 | A round that changes anything makes the section strictly lighter, counting one for the load of a constant and two for any other instruction; otherwise it leaves the section alone |
| SettledSections.PassKeepsSettled | src/optimizer/optimizer.cpp:132-199 | If every followed label has a terminator or data behind it, that stays so after a round: the graph never indexes past its blocks |
| SettledSections.UnsettledExample | src/optimizer/optimizer.cpp:141-149 | Without that, a round can turn an accepted section into one whose branch leads past the last block |
| Alu.CompareThenBranch | src/isa/semantics.cpp:212-235 | After CMP the six conditional branches decide exactly the signed 64-bit order |
| AluMeaning.AddMeans | src/isa/semantics.cpp:85-88 | ADD: the sum modulo 2^64, congruent to the signed sum and equal to it unless OF; CF, OF, ZF and SF by their integer meaning |
| AluMeaning.SubMeans | src/isa/semantics.cpp:89-92 | SUB: the difference modulo 2^64, congruent to the signed difference and equal to it unless OF; all four flags |
| AluMeaning.AddSubInverse | src/isa/semantics.cpp:85-92 | SUB undoes ADD and ADD undoes SUB |
| AluMeaning.MultiplyMeans | src/isa/semantics.cpp:93-102 | MUL: the low 64 bits of the product, signed or unsigned; CF when the unsigned product is longer, OF clear |
| AluMeaning.DivideMeans | src/isa/semantics.cpp:103-122 | DIV and MOD: the division law on the two results, rounded toward zero, INT64_MIN / -1 included; CF and OF clear |
| AluMeaning.LogicMeans | src/isa/semantics.cpp:123-128 | AND, OR and XOR: every bit of the result by the bits of the operands; CF and OF clear |
| AluMeaning.ShiftLeftMeans | src/isa/semantics.cpp:129-137 | SHL: multiplication by 2^(b mod 64) modulo 2^64; CF the last bit shifted out |
| AluMeaning.ShiftRightMeans | src/isa/semantics.cpp:138-146 | SHR: division by 2^(b mod 64); CF the last bit shifted out |
| AluMeaning.ShiftArithmeticMeans | src/isa/semantics.cpp:147-162 | SAR: signed division by 2^(b mod 64), rounded down; CF the last bit shifted out |
| AluMeaning.CompareMeans | src/isa/semantics.cpp:163-166 | CMP: no value; FLAGS of the difference, with SF different from OF exactly when less as signed words |
| AluMeaning.TestMeans | src/isa/semantics.cpp:167-170 | TEST: no value, FLAGS of AND |
| AluMeaning.IncrementMeans | src/isa/semantics.cpp:178-181 | INC: one up, OF at the end of the signed range, CF at the end of the unsigned one |
| AluMeaning.DecrementMeans | src/isa/semantics.cpp:182-185 | DEC: one down, OF at the start of the signed range, CF at the start of the unsigned one |
| AluMeaning.NegateMeans | src/isa/semantics.cpp:186-189 | NEG: the negative modulo 2^64, OF only for INT64_MIN, CF unless zero |
| AluMeaning.NotMeans | src/isa/semantics.cpp:190-192 | NOT: every bit flipped, FLAGS left alone |
| AluMeaning.BinarySucceeds | src/isa/semantics.cpp:83-174 | Exactly the thirteen binary opcodes evaluate, and only a division by zero fails |
| Alu.OverflowMeansSignedOverflow | src/isa/semantics.cpp:27-48 | OF is set exactly when the signed result does not fit |
| Alu.MultiplyCarry | src/isa/semantics.cpp:93-101 | MUL sets CF exactly when the true product needs more than 64 bits |
| Alu.DivisionLaw | src/isa/semantics.cpp:103-121 | DIV and MOD satisfy a = b * q + r modulo 2^64 with |r| < |b| and the sign of a, including the most negative word over -1 |
| Alu.ArithmeticShiftIsFloorDivision | src/isa/semantics.cpp:147-161 | SAR is signed floor division by a power of two |
| Alu.ShiftCountIsLowSixBits | src/isa/semantics.cpp:129-161 | Shift counts are taken modulo 64 |
| Alu.FlagsStayInMask | src/isa/semantics.cpp:27-48 | Every ALU result keeps FLAGS within its four bits |
| ByteOrder.StoreBytes | include/minitool/common/byte_order.hpp:21-28 | The loop writes the little-endian bytes and nothing else |
| ByteOrder.LoadBytes | include/minitool/common/byte_order.hpp:33-39 | The loop computes the little-endian value |
| ByteOrder.LoadAfterStore | include/minitool/common/byte_order.hpp:21-39 | Loading what was stored gives the value |
| ByteOrder.StoreAfterLoad | include/minitool/common/byte_order.hpp:21-39 | Storing what was loaded gives the bytes |
| Codec.DecodeEncode | src/isa/encoding.cpp:71-143 | Decoding an encoded instruction gives it back |
| Codec.EncodeDecode | src/isa/encoding.cpp:71-143 | Encoding a decoded word gives it back |
| Codec.AcceptedWords | src/isa/encoding.cpp:112-143 | Exactly the words that encode some instruction are accepted |
| InstructionTable.EncodedWord | src/isa/encoding.cpp:71-110 | An encoded instruction has its opcode in the top eight bits, its registers in the next two fields of four, and its immediate in two's complement in the low 48 |
| InstructionTable.EncodableIff | src/isa/encoding.cpp:71-110 | Exactly the instructions encode whose unused fields are zero and whose immediate fits |
| InstructionTable.OpcodeDescribed | docs/isa.md:127-164 | Every opcode has the number, the mnemonic and the format of its row in the specification, and the number of no other |
| Codec.EncodeInto | src/isa/encoding.cpp:145-156 | Writes exactly the eight bytes of the instruction, or nothing and the reason |
| Codec.BufferRoundTrip | src/isa/encoding.cpp:145-163 | What was encoded into a buffer is decoded from it, whatever follows |
| Codec.BufferReencodes | src/isa/encoding.cpp:145-163 | What is decoded from a buffer encodes to its first eight bytes |
| Codec.SignExtendMeans | include/minitool/common/byte_order.hpp:43-54 | Flip-and-subtract reads the low bits as two's complement |
| Codec.SignExtendTruncated | include/minitool/common/byte_order.hpp:43-63 | What fits the field survives truncation and extension |
| Codec.BranchesInverse | include/minitool/isa/encoding.hpp:72-82 | Target and displacement are inverse for all addresses, however they wrap |
| Crc.Crc32 | src/common/checksum.cpp:27-33 | The table-driven loop computes the bit-by-bit reflected division |
| Crc.MakeTable | src/common/checksum.cpp:11-23 | Each table entry is eight division steps of its index |
| Crc.BurstDetected | src/common/checksum.cpp:27-33 | Any change confined to four adjacent bytes changes the checksum |
| Crc.FrameCheck | src/common/checksum.cpp:27-33 | The checksum is what clause 3.2.9 says: the first 32 bits complemented, the whole divided by the generator, the remainder complemented |
| Crc.GeneratorIsStandard | src/common/checksum.cpp:13-20 | The generator has exactly the degrees of the clause |
| ObjectIo.WriteObjectToBuffer | src/object/object_io.cpp:35-138 | The append-and-patch writer produces exactly header, tables, strings and data as laid down |
| ObjectIo.ReadObjectFromBuffer | src/object/object_io.cpp:140-398 | The reader cursor computes the checked reading of the buffer; no record read is ever truncated |
| ObjectIo.ReadHeaderChecked | src/object/object_io.cpp:140-222 | The header checks in their order, with the 64-bit wrap-around of the layout sums |
| ObjectIo.StringTableBuilder.InternName | include/minitool/common/binary.hpp:77-88 | A name already interned keeps its offset; a new one is appended |
| ObjectIo.ReadName | include/minitool/common/binary.hpp:182-195 | The scan stops at the first NUL and never leaves the table |
| MobjCanonical.WriteBackIff | src/object/object_io.cpp:35-398 | Writing what was read gives the buffer back exactly when the buffer is canonical: padding zero, names interned in order of first use and used at those offsets, section data end to end, `defined` bytes 0 or 1 |
| MobjCanonical.PaddingIsIgnored | src/object/object_io.cpp:225-240 | Two different buffers are read as the same object |
| MobjProof.RoundTripIff | src/object/object_io.cpp:35-398 | Reading what was written gives the object back exactly when its names are unique and NUL-free, its alignments powers of two and its indices and fields in range |
| MobjLayout.AcceptedLayout | src/object/object_io.cpp:140-398 | Every file the reader accepts is laid out as the format says, field by field at its offset: header, records of the five tables, names in the string table, section data |
| MobjLayout.WrittenLayout | src/object/object_io.cpp:35-138 | So is every file the writer writes for a well-formed object, around that object |
| MobjLayout.PowerOfTwoIff | src/object/object_io.cpp:246-249 | The alignments that are accepted are the powers of two |
| MobjProof.AcceptedIsWellFormed | src/object/object_io.cpp:140-398 | Whatever bytes the reader accepts describe a well-formed object |
| MobjProof.InternMeans | include/minitool/common/binary.hpp:77-88 | Interning keeps every earlier name where it is |
| MobjProof.ReadNamed | include/minitool/common/binary.hpp:182-195 | A NUL-free name is read back from where it was interned |
| Assembler.AssemblyContext.Run | src/assembler/assembler.cpp:83-94 | The two passes in place compute the object, or the errors, of the specification; `AssemblyContents` and `AssemblyErrors` say what is in it and when there is one |
| Assembler.AssemblyContext.LayOut | src/assembler/assembler.cpp:122-153 | Pass 1 over one section |
| Assembler.AssemblyContext.ReferenceSymbol | src/assembler/assembler.cpp:198-215 | A reference keeps a known symbol, makes an unknown one external, and rejects an undefined local one |
| Assembler.AssemblyContext.EmitOneInstruction | src/assembler/assembler.cpp:265-293 | The relocation, the eight bytes or zeros, and the error |
| Assembler.AssemblyContext.EmitAll | src/assembler/assembler.cpp:218-263 | Pass 2 over one section appends the bytes that `AssemblyContents.ObjectHolds` describes and leaves the relocations of `AssemblyContents.ObjectRefers` |
| AssemblerProof.PassesAgreeIff | src/assembler/assembler.cpp:122-263 | The size-mismatch error is reported exactly when the section exceeds the address space; otherwise the passes agree at every item |
| AssemblerProof.LabelsPlaced | src/assembler/assembler.cpp:122-174 | A layout without errors places every label at its true position |
| AssemblerProof.RelocationPlaced | src/assembler/assembler.cpp:198-304 | The relocation of an item names the bytes, the symbol and the addend of that item |
| AssemblerProof.SitesApart | src/assembler/assembler.cpp:265-304 | Relocation sites lie inside their section, in increasing order and apart |
| AssemblerProof.BytesPlaced | src/assembler/assembler.cpp:265-293 | The encoded instruction stands at the true position of its item |
| AssemblyContents.ObjectHolds | src/assembler/assembler.cpp:218-262 | Section k of an assembled object holds, for every item, exactly its bytes where it stands: the encoded instruction, the data, so many copies of the fill, zeros up to the alignment, a zero placeholder of a symbol; and nothing else |
| AssemblyContents.BssHolds | src/assembler/assembler.cpp:251-258 | A section of zeros keeps its true size and no bytes |
| AssemblyContents.ObjectRefers | src/assembler/assembler.cpp:264-304 | Every item that names a symbol leaves a relocation at its place, of its type, with its addend and a symbol of that name |
| AssemblyContents.ObjectDefines | src/assembler/assembler.cpp:122-174 | Every label is a symbol of the object, defined at the place where the label stands |
| AssemblyContents.ObjectBinds | src/assembler/assembler.cpp:178-216 | Every symbol has the binding the module asks for: external, weak or global as declared, local with a label, external with only references |
| AssemblyContents.SourcesMean | src/assembler/assembler.cpp:102-119 | The sections assembled are those that carry anything, the first of each kind, in the fixed order |
| AssemblyErrors.AssemblesIff | src/assembler/assembler.cpp:83-98 | A module assembles exactly when no two labels share a name, none is declared external, every reference to a file-scoped name has a label or a declaration, every instruction encodes, the section of zeros holds only zeros, and every other section is smaller than the address space |
| Symbols.PositionsStable | include/minitool/assembler/symbol_table.hpp:59-69 | Adding or replacing a symbol renumbers nothing |
| Symbols.NamesStable | include/minitool/assembler/symbol_table.hpp:74-82 | Finding or adding a name renumbers nothing and changes no existing symbol |
| Symbols.SymbolTable.AddSymbol | include/minitool/assembler/symbol_table.hpp:59-69 | The vector and the index stay consistent |
| Symbols.SymbolTable.FindOrAdd | include/minitool/assembler/symbol_table.hpp:74-82 | Returns the position the name keeps from then on |
| Relocations.PatchedFieldHolds | src/object/relocation.cpp:23-100 | A patched field holds S + A, S + A - P, or an instruction that differs only in its immediate and, for a branch, lands on S + A |
| Relocations.ApplyRelocation | src/object/relocation.cpp:42-100 | Patches the field or, on an error, leaves the buffer untouched |
| RelocationMeaning.AppliesIff | src/object/relocation.cpp:44-100 | A relocation applies exactly when its field is in bounds, its value fits and, for an instruction, the field is aligned, decodes and encodes with the value; otherwise it fails with the first of these that is wrong |
| Relocations.RelocatedAllMeans | src/object/relocation.cpp:42-100 | Relocations on disjoint fields: each holds the value computed on the original bytes, all others unchanged |
| LinkProof.RelocationsOfLink | src/linker/linker.cpp:268-323 | In every region each site holds its value computed on the merged bytes and every other byte is as merged |
| LinkProof.RelocationHolds | src/linker/linker.cpp:268-323 | Relocation by relocation: each site holds S + A, S + A - P or the displacement of a branch to S + A, for the address S that `LinkAddresses.RelocationReaches` places |
| LinkAddresses.RelocationReaches | src/linker/linker.cpp:268-323 | For any number of objects, every relocation leaves in its field, moved with its section, the value for the address its symbol refers to: the byte of its section that a local symbol names, or that the definition names which stands for the name, where the layout has put that section; 0 for a name nobody defines |
| LinkAddresses.DefinitionsPoint | src/linker/linker.cpp:198-262 | The address of every name is that of the byte named by the definition that stands: the first, unless it is weak and a strong one follows |
| LinkAddresses.AddressPoints | src/linker/linker.cpp:179-195 | The address of a symbol, less the base of its region, is where the byte of its section stands in the merged region |
| LinkAddresses.EntryAddress | src/linker/linker.cpp:326-336 | The entry of the image is the address of the entry symbol |
| LinkAddresses.SegmentsShow | src/linker/linker.cpp:338-351 | Every region that holds anything is shown by a segment at its base with its bytes, code executable and not writable, data writable; and no segment shows anything else |
| LinkLayout.LayoutOfLink | src/linker/linker.cpp:141-176 | Sections are placed in input order, apart, aligned and inside their region, with their bytes copied and zeros between |
| LinkLayout.AlignUpNoWrap | src/linker/linker.cpp:24-30 | Rounding up an offset inside a region never wraps |
| LinkResolution.SettleMeans | src/linker/linker.cpp:198-240 | A strong definition beats weak ones, the first weak one stands otherwise, two strong ones are an error |
| LinkResolution.LinkSettles | src/linker/linker.cpp:198-240 | The symbol loops of the linker compute that resolution |
| LinkOrder.LinkChecksIff | src/linker/linker.cpp:242-258 | The reference check of a link succeeds exactly when every undefined reference that is not weak is to a name that is defined or that an undefined weak reference, of any object, has named before it in link order |
| LinkOrder.EveryOrderIff | src/linker/linker.cpp:242-258 | Every order of the objects passes exactly when no object refers to an undefined name before any weak reference of its own to it |
| LinkOrder.NoOrderIff | src/linker/linker.cpp:242-258 | No order passes exactly when some objects block one another: each needs an undefined name that only they refer to weakly |
| LinkOrder.LinkOrderMakesNoDifferenceIff | src/linker/linker.cpp:198-258 | For a link whose definitions are fine in every order, the order of the objects makes no difference to whether its references resolve exactly in these two cases |
| LinkOrder.LinkDependsOnOrder | src/linker/linker.cpp:242-258 | Two objects, one with a defined entry in its code, link in one order and fail with an undefined symbol in the other |
| LinkLoads.LoadsIff | src/vm/vm.cpp:70-99 | An image loads exactly when it is valid and clear of stack and heap |
| LinkLoads.DefaultLinkLoads | src/linker/linker.cpp:326-381 | With the default bases every successful link loads |
| Linker.LinkContext.Run | src/linker/linker.cpp:68-86 | The four stages in place compute the image, or the first error, of the specification; `LinkLayout`, `LinkAddresses` and `LinkProof` say what is in it |
| Linker.LinkContext.MergeAll | src/linker/linker.cpp:141-176 | Stage 1 in place |
| Linker.LinkContext.ApplyRelocations | src/linker/linker.cpp:268-323 | Stage 3 in place |
| Linker.LinkContext.Build | src/linker/linker.cpp:326-381 | Stage 4 |
| Executables.ValidateImage | src/executable/executable.cpp:84-150 | The loops decide validity, first fault first |
| Executables.ValidImage | src/executable/executable.cpp:84-150 | Valid exactly when of the right version, non-empty, every segment sound, no two overlapping, every debug entry naming a source file, and the entry aligned and in executable memory |
| VmInvariant.WholeRunInvariant | src/vm/vm.cpp:70-312 | In every state after a load, faults included, SP is aligned inside the stack, FLAGS in its mask, regions are in place and every address fetches the same word as at load time |
| VmInvariant.StepKeeps | src/vm/vm.cpp:156-312 | One step keeps that, also when it faults |
| VmInvariant.LoadEstablishes | src/vm/vm.cpp:70-99 | Loading establishes it, and no executable region is writable |
| LoadMeaning.LoadMeans | src/vm/vm.cpp:70-99 | After a load PC is the entry, SP the top of an empty stack and everything else zero; memory is the segments where they say, with their bytes and permissions, a stack of 2^20 bytes and a heap |
| VmInvariant.StackMoves | src/vm/vm.cpp:125-154 | A step moves SP down a word at PUSH and CALL, up a word at POP and RET and not at all otherwise or at a fault |
| Vm.VirtualMachine.LoadProgram | src/vm/vm.cpp:70-99 | Loading in place; a failure keeps the CPU and the loaded mark over an address space that holds only what could be mapped |
| Vm.VirtualMachine.Step | src/vm/vm.cpp:156-194 | One step in place, state and fault |
| Vm.VirtualMachine.Execute | src/vm/vm.cpp:196-312 | One instruction in place, state and fault, as `MachineMeaning` describes each of them |
| MachineMeaning.ArithmeticEffect | src/vm/vm.cpp:290-311 | Arithmetic takes the two registers, leaves value and FLAGS of the ALU in the first and in FLAGS, and traps on a division by zero |
| MachineMeaning.LoadEffect | src/vm/vm.cpp:233-241 | LOAD puts the word whose bytes stand at source plus displacement into the destination and changes nothing else; it faults exactly when there is no readable word there |
| MachineMeaning.StoreEffect | src/vm/vm.cpp:242-249 | STORE puts the bytes of the source at destination plus displacement and changes nothing else |
| MachineMeaning.PushEffect | src/vm/vm.cpp:250-268 | PUSH and CALL put a word, CALL the address behind it, eight below SP; CALL goes to its target |
| MachineMeaning.PopEffect | src/vm/vm.cpp:252-276 | POP and RET take the word at SP, into a register or into PC |
| MachineMeaning.JumpEffect | src/vm/vm.cpp:282-288 | A branch is taken on its condition over ZF, SF and OF and goes to the address behind it plus the displacement |
| MachineMeaning.MoveEffect | src/vm/vm.cpp:226-232 | MOV copies a register, MOVI and LEA load the sign-extended immediate |
| MachineMeaning.StepMeans | src/vm/vm.cpp:156-194 | A step executes the instruction whose word stands at PC, with PC moved behind it |
| MachineMeaning.StepFails | src/vm/vm.cpp:156-194 | It faults when PC is not aligned, nothing executable stands there, or the word is no instruction |
| Vm.VirtualMachine.Run | src/vm/vm.cpp:314-347 | Ends without an error exactly when the machine halts within the budget, out of budget in the state after that many steps, and with a fault in the state the faulting step leaves |
| Vm.VirtualMemory.MapRegion | src/vm/memory.cpp:46-69 | Maps a region unless it is empty, wraps or overlaps |
| Vm.VirtualMemory.WriteWord | src/vm/memory.cpp:159-169 | Writes eight bytes of one region, or nothing and the reason |
| Vm.VirtualMemory.ReadWord | src/vm/memory.cpp:127-143 | Reads eight bytes of one region with the permission asked for |
| Memory.ReadAfterWrite | src/vm/memory.cpp:127-169 | A word read right after it was written is that word |
| Memory.RegionAtUnique | src/vm/memory.cpp:76-83 | In a disjoint memory the first region at an address is the only one |
| MemoryMeaning.ReadMeans | src/vm/memory.cpp:127-151 | Reading or fetching gives exactly the word whose bytes stand there in a region that allows it; each fault has its cause |
| MemoryMeaning.WriteMeans | src/vm/memory.cpp:159-169 | Writing succeeds exactly when a writable region takes the bytes, puts them there and changes nothing else |
| MemoryMeaning.AddRegionMeans | src/vm/memory.cpp:46-69 | A region is mapped exactly when it is not empty, does not wrap and meets no other, with its bytes and zeros behind them |
| MemoryMeaning.BlocksApart | src/vm/memory.cpp:200-218 | However many blocks are allocated one after the other, none larger than the end address of the heap, they lie in the heap, in order and apart |
| MemoryMeaning.AllocateMeans | src/vm/memory.cpp:200-218 | A block is handed out at the pointer, which moves behind it, exactly when it fits |
| Memory.AllocatedBlockInsideHeapIff | src/vm/memory.cpp:200-218 | The block handed out lies in the heap exactly when the rounded size is at most the end address of the heap |
| Memory.AllocateHugeSucceeds | src/vm/memory.cpp:212 | Asking a small heap for 2^63 bytes succeeds |
| Syscall.UnusedArguments | src/vm/syscall.cpp:39-129 | A call depends on no register beyond its arguments |
| MachineMeaning.WriteCallMeans | src/vm/syscall.cpp:56-82 | Call 1 appends the bytes at the address to the output for descriptor 1 and to the error output for 2, and is refused otherwise |
| MachineMeaning.ReadCallMeans | src/vm/syscall.cpp:84-114 | Call 2 takes as much input as there is and is asked for, and puts it at the address |
| MachineMeaning.SyscallEffect | src/vm/vm.cpp:213-225 | SYSCALL passes R1 to R3, puts what is returned into R14, halts if the call says so and traps if it is refused |
| Debugger.StepOverReturns | src/debugger/debugger.cpp:230-265 | Stepping over a call, recursion included, stops in the first state with the stack back, reached by RET, and in no earlier one, behind the call and with SP as before |
| DebuggerRuns.RunStops | src/debugger/debugger.cpp:199-228 | `run` stops in the first state of the machine's own run with something to stop for: an enabled breakpoint at PC, whose id alone has its hits raised, a halt, a fault, the first step after which a watched word is not the recorded one, or the end of the budget |
| DebuggerRuns.StopIsUnique | src/debugger/debugger.cpp:199-228 | There is only one such state |
| DebuggerRuns.RunStopsAtBreakpoint | src/debugger/debugger.cpp:204-219 | An enabled breakpoint that is come to first stops the run before its instruction |
| DebuggerRuns.StepOverMeans | src/debugger/debugger.cpp:230-265 | Stepping over a call stops in the first step after which the call has returned, a breakpoint is at PC, or there is something to report; anything else is a single step |
| DebuggerRuns.SingleStepMeans | src/debugger/debugger.cpp:150-190 | A single step reports a halt, a fault, or the first watchpoint whose word has changed, which then records the word |
| Debugger.BackExactly | src/debugger/debugger.cpp:245-260 | The first state with the stack no deeper than before the call has it exactly there |
| Debugger.Debug.DoStepOver | src/debugger/debugger.cpp:230-265 | The loop in place computes the specified stop |
| Debugger.Debug.DoSingleStep | src/debugger/debugger.cpp:170-190 | One step with watchpoints, in place |
| Debugger.Debug.DoRun | src/debugger/debugger.cpp:199-228 | Continuing in place stops where `DebuggerRuns.RunStops` says, with the breakpoint it is parked on passed once |
| Listings.PrintReadIff | src/isa/encoding.cpp:165-199 | For every encodable instruction, lexing, parsing, checking and lowering what is printed gives the instruction back exactly when it is no branch; the printed form of a branch is refused |
| Listings.ListingRoundTrip | src/isa/encoding.cpp:165-199 | The same for listings of any length, one instruction to a line |
| Listings.PrintingIsInjective | src/isa/encoding.cpp:165-199 | Different instructions that are no branches print differently |
| Listings.ListingIsPlain | src/isa/encoding.cpp:165-199 | Every listing is within what the lexer is modelled for, so the round trip is one it makes |
| Listings.ReadText | src/parser/parser.cpp:110-124 | The lexer, the parser, the checks and the lowering, run on a text, give exactly that reading of it |
| Listings.PrintedTokens | src/lexer/lexer.cpp:102-225 | Lexing a printed instruction in front of any text that does not continue its last word gives its tokens and those of the text |
| Listings.OperandsParse | src/parser/parser.cpp:188-390 | Parsing the tokens of printed operands gives the operands |
| Listings.LowersBack | src/ir/lower.cpp:164-227 | Lowering them gives the instruction, and the checks accept it |
| Lowering.AcceptedEncodesIff | src/assembler/sema.cpp:117-206 | What semantic analysis accepts encodes, its symbol aside, exactly when a displacement it may have fits the field, which is the one operand that is not checked |
| Lowering.AcceptsIff | src/assembler/sema.cpp:117-206 | Exactly the names of opcodes with operands of their shape and immediates in range are accepted |
| Lowering.LoweredMeans | src/ir/lower.cpp:164-227 | Lowering gives the opcode of the name, the registers of the first and second operand, the name and addend of a symbol with a zero immediate, or the number of an immediate or displacement |
| Lowering.LongDisplacement | src/assembler/sema.cpp:166-177 | A load from a displacement of 2^47 is accepted but does not encode |
| Lowering.Lowerer.LowerInstruction | src/ir/lower.cpp:164-227 | Lowering appends exactly the instruction, or fails outside .text |
| Lexing.Lexer.LexToken | src/lexer/lexer.cpp:102-152 | The cursor finds exactly the next token and stops behind it |
| Lexing.Lexer.LexNumber | src/lexer/lexer.cpp:165-225 | The digits, base and sign are read as the definition says, and what does not fit 64 bits is malformed |
| Literals.LiteralMeans | src/lexer/lexer.cpp:165-225 | A literal in base 2, 8, 10 or 16, with or without a sign, has the value of its digits times the powers of the base of their places, and is malformed exactly when that does not fit a signed word |
| Literals.CommentSkipped | src/lexer/lexer.cpp:85-100 | A comment up to the end of its line is skipped |
| Lexing.Lexer.Peek | src/lexer/lexer.cpp:60-66 | Peeking changes nothing of what is to come |
| Parsing.Parser.Peek | src/parser/parser.cpp:54-68 | The lookahead buffer holds the next tokens that are not malformed |
| Parsing.Parser.Advance | src/parser/parser.cpp:70-78 | Advancing takes the first one and shifts the rest |
| Parsing.Parser.ParseMemoryOperand | src/parser/parser.cpp:351-390 | A memory operand is read as the grammar says |
| Parsing.Parser.ParseOperandList | src/parser/parser.cpp:188-209 | A list of operands is read as the grammar says; a trailing comma is an error |
| Parsing.Parser.ParseOneLine | src/parser/parser.cpp:126-186 | A line gives the statements of the grammar, or is reported |
| Parsing.Parser.Parse | src/parser/parser.cpp:110-124 | A text gives its program exactly when no token and no line of it is malformed |
| GrammarProof.ProgramReads | src/parser/parser.cpp:110-390 | Every program, labels, instructions and directives with operands of every kind and addends of either sign, is what parsing its tokens gives |
| Spelling.MnemonicFoundIff | src/isa/opcode.cpp:96-108 | The lookup finds an opcode exactly for its own name in either case |
| Spelling.RegisterRoundTrip | src/isa/registers.cpp:21-56 | The name of a register is parsed as that register |
| Literals.RegisterFoundIff | src/isa/registers.cpp:28-56 | A word is a register exactly when it is one of the sixteen names, FP for R13 or RV for R14, in either case |

## Left out

- OptimizerProof.OptimizerPreserves: speaks of runs that halt. A run that faults may fault later or elsewhere after optimization, since removing a PUSH/POP pair can hide a stack overflow and removing a dead store changes registers seen at a fault. FLAGS are not compared, because folding drops dead FLAGS writes.
- Ir.ExecuteReadsOnlyWhatTheTableSays: code addresses as numbers are outside the semantics: computing with them, comparing them, passing them to a system call or storing them in data memory is stuck, and so are literal branch displacements and non-zero addends on labels of the section. A program that does these things is not covered.
- Compiler.BackEndSimulation: covers modules with one code section, so data memory is the heap; a program that reads its own code or the stack region through LOAD is stuck in the IR and not covered. Sections of data, and symbols of other objects, are covered by the assembler and linker theorems only.
- BackEnd.StepMatches: one direction; that the machine faults where the IR is stuck is not claimed.
- FixedPoints.NothingLeftIff: what one round does to a section in which it finds something is said pass by pass (`PassMeaning`), each on what the passes before it leave.
- MemoryMeaning.BlocksApart: blocks larger than the end address of the heap are excluded, since their size slips past the wrapped comparison (`Memory.AllocatedBlockInsideHeapIff`).
- LinkAddresses.RelocationReaches: speaks of links that succeed. When a link succeeds is stated stage by stage (`LinkOrder.LinkChecksIff`, `RelocationMeaning.AppliesIff`, `LinkResolution.SettleMeans`), not in one condition.
- Optimizer.Run: sections are distinct objects, labels are unique within a code section, which the assembler would reject otherwise, and the liveness loop stays in bounds in every round, since what happens outside is undefined.
- Syscall.UnusedArguments: output is collected and input consumed from a buffer, as in the capturing provider; standard streams are not part of this model, and input consumed by a READ whose write then faults is not tracked.
- Codec.DecodeEncode: register fields are always in range; an out-of-range register number cast into an instruction, and the error for it, are not modelled.
- Vm.VirtualMachine.Run: the text of errors is not modelled; the step count is 64 bits wide, the budget is a number.
- Assembler.AssemblyContext.Run: source locations, the debug line table, symbol sizes and symbol types are not modelled; a `.bss` section drops its bytes as in the source.
- Linker.LinkContext.Run: the symbol list and the debug table of the executable are not modelled; they do not affect what runs.
- Linker.LinkContext.Build: the same; the executable it builds has an empty debug table.
- ObjectIo.WriteObjectToBuffer: requires that the section data of the object fits the address space of the host, which any object in memory does; the version field is the constant it always is.
- Crc.BurstDetected: longer bursts are detected only with high probability, which is not stated.
- Debugger.StepOverReturns: assumes that nothing stops the run on the way; `DebuggerRuns.StepOverMeans` does not. Setting and removing breakpoints and watchpoints, `finish`, command parsing, formatting and the backtrace heuristic are not modelled.
- Lexing.Lexer.LexToken: string and character literals are not modelled; texts are without quotes. Neither are locations and the text of errors.
- Lowering.Lowerer.LowerInstruction: lowering of directives and labels is not modelled; of semantic analysis only the checks of instructions are.
- NestedPairs.RoundsReachFixedPointIff: a pair whose PUSH and POP name different registers becomes a move and stays, so how deep such a section nests does not decide how many rounds it needs.
- LinkOrder.LinkOrderMakesNoDifferenceIff: speaks of references; that padding between sections can make a region too large in one order and not in another is not covered.
- Compiler.OptimizedImageFinishesAlike: assumes that both forms assemble, link and load; `EndToEnd.WellMadeSectionsFinishAlike` proves it for well-made sections at the default bases.
- The `.mexe` format, which has the shape of `.mobj`.
- The command line, the playground, diagnostics and real files.
