# Verified model of the ARM assembler, linker, virtual machine and heap

The program modelled here assembles ARMv7 source into bytes, links them in a second pass, runs them on
an interpreter, and gives the guest a heap. This project models those four parts and proves that they
fit together.

The central result is that assembling preserves meaning. A source program is a list of parsed items:
labels, instructions, data, `.set`, `.globl`, alignment. Module `Asm` gives every instruction a
reference meaning on integers, bytes and target addresses, with no instruction word in sight.
`Program.RunSimulates` says that the interpreter, started on the assembled and linked bytes, makes
exactly the steps of that source program for any run that does not overwrite its instructions. It joins three
independently written pieces of bit arithmetic: the encoder (`Encoder`), the relocation of pending
references (`Encoder`, `Assembler`), and the decoder with its chain of overlapping masks (`Machine`).

On top of it stand a complete correctness theorem for the example program's `_sum_array`
(`SumRun.SumArrayRuns`), the position-independent address idiom (`Idiom.PositionLoaded`), the
independence of a compilation from earlier ones (`Reload.ReloadIndependent`), and the path from source
to final state through the compiler and VM classes (`EndToEnd.LoadAndCall`). Encoder and interpreter share
the fields, codes and tables of the instruction set; what these denote is stated apart from both, as
integer comparisons, quotients, digits and words written out (`Effects`, `Shifts`, `Encodings`,
`Contents`). The heap's headers are
proved safe over every sequence of allocations and releases with the merge it intends
(`HeapRun.HeapSafe`), and the release as it is written is characterised exactly
(`HeapStore.FreeWrittenSound`, `HeapRun.CarefulSafe`).

## How it is organised

| modules | contents |
|---|---|
| `Words`, `BitFacts`, `Options`, `Finite` | 32-bit words as integers and as bit-vectors, the bijection between them, and counting |
| `Machine`, `Handlers`, `Vm` | the interpreter as functions of a state, and as a class updated in place |
| `Asm`, `Encoder`, `PackingProof`, `Shifts`, `Encodings` | instructions and their meaning; the encoder; packed immediates; results and shifts as quotients and binary digits; words written out |
| `Decode`, `DecodeTransfer`, `DecodeHalf`, `BlockProof`, `DecodeMisc`, `Relocate`, `Agreement` | encode then execute is the meaning, class by class |
| `Expr`, `Symbols`, `Nesting` | expression text, symbol lookup, and when nested lookups return |
| `Assembler`, `Layout`, `Reload`, `Compiler` | the two passes as functions, what linking changes, stale tables, and the compiler as a class |
| `Program`, `Contents`, `Buildable`, `Idiom`, `Effects`, `Stack`, `Widths`, `SumArray`, `SumRun`, `EndToEnd` | whole programs, what stands in them and where they start, and guest code |
| `Arithmetic`, `Departures`, `Flags`, `TwoOperandForms` | 64-bit arithmetic, and exactly when each departure from the ARM shows |
| `Heap`, `HeapStore`, `HeapRun` | blocks, headers, the allocator as a class, and runs of it |

Registers, addresses and positions are integers below 2^32; every wrap-around is written out.
Instruction words are `bv32`, memory is a sequence of bytes. The functions of `Machine` are total; the
methods of `Vm.VM` demand that a guest access lies in memory and that a shift is by less than 32,
where the C code would otherwise be undefined.

Where the code departs from its comments or from the ARM architecture, the model follows the code.
Comments at `armvm/vm.h:86-87` give SBC and RSC a `- 1` that the code does not have. The handler for
`MASK_LDRSBI` (`armvm/armvm.c:426-430`) is never reached: every word with that mask also has
`MASK_LDRSB`. `docs/assembly-reference.md:61` promises that the `s` suffix sets N, Z, C and V; seven
operations set none (`Flags.FlagsDepart`). `docs/architecture.md:88` says a branch strips a leading underscore; the code skips the
first character whatever it is.

## Model

| member | source | states |
|---|---|---|
| Program.RunSimulates | armvm/armvm.c:459-467 | n interpreter steps on the linked bytes equal n steps of the labelled source program, for every program that builds and every run that overwrites none of its instructions, its data being free, and visits only instructions with encodable constants and known targets within reach |
| Program.BuildsExactly | armvm/compiler.c:249-261 | an assembled source links exactly when it fits, its literals are within reach, and no reference's lookup reaches a cycle of definitions, on which the C code would not return |
| Program.StepSimulates | armvm/armvm.c:403-457 | one interpreter step on code that stands in memory is one step of the source program |
| Program.StepAtItem | armvm/armvm.c:403-406 | at the position of an instruction item whose word stands, the interpreter performs that instruction on its label's position, condition included |
| Program.CodeWord | armvm/compiler.c:249-261 | the linked word at an instruction's position is its encoding, relocated to the position its label names |
| Program.LabelMeansPosition | armvm/compiler.c:143-158 | a label defined once, local or exported before or after its definition, resolves to the position of its line |
| Program.InstrUnique | armvm/compiler.c:176-180 | no two instructions share a position |
| Contents.DataStands | armvm/compiler.c:294-310 | the bytes of every data line stand in the linked program at the line's position, and the next line follows them |
| Contents.AlignmentStands | armvm/compiler.c:263-272 | an alignment moves to the least multiple of 2^p not below its position, over zeros |
| Contents.EntryPoint | armvm/compiler.c:143-146 | the entry point is the position of the last line that defines `_main`, and 0 when none does |
| Contents.DefinitionMeans | armvm/compiler.c:202-207 | a name that is neither a label nor exported has the value of the text of its first `.set`, whenever its lookup returns |
| Contents.OpenLong | armvm/compiler.c:120-129 | a `.long` that resolves to nothing is all ones in the linked program |
| Contents.OpenInstruction | armvm/compiler.c:249-261 | a branch or transfer whose label does not resolve keeps its unpatched word, and an address instruction the word 1 |
| Agreement.EncodeThenExecute | armvm/armcomp.c:290-364 | dispatching the encoded word of any encodable instruction without a label has the instruction's reference meaning; no earlier mask claims it |
| Agreement.PatchedExecutes | armvm/armcomp.c:373-387 | a relocated branch, literal or address word has the instruction's meaning on its target whenever the target is within reach |
| Agreement.StepPerforms | armvm/armvm.c:403-457 | wherever an instruction's relocated word is found, fetch, condition check and dispatch perform that instruction |
| Encoder.PackImmediateLoop | armvm/armcomp.c:277-288 | the packing loop returns the packed word and reports exactly whether an 8-bit value was reached |
| PackingProof.PackingIsExact | armvm/armcomp.c:277-288 | packing succeeds exactly on even rotations of an 8-bit value, with the least count; on failure the value has been rotated a full turn |
| PackingProof.PackRoundTrip | armvm/armvm.c:200-205 | the interpreter reads back the constant that was packed, and the packed word stays within twelve bits |
| Decode.DataAgrees | armvm/armvm.c:207-214 | a data-processing word decodes to its condition, class, operands and flags, and compares change no register despite the unconditional write of Rd |
| Decode.FlagsMean | armvm/armvm.c:38-82 | the interpreter's flag tests are carry, no-borrow, signed overflow of a difference, and sign and zero of the result |
| Shifts.OperandIsShifted | armvm/armvm.c:181-198 | a written register operand is the product modulo 2^32 for LSL, the quotient rounded down for LSR and ROR, and the quotient of the signed values rounded down for ASR, by a constant or a register |
| Shifts.ShiftUnique | armvm/armvm.c:192-195 | at most one word is that product or quotient, so the value of the operand is determined |
| Shifts.ShiftExample | armvm/armvm.c:192-194 | -2 shifted right by one is -1 with `asr` and 2^31 - 1 with `lsr` |
| Shifts.ResultIs | armvm/armvm.c:23-35 | the results of all operations that write one: the logical ones digit by digit, the arithmetic ones modulo 2^32 with the carry read from the status |
| Shifts.ProductIs | armvm/armvm.c:335-345 | MUL and MLA leave the product, with the addend, modulo 2^32 in their destination |
| Encodings.CodeNumbers | armvm/vm.h:79-96 | the operations and shifts have the numbers 0 to 15 and 0 to 3 in the order of the instruction set |
| Encodings.SumWords | armvm/armcomp.c:322-364 | `add r0, r1, r2` and `adds r0, r1, r2` are the words 0xe0810002 and 0xe0910002 |
| Encodings.CompareWord | armvm/armcomp.c:341-363 | `cmp r4, r1` is 0xe1440001: the first operand in the Rn field, and no flag bit |
| Encodings.ConstantWord | armvm/armcomp.c:277-308 | `mov r0, #1` is 0xe3a00001 |
| Encodings.ConstantSign | armvm/armcomp.c:277-288 | a negated constant is packed as the negative number |
| Encodings.ShiftWord | armvm/armcomp.c:290-308 | `mov r0, r1, asr #1`, its field for the unused first operand included |
| Encodings.ShiftByRegisterWord | armvm/armcomp.c:290-308 | `mvneq r0, r1, lsl r2`, condition and register shift included |
| Encodings.TransferWords | armvm/armcomp.c:395-456 | an indexed load, a store with negative offset and writeback, and a post-indexed byte load, written out |
| Encodings.HalfWords | armvm/armcomp.c:310-320 | a halfword load with its split constant and a signed byte load, written out |
| Encodings.BlockAndProductWords | armvm/armcomp.c:458-543 | push, pop and the multiplies, written out |
| Encodings.ModeWords | armvm/armcomp.c:458-480 | the four block modes, written out |
| Encodings.HostCallWord | armvm/armcomp.c:610-615 | the call of host function 5 by `bl` is the word 0xeff80005 |
| Encodings.ExchangeAndTrapWords | armvm/armcomp.c:545-559 | `bx lr` and `trap`, written out |
| Encodings.BranchWords | armvm/armcomp.c:592-623 | `beq` and `bl` as they are before linking |
| Encodings.LiteralWord | armvm/armcomp.c:395-456 | `ldr r0, label` as it is before linking |
| DecodeTransfer.TransferAgrees | armvm/armvm.c:236-260 | word and byte transfers with every offset form, sign and indexing load or store exactly the named bytes and update the base |
| DecodeTransfer.MergeIsReplace | armvm/armvm.c:249-252 | the whole-word read-modify-write replaces the low part and keeps the rest |
| DecodeTransfer.ByteStored | armvm/armvm.c:249-252 | STRB through a word write changes exactly one byte |
| DecodeTransfer.HalfStored | armvm/armvm.c:274-280 | STRH through a word write changes exactly two bytes |
| DecodeHalf.HalfLoadMeans | armvm/armvm.c:271-276 | OR-ing in the sign fill is sign extension of the byte or halfword |
| DecodeHalf.HalfAgrees | armvm/armvm.c:262-285 | assembled halfword and signed transfers do what they say, in every offset form and indexing |
| BlockProof.BlockIsContiguous | armvm/armvm.c:287-312 | the sixteen-step loop, in all four modes, puts the k-th lowest listed register at the k-th lowest word of one block fixed by mode and list size, and moves the base by 4 times that size |
| DecodeMisc.BlockAgrees | armvm/armcomp.c:458-480 | assembled LDM and STM words are that block transfer |
| DecodeMisc.MultiplyAgrees | armvm/armcomp.c:482-511 | assembled MUL and MLA words multiply the registers written and are claimed by no earlier mask |
| DecodeMisc.LongAgrees | armvm/armcomp.c:513-543 | assembled long multiplies write the two destinations from the two factors |
| DecodeMisc.BareIsZeroOffset | armvm/armcomp.c:429-437 | `[rn]` alone is encoded as `[rn, #0]`, in the word, byte, halfword and signed forms |
| Relocate.BranchAgrees | armvm/armcomp.c:561-572 | a patched branch lands on T if and only if T-4-P fits 24 signed bits modulo 2^32, wrap-around included |
| Relocate.LiteralAgrees | armvm/armcomp.c:373-387 | a patched literal transfer accesses its target for every distance the assertion allows |
| Relocate.LiteralReachIs | armvm/armcomp.c:373-387 | the assertion of the relocation allows exactly the targets less than 4096 bytes from the instruction's r15 |
| Relocate.AddressAgrees | armvm/armcomp.c:640-653 | a patched address instruction computes its target if and only if the distance fits eight bits |
| Vm.TwoShiftsRotate | armvm/armvm.c:200-205 | the two shifts of the immediate decoder are a rotation by twice the count, zero included |
| Vm.VM.CalcImmediate | armvm/armvm.c:200-205 | the decoded immediate is the rotated low byte |
| Vm.VM.LoadPtr | armvm/armvm.c:216-219 | reads the little-endian word at an address |
| Vm.VM.StorePtr | armvm/armvm.c:221-224 | writes the little-endian word at an address and nothing else |
| Vm.VM.Adds | armvm/armvm.c:38-46 | the exact sum stands in the result and the carry flag, and the rest of the status register is kept |
| Vm.VM.Subs | armvm/armvm.c:48-56 | the exact difference stands in the result and the borrow, and afterwards fourteen condition codes compare the operands, unsigned, signed, or by sign and range of the difference |
| Vm.VM.Operate | armvm/armvm.c:104-142 | the table entry of every operation's opcode gives the operation's reference result and flags, the comparisons returning r0 |
| Vm.VM.ExecDataProcessing | armvm/armvm.c:207-214 | on the word of any data-processing instruction, the state updated in place is the instruction's reference meaning |
| Vm.VM.ExecDataTransfer | armvm/armvm.c:236-260 | on the word of any word or byte transfer, the state updated in place is the instruction's reference meaning |
| Vm.VM.ExecHalf | armvm/armvm.c:262-285 | on the word of any halfword or signed transfer, the state updated in place is the instruction's reference meaning |
| Vm.VM.ExecBlockDataTransfer | armvm/armvm.c:287-312 | the in-place loop reaches the state of the recursive block transfer, and on the word of any LDM or STM that is the contiguous transfer |
| Vm.VM.ExecBranchWithLink | armvm/armvm.c:316-328 | on any branch word patched for a target within reach, executed where it was patched, the location is the target and lr the next instruction |
| Vm.VM.ExecMul | armvm/armvm.c:335-354 | on the word of any MUL or MLA, the state updated in place is the instruction's reference meaning |
| Vm.VM.ExecUmul | armvm/armvm.c:356-396 | on the word of any long multiply, the state updated in place is the instruction's reference meaning |
| Vm.VM.Exec | armvm/armvm.c:411-456 | the first mask that fits decides the handler, in the order of the source, and every word does what the instruction it spells means |
| Vm.VM.ExecInstruction | armvm/armvm.c:403-457 | one instruction in place is one `Step`; where an instruction's relocated word stands, that instruction is performed |
| Vm.StartIs | armvm/armvm.c:459-462 | a call starts with all ones in r0 to r12, the program's size in lr, and sp, memory and status as they were |
| Vm.VM.Reset | armvm/armvm.c:459-462 | the registers reset in place are those of the start of a call |
| Vm.VM.Execute | armvm/armvm.c:459-467 | the loop runs from the reset registers until the location leaves the program, and ends in the state of that many steps |
| EndToEnd.FinishHalts | armvm/armvm.c:459-467 | when the source program leaves its text after n steps, so does the interpreter, in the same state |
| EndToEnd.LoadAndCall | armvm/compiler.c:731-780 | compiled by the compiler class, loaded and called on the VM class with whatever registers and status were left, execution enters at the last `_main`, or at 0 without one, with the return address past the program, and a source that finishes after n steps ends in exactly the state of its own n steps |
| EndToEnd.EntryEnters | armvm/armvm.c:459-462 | the state a loaded program is called in: location at the entry point, lr at its end, sp above it, the linked bytes at the bottom of memory |
| EndToEnd.ReturnsAtOnce | armvm/armvm.c:459-467 | every program whose entry instruction is `bx lr` finishes after one step, exactly at its end |
| EndToEnd.SumReturns | examples/complex-app/complex.s:51-64 | a program whose entry is `_sum_array` leaves itself after seven steps with r0 = 0 and the stack pointer it was given |
| Expr.TextCursor.EvaluateHere | armvm/expr.c:4-25 | the evaluator's value and where it leaves the shared cursor |
| Expr.StrtolDecimal | armvm/expr.c:10 | a printed position is read back, sign included |
| Expr.DecimalExamples | armvm/compiler.c:228 | 4096 is printed as `4096`, and 0xfffffff6 as `-10` |
| Expr.Blanks | armvm/compiler.c:231 | the six white-space characters |
| Expr.ConstantValue | armvm/expr.c:10 | a written constant counts modulo 2^32 up to the largest 64-bit number, which every larger one becomes |
| Expr.OtherOperator | armvm/expr.c:14-25 | a number followed by a character that is no operator makes the value 0 |
| Expr.EvaluateDenotes | armvm/expr.c:4-25 | the evaluator computes the denotation of every right-nested expression with tail parentheses, whatever follows the last parenthesis |
| Expr.GroupsToTheRight | armvm/expr.c:18-21 | every expression is read with its operators grouped to the right, which is the usual value if and only if twice what is misread is 0 modulo 2^32 |
| Expr.DifferenceAndSum | armvm/expr.c:18-21 | `a-b+c` is read as the usual (a-b)+c if and only if c is 0 or 2^31 |
| Expr.TextAfterParenthesis | armvm/expr.c:6-17 | text after a closing parenthesis is not read; what it would have added is missed unless it is 0 together with the misreading inside |
| Expr.TermAfterParenthesis | armvm/expr.c:6-17 | `(a)+c` is right if and only if c is 0 |
| Symbols.NameStandsForPosition | armvm/compiler.c:211-243 | a reference that is only a name has the position of that name, or none |
| Symbols.NameCharacters | armvm/compiler.c:131-133 | names are made of ASCII letters, digits, `_`, `.` and `$`, none of them a blank or an operator |
| Symbols.BlankAfter | armvm/compiler.c:231-232 | a blank after a name does not change what is substituted |
| Symbols.SubstituteWritten | armvm/compiler.c:211-239 | substituting positions for names prints the expression of the positions, or fails exactly when a name is unknown |
| Symbols.PositionDenotes | armvm/compiler.c:211-243 | a written position expression, with constants of any size, resolves to its denotation, and is unresolved exactly when some name is |
| Nesting.ReturnsExactly | armvm/compiler.c:189-209 | a lookup nests at most f deep if and only if no chain of nested lookups is longer than f |
| Nesting.ReturnsIffAcyclic | armvm/compiler.c:189-243 | the recursion of a lookup returns if and only if it reaches no cycle of definitions, and then nests no deeper than there are definitions |
| Nesting.CycleNeverReturns | armvm/compiler.c:202-207 | a lookup that reaches any cycle returns at no depth |
| Nesting.LookupComplete | armvm/compiler.c:211-243 | the evaluation of a text returns if and only if reading it reaches no cycle, and then the model's bound gives what any larger one gives |
| Nesting.AllReturnExactly | armvm/compiler.c:249-261 | linking returns if and only if no reference reaches a cycle |
| Nesting.RankedAcyclic | armvm/compiler.c:319-331 | definitions that refer only to lower ones contain no cycle |
| Layout.EmitAllExtends | armvm/compiler.c:107-129 | pending references lie inside the file, strictly increasing and at least four bytes apart, and every prefix of the source is laid out as a prefix of the file |
| Layout.LinkKeeps | armvm/compiler.c:249-261 | linking changes no byte outside resolved references |
| Layout.LinkedWord | armvm/compiler.c:249-261 | every resolved reference holds exactly its relocated word after linking |
| Layout.LinkOrderIrrelevant | armvm/compiler.c:249-261 | any arrangement of the same references gives the same file |
| Layout.LinkIdempotent | armvm/compiler.c:249-261 | a second pass with the same tables changes nothing |
| Reload.ReloadIndependent | armvm/compiler.c:731-780 | file and entry point depend on the source and the host functions alone, provided every exported name the source refers to is defined |
| Reload.UndefinedGlobalStale | armvm/compiler.c:137-141 | an exported name that is never defined resolves to the position its slot held before |
| Reload.UndefinedGlobalShows | armvm/compiler.c:137-141 | in every source, a `.long` of such a name is that old position, and another history gives another file |
| Compiler.Compiler.FindPosition | armvm/compiler.c:190-201 | linear search finds the position of the first entry with the name |
| Compiler.Compiler.FindLabel | armvm/compiler.c:189-209 | labels before globals before definitions, by unbounded recursion that terminates whenever the lookup returns at some depth |
| Compiler.Compiler.GetPos | armvm/compiler.c:211-243 | the scanning loop builds the substituted text and evaluates it, terminating whenever the lookups return at some depth |
| Compiler.Compiler.AddGlobal | armvm/compiler.c:137-141 | a new slot with the name and whatever position it held |
| Compiler.Compiler.AddLabel | armvm/compiler.c:143-158 | the position goes to the exported slot if there is one, else to a new label, and the position of `_main`, and of nothing else, becomes the entry point |
| Compiler.Compiler.AddReference | armvm/compiler.c:107-114 | one unfilled reference at the end of the file, all others kept |
| Compiler.Compiler.AddLong | armvm/compiler.c:120-129 | a placeholder word and a reference to it |
| Compiler.Compiler.DoAlign | armvm/compiler.c:263-272 | zero bytes up to the least multiple of the alignment not below the position, none when already there |
| Compiler.Compiler.FindHost | armvm/armcomp.c:610-615 | the first host slot with the name |
| Compiler.Compiler.Process | armvm/compiler.c:163-184 | one source line changes file, references and tables as pass 1 says, data bytes going to the file as written, and fails exactly when the encoder yields no word |
| Compiler.Compiler.LinkProgram | armvm/compiler.c:249-261 | the unfilled references from a start index are patched in order and marked filled exactly when they resolve |
| Compiler.SecondPass | armvm/compiler.c:249-261 | a table linked once has nothing left to patch under the same names |
| Compiler.Compiler.CompileBuffer | armvm/compiler.c:507-563 | both passes: the file becomes the linked program and the entry point the last `_main`, or assembly fails, for every source whose lookups return |
| Compiler.Compiler.LoadBuffer | armvm/compiler.c:731-780 | for every source whose lookups return: after a reset, whatever the tables held, the file is the linked program and the entry point its last `_main`, 0 without one; with every exported name it refers to defined, it is the one clean tables give |
| Buildable.OnlyZeroFails | armvm/compiler.c:176-183 | exactly one instruction, `andeq r0, r0, r0` in its two spellings, has the word that means failure |
| Buildable.Pass1Fails | armvm/compiler.c:549-551 | pass 1 fails if and only if the source contains that instruction |
| Buildable.CodeBuilds | armvm/compiler.c:507-563 | a source of labels, exports, definitions and instructions without label transfers builds if and only if its instructions can be written and no reference reaches a cycle |
| Buildable.SumArrayAlone | examples/complex-app/complex.s:51-64 | `_sum_array` alone builds, under every host table without its two inner names |
| Idiom.LongWord | armvm/compiler.c:120-129 | a `.long` whose text resolves holds its value in the linked file |
| Idiom.PositionLoaded | armvm/compiler.c:211-243 | `ldr rX, L` / `P: add rX, pc, rX` with `L: .long S-(P+8)` leaves the position of S in rX in two steps, for every layout within literal range |
| SumArray.Positions | examples/complex-app/complex.s:51-64 | wherever the function stands, its instructions follow each other word by word |
| SumArray.CodeStep | examples/complex-app/complex.s:51-64 | the interpreter at instruction k of the function performs that instruction, branches going to the inner labels |
| SumRun.Iteration | examples/complex-app/complex.s:55-61 | one pass of the loop adds one element in six steps and keeps the rest of the state |
| SumRun.SumArrayRuns | examples/complex-app/complex.s:51-64 | in any program at any position, 7+6n steps leave the sum modulo 2^32 in r0, return to lr with r1 and r3 to r14 as they were, and change memory only in the twelve bytes below sp |
| Effects.ComparisonConditions | armvm/armvm.c:144-179 | after a flag-setting subtraction of any two words EQ, NE, CS, CC, HI, LS, GE, LT, GT and LE hold exactly when the integer comparison does, MI and PL give the sign of the difference, and VS and VC whether the signed difference fits a word |
| Effects.CodesMean | armvm/armvm.c:144-179 | what each of the sixteen condition codes asks of the four flags, MI of N, VS of V, and so on; the last two always hold |
| Effects.FlagPlaces | armvm/vm.h:44-47 | N, Z, C and V are the top four bits of the status in this order |
| Effects.FlagsKeep | armvm/armvm.c:38-92 | setting the flags changes no bit below them |
| Effects.TrapPasses | armvm/armvm.c:435-438 | a trap changes nothing but the location and r15, whatever its condition |
| Stack.StoreThenLoad | armvm/armvm.c:287-312 | a block store with writeback is undone by the block load in the reverse mode, for every list |
| Stack.PushThenPop | armvm/armcomp.c:713-726 | push with lr and pop with pc restore sp and the listed registers, and the run goes on where lr pointed |
| Stack.CallThenReturn | armvm/armvm.c:316-333 | `bl` followed by `bx lr` comes back to the next instruction with r0 to r13, memory and status as they were |
| Stack.StoreListFrame | armvm/armvm.c:303-305 | a block store changes no byte outside its slots |
| Widths.ByteRoundTrip | armvm/armvm.c:236-260 | a stored byte comes back zero- or sign-extended, one byte changed, both bases moved as their indexing says |
| Widths.HalfRoundTrip | armvm/armvm.c:262-285 | a stored halfword comes back zero- or sign-extended, two bytes changed, both bases moved |
| Widths.WordRoundTrip | armvm/armvm.c:236-260 | a stored word comes back, four bytes changed, both bases moved |
| Widths.WritebackWins | armvm/armvm.c:253-256 | a load into its own base that writes the base back leaves the pointer there, in every width and in the block form |
| Arithmetic.AddsThenAdc | armvm/armvm.c:26 | ADDS then ADC add 64-bit values modulo 2^64 when the first leaves the second's inputs alone |
| Arithmetic.LongProduct | armvm/armvm.c:356-396 | the long multiply leaves the exact 64-bit product in its two destinations |
| Arithmetic.SignedLongProduct | armvm/armvm.c:364-373 | the signed form is right if and only if neither factor is negative, one is zero, or both are -2^31 |
| Arithmetic.LongAccumulates | armvm/armvm.c:374-384 | UMLAL is right if and only if the low word of the product and the old low word have no bit in common |
| Arithmetic.SignedLongAccumulates | armvm/armvm.c:364-373 | SMLAL is right if and only if, besides, the signed product is right |
| Arithmetic.SignedProductExample | armvm/armvm.c:364-373 | -1 times 1 comes out as 0xffffffff, with and without accumulation |
| Arithmetic.AccumulateExample | armvm/armvm.c:374-384 | 1 times 1 accumulated onto 1 is wrong |
| Departures.SumOverflowFlag | armvm/armvm.c:44 | the overflow flag of an addition is right exactly under a sign condition on the operands, and is never set on a true overflow |
| Departures.SumFlagExample | armvm/armvm.c:44 | 0x7fffffff + 1 overflows without the flag, and -1 + 1 sets it without overflowing |
| Departures.BorrowLost | armvm/armvm.c:27-28 | SBC is always one too much and RSC is never right |
| Departures.BorrowExample | armvm/armvm.c:27-28 | 5 - 3 with no borrow is computed as 3 |
| Departures.RotateDeparts | armvm/armvm.c:195 | ROR is a rotation if and only if the bits shifted out are zero |
| Departures.RotateExample | armvm/armvm.c:195 | 1 rotated right by 1 leaves 0 |
| Departures.PcRefreshed | armvm/armvm.c:405-406 | a value left in r15 by data processing or a load is never seen by a later step |
| TwoOperandForms.TwoOperands | armvm/armcomp.c:341-359 | `op rd, op2` is the word of the three-operand form whose first source is the register op2 names, r0 for a constant; it is the word of `op rd, rd, op2` if and only if that register is rd |
| TwoOperandForms.TwoOperandsMean | armvm/armcomp.c:341-359 | as far as any later step can see, it means `op rd, rd, op2` in every state a fetch produces if and only if that register is rd, or the operation is AND and op2 is the constant 0 or a register shifted right by itself, or rd is r15 and no flags are set |
| TwoOperandForms.AlikeUnseen | armvm/armvm.c:405-406 | states that differ in r15 alone take the same next step |
| Flags.FlagsDepart | armvm/armvm.c:38-142 | for all sixteen operations, the flags of the `s` form or comparison are the architecture's if and only if a condition on operands, old flags and shifter carry: never changed by ADC, SBC, RSC, ORR, MOV, BIC and MVN, C and V cleared by the logical ones, the sign test for sums, always right for differences |
| Flags.MultiplyFlagsDepart | armvm/armvm.c:346-353 | MULS leaves the architecture's flags if and only if its C and V happen to be the old ones |
| Flags.FlagsExample | armvm/armvm.c:94-142 | MOVS of 0 leaves Z clear, and TST clears a set carry |
| Departures.LiteralKindLost | armvm/armcomp.c:421-422 | a halfword or signed load from a label is a word load, right if and only if the word is already narrow |
| Departures.LiteralStoreKindLost | armvm/armcomp.c:421-422 | a halfword store to a label is a word store, right if and only if the register's upper half already stands in memory |
| Departures.BranchCalls | armvm/armcomp.c:610-615 | a branch to a name whose rest first stands in host slot k calls host function k modulo 2^16, whatever its condition |
| Contents.ProcIndexExact | armvm/armcomp.c:613 | the index written for slot k is k modulo 2^16 |
| Departures.ConditionLost | armvm/armcomp.c:610-615 | it does what a conditional call would, for every host, if and only if the condition holds |
| Departures.OneCharacterLabel | armvm/armcomp.c:610-615 | a branch to a one-character label stays a branch if and only if no host slot is empty |
| Heap.MallocSound | armvm/memory.c:26-57 | allocation on any well-formed heap: fails exactly when nothing fits; otherwise takes the first block that fits, adds one live block of the requested size apart from all others, keeps the other free blocks and the order, and loses at most one header of slack |
| Heap.LiveDisjoint | armvm/memory.c:26-88 | live blocks are pairwise disjoint and inside the heap, and no payload covers a byte of any header |
| Heap.FreshServes | armvm/memory.c:16-36 | a fresh heap serves exactly the requests of at most its size less 32 bytes, at the first payload |
| Heap.LegalExactly | armvm/memory.c:60-67 | the runs considered release exactly NULL and addresses 32 bytes past the header of a live block |
| Heap.ReleaseSound | armvm/memory.c:60-88 | the intended release removes exactly the block, keeps order and the account of bytes, and leaves no two free neighbours |
| HeapRun.HeapSafe | armvm/memory.c:16-88 | on the headers, over every sequence of allocations and releases of live pointers from a fresh heap, with the intended merge: links agree both ways in address order, live blocks are disjoint, inside and clear of all headers, no two neighbours are free, and one free block remains once everything is released |
| HeapRun.CarefulSafe | armvm/memory.c:16-88 | the same for the release as written, over every sequence whose releases meet the condition; and the next release keeps it if and only if it meets the condition |
| HeapRun.MallocLinked | armvm/memory.c:26-57 | the traversal and the header writes of an allocation leave the chain of the first-fit allocation |
| HeapStore.ChainUnique | armvm/memory.c:7-12 | the headers determine the chain of blocks |
| HeapStore.TakeLinked | armvm/memory.c:33-47 | the header writes of an allocation relink the chain both ways |
| HeapStore.MergeBackLinked | armvm/memory.c:71-78 | the backward merge relinks the chain both ways |
| HeapStore.FreeIntendedLinked | armvm/memory.c:60-88 | with the forward merge as intended, the header writes of a release leave the chain of the release, linked both ways |
| HeapStore.FreeWrittenSound | armvm/memory.c:60-88 | the release as written leaves a well-formed heap if and only if the block above is in use, or there is a block below to link from and room above to grow into; then exactly the released block stops being live and no two neighbours are free |
| HeapStore.FirstFreeBreaks | armvm/memory.c:80-87 | releasing the first allocation of a fresh heap breaks it: the next free block claims the whole heap's size from inside it |
| HeapStore.Manager.constructor | armvm/memory.c:16-23 | one free block spanning the buffer |
| HeapStore.Manager.Malloc | armvm/memory.c:26-57 | the list traversal returns the first fitting block and leaves the chain of the specification |
| HeapStore.Manager.Free | armvm/memory.c:60-88 | the header writes as written, and exactly when they keep the heap well formed |

## Left out

- Text scanning (line extraction, keyword matching, number and register reading, string escapes): the model starts from parsed operands and items; only the expression text of references is kept as text.
- File handling, the command-line `main`, several input files, debug output and the ORCA header: the output is a byte sequence.
- `.zerofill`, `.comm`, `.space`, `.ascii` and the other directives that define a label, align or write bytes: they are sequences of label, alignment and data items. `EDU` declarations are the given list of host names.
- Host functions and syscalls: an external call is an arbitrary function of registers, memory and index that yields r0.
- Host pointers and guest accesses outside memory: the interpreter does not check them; the VM methods require that they do not happen, and that shifts are by less than 32.
- Signed overflow in C arithmetic, in the signed long multiply and in the evaluator's sums and differences, which is undefined: taken to wrap.
- Reallocation of the guest memory on loading, the position of the stack and the float accessors.
- Names longer than 255 characters, which the C buffers truncate or overrun, and table overflow, which the methods of the compiler class exclude as the source asserts.
- Names that `strtod` accepts as numbers, such as `inf`, `nan` and forms with a point, an exponent or a hexadecimal prefix: only runs of digits are numbers here.
- Several states sharing the host symbol table at once.
- Symbols.FindLabel: takes a bound on the nesting of `.set` definitions where the C code recurses without one; results about linking and loading require that every lookup returns, and then the bound does not show.
- Vm.VM.Execute: takes the number of steps of a terminating run; a guest that never leaves the program is not modelled.
- Program.RunSimulates: a run that overwrites its own instructions is excluded.
- EndToEnd.LoadAndCall: what the fresh memory holds above the program is a parameter, and the source run is required to access only memory.
- HeapRun.HeapSafe: uses the forward merge as intended; the code's own merge is `HeapStore.FreeWrittenSound` and `HeapRun.CarefulSafe`.
- HeapStore.Manager.Free: only live pointers and NULL; freeing anything else is undefined in the source. The headers are a table keyed by address; a guest that writes outside its live blocks onto a header is not captured.
