# Sigma16 toolchain: a verified model

Sigma16 is a 16-bit research architecture. This project models the three parts of its alternative toolchain as
one pipeline and proves that they fit together:

- the **assembler** (`tooling/assembler.py`) from parsed lines onwards: lowering of statements, label bookkeeping,
  the one-pass label calculation, in-place linking and the encoder;
- the **interpreter** (`src/vm.c`): threaded dispatch over byte-swapped memory through bit-field overlays, with the
  condition flags kept in R15;
- the **disassembler** (`tooling/disassembler.py`): the linear sweep and its hex annotations.

## How it is organised

| file | contents |
|---|---|
| `Words.dfy` | words, bytes, nibbles, byte swap, the bitwise operators |
| `Isa.dfy` | the instruction set on logical words: decode, execute, step, run |
| `Machine.dfy` | class `VM`: the interpreter as it is written, every handler proved against the instruction set |
| `Instructions.dfy` | what every instruction does, stated on one step in terms of register arithmetic |
| `Encodings.dfy` | the numbers of the instruction formats: bytes written and words decoded, spelled out |
| `Runs.dfy` | properties of whole runs: register 0, store history and output, self-modification, division |
| `Assembly.dfy` | what the assembler computes, on values, and the properties of linking and encoding |
| `Sources.dfy` | what a source's lines determine: its program, its rejection, whether it assembles |
| `Statements.dfy` | what statements do when the machine reaches them |
| `Linker.dfy` | the assembler's mutable objects and its loops, proved against `Assembly.dfy` |
| `Composition.dfy` | assembling one source after another |
| `LabelMachine.dfy` | an interpreter of labelled programs that sees no encoding, and the simulation proof |
| `Completeness.dfy` | the exact conditions on the machine's run under which the simulation speaks |
| `Branches.dfy`, `Calls.dfy` | compare-and-branch and call-and-return in running programs |
| `Disassembler.dfy`, `Decoders.dfy` | the sweep, both round trips with the encoder, agreement with the machine |
| `Fibonacci.dfy` | total correctness of the manual's program as assembled machine code |
| `Toolchain.dfy` | the pipeline: lines to image to machine run |

A logical word is the host's memory word with its bytes exchanged. `Isa` works on logical words only; `Machine`
works on host words, the overlays and the instruction register. The two meet in the contracts of the class `VM`,
whose abstract state `View()` is an `Isa.State`. `Machine.VM.Exec` says that any number of trips through the
dispatch loop, self-modifying or not, is that many steps of the instruction set.

An access outside the 32768 mapped words, and an EXP instruction, give the outcome `Undefined`: nothing is promised
about what follows. Every result about runs says explicitly which outcomes it covers.

`LabelMachine.LStep` is `Stuck` when a program runs off its end, executes a data word, jumps to an address that is
not the start of an object, or stores into a word of its own code. `LabelMachine.RunSimulates` is the meaning of
"assembly preserves meaning": any number of label-level steps that is not stuck is the same number of machine steps,
with the same registers, memory, output and way of stopping. `Completeness.RunNotStuck` and
`Completeness.SpeaksExactly` say when that is, in terms of the machine's run alone: the program counter was at an
instruction of the program at every step, ends at an object, and no executed store hit a word of an instruction.

The instruction set's definitions are what the interpreter is proved against; what they compute is stated
separately in `Instructions.dfy`, for a machine that has decoded the instruction, without those definitions. In the
same way `Encodings.dfy` writes out the opcode numbers, and `Sources.dfy` counts lines instead of following the parser.

## Where the code and its documentation disagree

The model follows the code.

- The manual (`README.md:225`) says that what the disassembler fails to decode is assumed to be data. An opcode 14
  word raises an exception instead (`tooling/disassembler.py:127`, reached through line 158), and so does a
  cut-off RX instruction. `Disassembler.ExpWordRaises` is a concrete binary; `Disassembler.SweepFinishes` gives the
  exact condition.
- The assembler reports rejected lines and prints that it is aborting (`tooling/assembler.py:321-323`) but returns the
  linker, and assembly goes on without those lines. `Linking.Linker.ParseLines` returns both.
- CMP clears R15 before it reads its operands, so an operand R15 compares as zero. `Branches.CompareAndBranch` states
  the outcome for all operand registers through `Branches.CmpOperand`.
- ADD's flags are a function of the destination register's number; the model transcribes them as such and gives them
  no arithmetic meaning.

## Model

| member | source | states |
|---|---|---|
| Words.BitwiseMeaning | src/vm.c:216-227 | `&`, `\|` and `^` act on every bit position separately: bit i of the result combines bit i of the operands |
| Words.MaskIsLowNibble | tooling/disassembler.py:120-121 | `b & 0xF` is the low nibble of a number of any width |
| Words.ShiftOrIsJoin | tooling/assembler.py:361-362 | `(hi << 4) \| lo` puts two nibbles side by side |
| Isa.RunSplit | src/vm.c:144-149 | a run of m + n steps is a run of m steps followed, if the machine is still running, by one of n steps |
| Machine.OverlayReadsLogicalWord | src/instructions.h:6-19 | the bit-field overlay of a host word reads the fields that the byte-swapped word holds from its top nibble down |
| Machine.FetchThroughOverlay | src/vm.c:47-52 | decoding through overlays of host memory, with the displacement swapped, is decoding the logical memory, for every word including EXP, invalid RX opcodes and the last word |
| Machine.DispatchReadsOpcode | src/vm.c:144 | the dispatch index `(mem[pc] >> 4) & 0xf` is the overlay's opcode field |
| Machine.StoreIsLogical | src/vm.c:58-60 | storing a swapped word into host memory is storing the word into logical memory and changes no other logical word |
| Machine.VM.constructor | src/vm.c:66-96 | a new machine has zeroed registers and its logical memory is the big-endian reading of the image, zero past its end |
| Machine.VM.ReadMem | src/vm.c:62-64 | returns the logical word |
| Machine.VM.WriteMem | src/vm.c:58-60 | updates exactly one logical word |
| Machine.VM.SafeUpdate | src/vm.c:27-28 | writes the value truncated to 16 bits unless the destination is R0 |
| Machine.VM.ComputeRxEaddr | src/vm.c:22-25 | the effective address is base plus displacement modulo 2^16, also left in the address register |
| Machine.VM.SetAddFlags | src/vm.c:153-162 | the sequence of single-bit assignments leaves 0xC700 for d > 0 and 0x2800 for d = 0 in R15 and touches no other register |
| Machine.VM.SetCmpFlags | src/vm.c:186-190 | the single-bit assignments leave the five comparison flags, and nothing else, in a cleared R15 |
| Machine.VM.ApplyOpRRR | src/vm.c:39-44 | the decoded destination receives the operator's 16-bit result of the old source registers |
| Machine.VM.DoAdd | src/vm.c:151-163 | one instruction-set step of ADD |
| Machine.VM.DoOp | src/vm.c:164-169 | one instruction-set step of SUB or MUL, R15 untouched unless it is the destination |
| Machine.VM.DoOpAndClear | src/vm.c:194-227 | one instruction-set step of CMPLT, CMPEQ, CMPGT, AND, OR or XOR |
| Machine.VM.OpDiv | src/vm.c:111-127 | quotient to the destination, remainder to R15 unless it is the destination, nothing on a zero divisor |
| Machine.VM.DoDiv | src/vm.c:170-177 | one instruction-set step of DIV |
| Machine.VM.DoCmp | src/vm.c:178-193 | one instruction-set step of CMP, operands read after R15 is cleared |
| Machine.VM.DoInv | src/vm.c:206-215 | one instruction-set step of INV |
| Machine.VM.DoNop | src/vm.c:228-234 | one instruction-set step of NOP, without loading the instruction register |
| Machine.VM.TrapWrite | src/vm.c:103-109 | appends exactly the low bytes of the R[sb] words from R[sa], or reports an address outside memory |
| Machine.VM.DoTrap | src/vm.c:235-249 | one instruction-set step of TRAP: halt on code 0, print on code 2, otherwise only clear R15 |
| Machine.VM.DoLea | src/vm.c:264-270 | one instruction-set step of LEA |
| Machine.VM.DoLoad | src/vm.c:271-277 | one instruction-set step of LOAD, no memory access when the destination is R0 |
| Machine.VM.DoStore | src/vm.c:278-284 | one instruction-set step of STORE on logical memory |
| Machine.VM.DoJump | src/vm.c:286-291 | one instruction-set step of JUMP |
| Machine.VM.DoJumpIf | src/vm.c:292-331 | one instruction-set step of JUMPC0, JUMPC1, JUMPF or JUMPT |
| Machine.VM.DoJal | src/vm.c:332-338 | one instruction-set step of JAL, link register written before the target is computed |
| Machine.VM.StepInPlace | src/vm.c:129-144 | one trip through dispatch agrees with one step of the instruction set on logical words in every outcome, and the instruction register then holds the executed instruction's fields |
| Machine.VM.Exec | src/vm.c:129-349 | any bounded execution, self-modifying or not, refines the same number of instruction-set steps |
| Runs.R0StaysZero | src/vm.c:27-28 | R0 is zero in every state of every run that starts with it zero |
| Runs.DispOnR0IsAbsolute | src/vm.c:22-25 | in every state reached from boot, `disp[R0]` addresses `disp` |
| Runs.StepHasItsEvents | src/vm.c:278-284 | a step changes memory and output only by the store or print predicted from the state before it |
| Runs.HistoryExplainsRun | src/vm.c:235-284 | after any run memory is the initial memory with the executed stores replayed, and output grew by the executed prints in order |
| Runs.LastStoreWins | src/vm.c:58-60 | replaying leaves every unaddressed word alone and the last stored value at every addressed one |
| Runs.UnstoredWordsKeep | src/vm.c:278-284 | over a whole run a word that no executed STORE addressed keeps its value |
| Runs.TrapPrints | src/vm.c:103-109 | byte i of a print is the low byte of the word at (R[sa] + i) modulo 2^16, and there are R[sb] of them |
| Runs.StoredWordIsExecuted | src/vm.c:278-284 | a word written by STORE and not overwritten is the instruction decoded when control reaches it |
| Runs.DivisionRebuilds | src/vm.c:111-127 | the run DIV q,a,b; MUL t,q,b; ADD s,t,R15 ends with s equal to the old a, remainder below b, no overflow |
| Runs.DivisionByZero | src/vm.c:118-120 | dividing by zero changes only the program counter |
| Assembly.AddrMonotone | tooling/assembler.py:326-342 | code offsets grow strictly with the object position |
| Assembly.AddrInjective | tooling/assembler.py:326-342 | no two object positions share a code offset |
| Assembly.LinkFrame | tooling/assembler.py:345-355 | linking keeps count, order, sizes and every non-symbolic object; a symbolic displacement becomes its label's offset |
| Assembly.LinkTotal | tooling/assembler.py:351-355 | no symbol is left after linking exactly when every symbol names a label |
| Assembly.LinkIdempotent | tooling/assembler.py:345-355 | a second link changes nothing |
| Assembly.ImageSlice | tooling/assembler.py:358-369 | the bytes of object i occupy the image from twice its offset to twice the next one's |
| Assembly.LabelsLand | tooling/assembler.py:336-369 | the image has twice the total size in bytes, and at twice a label's offset stands the encoding of the object it precedes |
| Assembly.ParseWellFormed | tooling/assembler.py:313-319 | every label's object position is at most the number of objects |
| Linking.Linker.AppendObject | tooling/assembler.py:313-315 | one object is appended, instructions stay unshared, labels are untouched |
| Linking.Linker.AddLabel | tooling/assembler.py:316-319 | a new label records the number of objects so far and keeps the dictionary in source order |
| Linking.Linker.ParseLines | tooling/assembler.py:291-323 | the linker holds the program of the lines; a repeated label is reported; rejected lines are skipped and flagged |
| Linking.FillOffsets | tooling/assembler.py:336-342 | the nested loops with carried position and offset give each body the total size of all objects before it |
| Linking.Linker.CalcLabelOffset | tooling/assembler.py:336-342 | every label's code offset is the total size of the objects before it, and nothing else changes |
| Linking.SizeIsAddr | tooling/assembler.py:326-333 | sizes do not depend on displacements, so offsets computed before linking stay valid after it |
| Linking.Linker.LinkObject | tooling/assembler.py:351-355 | patching one displacement affects no other object |
| Linking.Linker.LinkObjects | tooling/assembler.py:351-355 | the patching loop links everything, or stops at the first unknown symbol with exactly the objects before it linked |
| Linking.Linker.Link | tooling/assembler.py:345-355 | raises exactly when a symbol names no label; otherwise the objects become the linked ones and labels hold their offsets |
| Linking.WriteCode | tooling/assembler.py:358-369 | writes the image exactly when every number fits a signed 16-bit field, otherwise the bytes before the first that does not |
| Composition.ConcatOffsets | tooling/assembler.py:336-342 | joining label-disjoint programs keeps the first one's offsets and shifts the second one's by the first one's size |
| Composition.ConcatLinks | tooling/assembler.py:345-355 | linking the joined program is linking the parts, with the second part's symbolic displacements increased |
| Composition.ConcatImages | tooling/assembler.py:358-369 | the joined image is the first image followed by the relocated second one |
| Composition.ParseConcat | tooling/assembler.py:302-319 | after any number of lines of a second source the program is the join of what the two sources gave so far |
| Composition.SourcesConcat | tooling/assembler.py:291-323 | reading two label-disjoint sources in sequence gives the joined program |
| LabelMachine.PositionOf | tooling/assembler.py:336-342 | finds an object position at an address, and fails only if no position has it |
| LabelMachine.FetchObject | src/vm.c:261-263 | while code is intact the machine decodes, at an object's offset, that object's instruction with its label resolved |
| LabelMachine.StepSimulates | src/vm.c:129-349 | one label-level step is one machine step between the corresponding states |
| LabelMachine.RunSimulates | tooling/assembler.py:326-369 | assembly preserves meaning for any number of steps: position, registers, memory, output and way of stopping |
| Branches.CmpFlagBits | src/vm.c:186-190 | bits 1, 2 and 3 of CMP's flags are the signed relations >, = and < |
| Branches.RunKeepsR15 | src/vm.c:164-169 | any number of steps that execute flag-preserving instructions ends with the flags it started with |
| Branches.JumpDecides | src/vm.c:292-311 | each relational jump goes to its target exactly when its signed relation holds |
| Branches.CompareAndBranch | tooling/assembler.py:205-218 | lowered CMP and relational jump, with flag-preserving code between, branch exactly on the signed relation, for all operands |
| Calls.CallLinks | src/vm.c:332-338 | JAL leaves the next object's offset in its link register and jumps to its resolved target |
| Calls.CallReturns | src/vm.c:286-338 | after any run that keeps the link register and the code, JUMP 0[Rd] resumes at the object after the call and at no other |
| Disassembler.DisasmBinary | tooling/disassembler.py:152-169 | the generator's loop yields the sweep, including the exception that ends it |
| Disassembler.SweepTiles | tooling/disassembler.py:156-169 | the items are the unbroken chain of decodings from the start to the first failure or the end of the binary |
| Disassembler.SweepFinishes | tooling/disassembler.py:124-169 | the sweep raises nothing exactly when no reached boundary holds an opcode 14 or a cut-off RX instruction |
| Disassembler.ExpWordRaises | tooling/disassembler.py:158-162 | an EXP word ends the sweep with an IndexError |
| Disassembler.DisassembleEncoded | tooling/disassembler.py:124-169 | sweeping encoded instructions yields exactly them, each ending at twice its prefix size, whatever bytes follow |
| Disassembler.DisassembleImage | tooling/disassembler.py:152-169 | the listing of a pure-code image is complete and clean |
| Disassembler.EncodeSwept | tooling/assembler.py:358-369 | re-encoding a clean listing gives back the binary |
| Disassembler.HexSpellsBytes | tooling/disassembler.py:172-190 | the hex column of every item spells the bytes of its interval in order |
| Decoders.DecodersAgree | tooling/disassembler.py:124-149 | at every word boundary of every binary that fits in memory the disassembler and the machine decode the same instruction, invalid RX opcode or EXP word; they differ only on an RX instruction cut off at the end |
| Decoders.RunsFollowListing | src/vm.c:47-52 | along every run of a pure-code program the program counter stands at a listed instruction, decoded as listed |
| Fibonacci.ParseSource | README.md:171-186 | the manual's source parses to eleven objects and three labels |
| Fibonacci.ProgAssembles | tooling/assembler.py:164-178 | it assembles for every counter literal that fits a signed 16-bit field |
| Fibonacci.Round | README.md:176-183 | one round is six steps, advances the Fibonacci pair and leaves the loop exactly when the counter reaches zero |
| Fibonacci.FibonacciRuns | README.md:171-203 | from boot the machine code reaches the halting TRAP after exactly 4 + 6 * rounds steps with the Fibonacci numbers modulo 2^16, for every counter literal |
| Fibonacci.ManualExample | README.md:190-203 | with counter 10 the run takes 64 steps and ends with 55 and 89 |
| Toolchain.Assemble | tooling/assembler.py:372-387 | produces the image exactly when labels are unique, symbols known and numbers in range, and otherwise names the failure |
| Toolchain.AssembleAndRun | src/vm.c:66-349 | running the assembled file in the emulator ends in the state and with the status of the labelled program |
| Words.BswapExchanges | src/vm.c:58-64 | the byte swap exchanges the two bytes of a word |
| Words.SignedIsCongruent | src/vm.c:187-189 | the signed reading is the number from -32768 to 32767 congruent to the word |
| Instructions.Addition | src/vm.c:151-163 | ADD gives the sum modulo 2^16 and leaves 0xC700, or 0x2800 for destination 0, in R15; nothing else changes |
| Instructions.Subtraction | src/vm.c:164-166 | SUB gives the number that added to the subtrahend is the minuend modulo 2^16 and keeps R15 |
| Instructions.SubtractThenAdd | src/vm.c:151-166 | SUB followed by ADD of the subtrahend restores the minuend for all operands |
| Instructions.Multiplication | src/vm.c:167-169 | MUL gives the product modulo 2^16 and keeps R15 |
| Instructions.Division | src/vm.c:111-127 | quotient and remainder by their defining inequalities, for every destination including R0 and R15 |
| Instructions.Comparison | src/vm.c:178-193 | each of R15's five top bits after CMP is its signed or unsigned relation, all lower bits are clear, R15 as an operand counts as 0 |
| Instructions.CompareLess | src/vm.c:194-197 | CMPLT gives 1 exactly when the first operand is less, and clears R15 |
| Instructions.CompareEqual | src/vm.c:198-201 | CMPEQ gives 1 exactly on equal operands, and clears R15 |
| Instructions.CompareGreater | src/vm.c:202-205 | CMPGT gives 1 exactly when the first operand is greater, and clears R15 |
| Instructions.ComparisonsPartition | src/vm.c:194-205 | on the same operands exactly one of the three comparisons gives 1 |
| Instructions.Logic | src/vm.c:216-227 | every bit of AND, OR and XOR is the Boolean combination of the operands' bits, and R15 is cleared |
| Instructions.Inversion | src/vm.c:206-215 | INV flips every bit of its source and clears R15 |
| Instructions.NoOperation | src/vm.c:228-234 | NOP clears R15 and changes nothing else |
| Instructions.Trapping | src/vm.c:235-249 | TRAP halts exactly when R[d] is 0; with another code it clears R15, and unless the code is 2 changes nothing else |
| Instructions.TrapPrinting | src/vm.c:103-109 | with code 2 the output grows by the low bytes of the R[b] words from R[a], addresses modulo 2^16, exactly when all of them are in memory |
| Instructions.LoadAddress | src/vm.c:264-270 | LEA gives base plus displacement modulo 2^16 |
| Instructions.Loading | src/vm.c:271-277 | LOAD gives the word at base plus displacement, is undefined past word 32767, and does nothing for R0 |
| Instructions.Storing | src/vm.c:278-284 | STORE changes the one word at base plus displacement to R[d] |
| Instructions.LoadAfterStore | src/vm.c:271-284 | a word loaded from where it was stored is the stored word, across any run without another store there |
| Instructions.Jumping | src/vm.c:286-291 | JUMP goes to base plus displacement and changes no register, memory or output |
| Instructions.JumpingOnFalse | src/vm.c:312-321 | JUMPF jumps exactly when R[d] is 0 |
| Instructions.JumpingOnTrue | src/vm.c:322-331 | JUMPT jumps exactly when R[d] is not 0 |
| Instructions.JumpingOnFlag | src/vm.c:292-311 | JUMPC0 and JUMPC1 jump exactly when bit d of R15 from the top is 0 or 1 |
| Instructions.JumpingAndLinking | src/vm.c:332-338 | JAL links the following address first, so a base equal to the link register uses the new value |
| Instructions.FetchEndsWithMemory | src/vm.c:85 | memory has 32768 words and no instruction is fetched past or across their end |
| Encodings.RRRBytes | tooling/assembler.py:360-363 | the two bytes of each of the 14 RRR operations, opcode numbers written out, for all registers |
| Encodings.RXBytes | tooling/assembler.py:364-367 | the four bytes of each of the 9 RX operations, numbers written out, for all registers and displacements |
| Encodings.DataBytes | tooling/assembler.py:368-369 | a data word is its number's two bytes, high byte first |
| Encodings.WritableNumbers | tooling/assembler.py:367-369 | exactly unlinked displacements and numbers outside -32768..32767 cannot be packed |
| Encodings.BytesInImage | tooling/assembler.py:358-369 | an object contributes to any image the bytes it has alone, at twice its offset |
| Encodings.StatementBytes | tooling/assembler.py:148-178 | the bytes of CMP, INV, MOV, JUMP and DATA statements |
| Encodings.RelationalJumpBytes | tooling/assembler.py:207-219 | the bytes of the six relational jumps |
| Encodings.RRRWords | src/vm.c:130-135 | a word decodes to each RRR operation exactly when its top nibble is that operation's number |
| Encodings.RXWords | src/vm.c:139-143 | a word decodes to each RX operation exactly when its top nibble is 15 and its bottom one the operation's number |
| Encodings.OtherWords | src/vm.c:134-143 | the words that are no instruction: top nibble 14, and bottom nibble 9 to 15 under 15 |
| Encodings.BootMemory | src/vm.c:66-96 | memory at boot is the image's byte pairs, high byte first, and zero after them; registers and pc are zero |
| Sources.RejectedExactly | tooling/assembler.py:316-319 | a source is rejected exactly when two lines declare the same label, and the first repeated label is reported |
| Sources.AcceptedProgram | tooling/assembler.py:302-319 | the objects are the statements in order, other lines give none, and each label stands at the number of statements before it |
| Sources.AddrOfLine | tooling/assembler.py:326-342 | a label's code offset is the number of words of the statements above its line |
| Sources.AssemblesOnLines | tooling/assembler.py:345-369 | parsing, linking and writing all succeed exactly when labels are unique, symbols declared, and numbers and used offsets in range |
| Statements.DisplacementMeaning | tooling/assembler.py:351-355 | a number displaces by itself modulo 2^16, a symbol by its label's offset |
| Statements.Inverts | tooling/assembler.py:148-153 | `inv d,a` complements every bit of a into d |
| Statements.Jumps | tooling/assembler.py:217-219 | `jump disp[a]` goes to base plus displacement |
| Statements.JumpsToLabel | tooling/assembler.py:345-355 | `jump x[r0]` goes to the object that label x precedes |
| Statements.Moves | tooling/assembler.py:176-177 | `mov d,a` copies the register |
| Statements.MovesNumber | tooling/assembler.py:178 | `mov d,v` puts v modulo 2^16 into the register |
| Statements.DataIsLoaded | tooling/assembler.py:271-279 | `data v` puts v modulo 2^16 at its address in memory |
| Completeness.StepKept | src/vm.c:129-349 | a machine step from an instruction, not storing into code, is matched by the labelled program unless it jumps between objects |
| Completeness.RunNotStuck | src/vm.c:129-349 | when the machine's run keeps to the program, the labelled program is at the same object, has finished, or has faulted with it |
| Completeness.NotStuckKeeps | tooling/assembler.py:326-369 | when the labelled program has come to an object, the machine was at an instruction throughout and stored into none |
| Completeness.SpeaksExactly | tooling/assembler.py:326-369 | the simulation speaks about n steps exactly on the machine runs described by the two rows above |
| Branches.FlagKeepers | src/vm.c:164-169 | SUB, MUL, LEA, LOAD and JAL to registers other than R15, STORE and the jumps are flag-preserving |
| Disassembler.HexReadsBack | tooling/disassembler.py:172-190 | reading the hex column back as characters gives exactly the bytes of the item's interval, two digits each, blanks between |
| Decoders.KeptRunsFollowListing | src/vm.c:47-52 | the same for every machine run that keeps to a pure-code program, with no mention of the labelled run |
| Assembly.ImageSize | tooling/assembler.py:358-369 | the image has exactly two bytes for every word of the objects |
| Fibonacci.ImageBytes | README.md:188-190 | the 36 bytes that the manual's program assembles to |
| Toolchain.AssemblableExactly | tooling/assembler.py:372-387 | assembling succeeds, and its image fits in memory, exactly under conditions on the source lines |

## Left out

- Machine.VM.Exec: takes a bound on the number of steps, because the dispatch loop need not terminate; the bound is arbitrary.
- Machine.VM.DoOp: MUL is taken modulo 2^16; in C the product of two large operands overflows `int`, which is undefined.
- Machine.VM.constructor: requires the image to fit in memory; the original copies a longer file past the end of the mapping.
- Toolchain.AssembleAndRun: for programs that get stuck (run data or off the end, jump between objects, overwrite their code) it promises the instruction set's run of the image, but nothing at the level of labels.
- EXP instructions are not implemented by the emulator; their outcome is `Undefined`.
- Source text: splitting lines, comments, register and number syntax, label legality and upper-casing.
- Mnemonic strings, colours and the printed layout of the disassembler, apart from the hex column.
- Whether ADD's flags, or V, v and C, mean anything arithmetically.
- The debugger, tracing, dumps and the trace callback, which is taken to have no effect.
- The Python bindings, `main.c`, file access and releasing memory.
- The mask, interrupt, istat, ipc and vect registers, which no instruction uses.
- RRR and DATA objects of the assembler are values in the model; nothing updates them in place.
