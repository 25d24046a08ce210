# A 16-bit register machine, its assembler and its line editor, in Dafny

The system is a toy computer with three parts:

- an assembler (`parse`) that turns assembly text into 16-bit words of memory;
- a virtual machine (`run_vm`) that interprets those words;
- a line editor that keeps a program as a linked list of lines.

The machine has seven 16-bit registers: AX, BX, CX, DX, SP, IP and FLAGS. It has 65536 words of memory and eleven opcodes, 0 to 10:

- HLT;
- MOV, ADD and SUB with an immediate;
- MOV, ADD and SUB register to register;
- JMP, CMP, JE and JNE.

The Dafny modules follow the program's files.

- `VmDefs` (vm_defs.dfy) holds the register and opcode enumerations. It also holds 16-bit wrap-around and zeroed and loaded memory.
- `Text` (text.dfy) holds the assembler's string helpers:
  - comment stripping, white-space trimming and upper-casing;
  - `is_number` and `atoi`;
  - a decimal printer for the line numbers in messages.
- `Isa` (isa.dfy) is the instruction format shared by the assembler and the machine. An instruction is a datatype with its encoding (`Encode`) and width, and the machine's reading of memory (`Decode`). A program's image is the concatenation of its encodings.
- `Parser` (parser.dfy) models `get_reg_id`, the `sscanf` split of a line, and the if-chain on the mnemonic (`ParseLine`).
  - `parse` is modelled as a left fold over the lines (`Parse`). It stops at the first refused line, and its error carries the line number and the words already written.
  - `Assemble` is the cursor loop that writes those words into memory.
- `Vm` (vm.dfy) models the machine.
  - `Step` is the `switch` of `run_vm` as written: it reads operands from memory and writes registers, and it checks the IP-advance flag.
  - `Exec` is an independent reference meaning for each decoded instruction. Lemmas prove that the switch agrees with it case by case.
  - `Run` is the loop with a fuel bound.
- `Pipeline` (pipeline.dfy) connects the parts. A program assembled into memory runs one instruction at a time from a fresh machine. Straight-line code halts at its first HLT, and any path of instructions can be followed to a halt or a self-loop.
- `Editor` (editor.dfy) models the editor's buffer. It is a datatype list read as the sequence of its lines, with `get_line`, `delete_line`, `insert_line`, `replace_line` and the editor's own `is_number`.
- `Scenarios` (scenarios.dfy) holds worked programs: their source text, their words and their runs. One is a compare-and-branch program that skips a MOV.

Two representation choices:

- Memory and registers are `seq<Word>`, where `Word` is `0..65535`. All arithmetic that the C code does on `unsigned short` is reduced modulo 65536 explicitly.
- Where the C code would index out of bounds, the model stops with a defined status:
  - the machine stops with `Undefined` when an operand lies past word 65535 or a register id is 7 or more;
  - the assembler fails with `MemoryExhausted` when a program needs more than 65536 words.

Jump targets are word addresses, not instruction numbers. In `MOV AX, 4` / `CMP AX, 4` / `JE 8` / `MOV BX, 99` / `HLT`, the widths the assembler emits (MOV 3 words, CMP 5 words, jumps 2 words) put the jump itself at address 8 and the HLT at 13. A taken `JE 8` therefore jumps to itself and the machine never halts:

- `Scenarios.GuardedAtEightSpins` shows the loop;
- `Scenarios.GuardedJumps` shows that target 13 skips the MOV to BX and halts.

C strings end at their first NUL character. `strstr`, `strlen`, `sscanf` and `strdup` read a line only up to it, so the model cuts every line there first (`Text.CString`).

## Model

| member | source | states |
|---|---|---|
| VmDefs.Wrap | vm.c:42-57 | the stored 16-bit value is congruent to the exact result modulo 65536, and a value already in range is unchanged |
| VmDefs.WrapNegative | parser.c:115 | a negative `int` stored into an `unsigned short` becomes its 16-bit two's complement |
| VmDefs.Id | vm_defs.h:5-14 | every register's number is below NUM_REGISTERS |
| VmDefs.RegisterOf | vm_defs.h:5-14 | a number names a register exactly when it is 0..6, and that register's number is the number itself |
| VmDefs.RegisterIdsConsecutive | vm_defs.h:5-14 | register numbering is a bijection onto 0..NUM_REGISTERS-1; AX is 0, IP is 5, FLAGS is 6 and there are 7 registers |
| VmDefs.Code | vm_defs.h:17-29 | every opcode's code is at most 10 |
| VmDefs.OpcodeOf | vm_defs.h:17-29 | a word is an opcode exactly when it is 0..10, and it decodes to the opcode with that code |
| VmDefs.OpcodesDistinct | vm_defs.h:17-29 | distinct opcodes have distinct codes, and every code decodes back to its opcode |
| VmDefs.OpcodeLayout | vm_defs.h:19-28 | each register-to-register form is its immediate form plus 3; JMP, CMP, JE and JNE are 7, 8, 9 and 10 |
| VmDefs.Zeros | assembler.c:19-21 | a block of the given size with every word zero, as `calloc` returns it |
| VmDefs.Load | assembler.c:21-29 | the assembled words occupy the start of memory and every later word is kept |
| Text.Upper | parser.c:89-92 | the mnemonic keeps its length and each character is upper-cased as `toupper` does in the C locale |
| Text.CString | parser.c:64-80 | the part of a line the C string functions see: the longest prefix without a NUL, ending just before the first NUL when there is one |
| Text.CommentStart | parser.c:67 | the position of the first `//`, or the end of the line when there is none; no earlier position starts a comment |
| Text.StripComment | parser.c:67-71 | the result is a prefix of the line with no `//` in it, cut exactly at the first `//` when there is one |
| Text.Trim | parser.c:44-52 | the result is a slice of the input that neither starts nor ends with white space, and it is empty exactly when the input is all white space |
| Text.TrimIdempotent | parser.c:44-52 | trimming a trimmed string changes nothing |
| Text.IsNumber | parser.c:30-41 | accepts exactly the non-empty strings of decimal digits, optionally after one leading minus |
| Text.ToUpper | parser.c:89-92 | `toupper` in the C locale: a lower-case letter becomes its capital and every other character is unchanged |
| Text.LoneMinusIsNumber | parser.c:30-41 | a lone `-` is accepted as a number, reading as 0, and the empty string is not |
| Text.DigitsValue | parser.c:115 | the value of n decimal digits is below 10^n |
| Text.Atoi | parser.c:115 | the value lies strictly between -10^(n-1) and 10^n for a number of n characters, and it is negative only when a minus leads; AtoiDecimal, AtoiNegative and AtoiLeadingZero state the values of plain, negative and zero-padded numerals |
| Text.LeadingZeroDigits | parser.c:115 | a leading zero adds nothing to the value of a digit string |
| Text.AtoiLeadingZero | parser.c:115 | a zero-padded numeral reads as the same value: `atoi("0" + s)` is `atoi(s)` |
| Text.AtoiNegate | parser.c:115 | a minus sign before digits negates their value |
| Text.AtoiNegative | parser.c:115 | `-` followed by the `%d` spelling of n reads as -n |
| Text.AtoiDecimal | parser.c:115 | reading a digit string without leading zeros and printing the value with `%d` gives the string back |
| Text.Decimal | parser.c:96 | the `%d` spelling of a natural number: a non-empty digit string without leading zeros |
| Text.DecimalRoundTrip | parser.c:96 | the printed line number is a number, and reading it back gives the line number |
| Isa.Width | parser.c:100-220 | HLT takes 1 word, MOV/ADD/SUB 3, JMP/JE/JNE 2 and CMP 5: one opcode word plus the opcode's operand words |
| Isa.Encode | parser.c:100-220 | an instruction's words are as many as its width and begin with its opcode |
| Isa.FlattenPrefix | parser.c:100-220 | the words of the first k instructions are a prefix of the whole program's words |
| Isa.FlattenAt | parser.c:100-220 | instruction k's words sit in the image exactly at its offset, and the next instruction starts one width later |
| Isa.Decode | vm.c:23-135 | a word above 10 is not an opcode; a decoded instruction has the opcode of the word at the address and fits in memory |
| Isa.DecodeEncode | vm.c:29-135 | reading an instruction's encoding back from memory gives that instruction |
| Isa.DecodeEncodeArith | vm.c:34-81 | the round trip for MOV, ADD and SUB in both operand forms |
| Isa.DecodeEncodeCompare | vm.c:88-110 | the round trip for CMP with a register or an immediate second operand |
| Parser.GetRegId | parser.c:10-27 | `get_reg_id`; its meaning is stated by GetRegIdSpec |
| Parser.GetRegIdSpec | parser.c:10-27 | a string names register x exactly when its upper-cased form is x's name |
| Parser.LayoutSpans | parser.c:80 | the positions where the line's runs of white space, word, white space, non-commas, comma, white space and word end are fixed by the line |
| Parser.Tokenize | parser.c:80 | at most three fields; a non-blank line yields a mnemonic without white space; the first argument has no comma and does not start with white space; the second has no white space |
| Parser.FitsEveryLayout | parser.c:80 | fields that match one layout of a line match every layout of it |
| Parser.TokenizeLayout | parser.c:80 | for the line's layout: there is a mnemonic exactly when a word follows the leading white space, and it is that word; a first argument exactly when a non-comma follows the white space after it, and it runs to the first comma or the end; a second exactly when a comma ends the first and a word follows the white space after it, and it is that word |
| Parser.ArithLine | parser.c:102-173 | MOV/ADD/SUB emit only an instruction of that operation, and refuse only for missing arguments, a bad register or a bad operand, writing nothing |
| Parser.ArithOperands | parser.c:107-125 | with both arguments present, emits an instruction of the named operation or refuses a bad register or operand, writing nothing |
| Parser.JumpLine | parser.c:174-180 | a jump emits only a jump of its own condition; a refusal is the missing-address error for that mnemonic and writes nothing |
| Parser.CmpLine | parser.c:181-206 | CMP emits a comparison whose left side is a register; a refusal that has written words is a bad second operand after exactly the words CMP, 0 and the register |
| Parser.CmpOperands | parser.c:186-206 | with both arguments present, CMP's outcomes match CmpLine's, including the three words left behind by a bad second operand |
| Parser.Instruction | parser.c:100-224 | a recognised mnemonic emits an instruction whose mnemonic is that name; refusals are never the syntax or memory errors; only CMP leaves words behind when it fails |
| Parser.ArithInstruction | parser.c:102-224 | the chain from MOV on keeps Instruction's guarantees |
| Parser.ArithNamed | parser.c:102-150 | exactly MOV, ADD and SUB select an arithmetic operation, and the operation's name is the mnemonic |
| Parser.ControlInstruction | parser.c:174-224 | the chain from JMP on keeps Instruction's guarantees |
| Parser.CompareInstruction | parser.c:181-224 | the chain from CMP on keeps Instruction's guarantees |
| Parser.ConditionalInstruction | parser.c:207-224 | JE and JNE emit jumps of their own name; anything else is an unknown instruction or a bad address, writing nothing |
| Parser.ParseLine | parser.c:64-224 | a line is skipped exactly when nothing but white space precedes its comment or its first NUL; an emitted instruction's mnemonic is the line's upper-cased first field; a refusal is never a syntax error, since a non-blank trimmed line always has a first field |
| Parser.ArithEncoding | parser.c:102-173 | fewer than two arguments refuse; a bad first register refuses; a numeric second argument emits opcode, register and the value mod 65536; a register second argument emits the opcode plus 3 and both register numbers; anything else refuses as an invalid argument |
| Parser.CmpFields | parser.c:181-185 | CMP with fewer than two arguments is refused; otherwise the trimmed arguments decide |
| Parser.CmpEncoding | parser.c:186-206 | a bad first register refuses; an immediate gives 8, 0, reg, 1, value; a register gives 8, 0, reg, 0, reg2; a bad second operand refuses after writing 8, 0, reg |
| Parser.JumpEncoding | parser.c:174-180 | a jump line (JMP here, JE and JNE at 207-220) emits exactly when its trimmed argument is a number, as the opcode 7, 9 or 10 and the address mod 65536 |
| Parser.MnemonicSelection | parser.c:100-224 | HLT emits HLT whatever the arguments; a name outside the eight mnemonics is refused as unknown, writing nothing |
| Parser.ArithSelection | parser.c:100-173 | the names MOV, ADD and SUB select their arithmetic branch |
| Parser.Visible | parser.c:64-79 | what the loop keeps of a line after the NUL cut, `strstr` and `trim_whitespace`: no NUL, and neither end is white space; ParseLine states that a line is skipped exactly when this is empty |
| Parser.Parse | parser.c:55-227 | a success fits in 65536 words and a failure names a line of the source, 1 to the number of lines; ParseSucceeds states exactly when it succeeds and with which words |
| Parser.Fold | parser.c:55-227 | a success never exceeds memory; a failure names a line between 1 and the number of lines |
| Parser.Results | parser.c:64-224 | each line is judged on its own, one result per line |
| Parser.FoldSucceeds | parser.c:64-226 | folding succeeds exactly when no line is refused and the words fit in memory, and then the image is the concatenation of the emitted instructions' encodings |
| Parser.ParseSucceeds | parser.c:55-227 | `parse` succeeds exactly when no line is refused and the program fits in 65536 words, and the memory image is the program's words in line order |
| Parser.FirstErrorWins | parser.c:95-223 | after the first refused line nothing later matters: appending lines leaves the error unchanged |
| Parser.ErrorLine | parser.c:57-98 | the reported line number is that of the first refused line: every earlier line assembles, the named line is not blank, and it alone causes the error |
| Parser.BlankLineCounts | parser.c:65-76 | a blank or comment-only line emits nothing but still counts: every later error's line number moves by one |
| Parser.BlankLineShiftsErrors | parser.c:65-76 | prepending a blank source line gives the same image and error line numbers one higher |
| Parser.ParseSnoc | parser.c:64-226 | appending a line that emits an instruction appends that instruction's words to the image |
| Parser.WriteWords | parser.c:113-115 | writing words at the cursor changes exactly those cells of memory |
| Parser.FeedLine | parser.c:100-223 | one line's writes at the cursor match the fold's step: same success, same new cursor, same error and same words in memory |
| Parser.Assemble | parser.c:55-227 | the in-place writing loop returns the cursor, or error and line, of the functional `Parse`, and memory holds exactly the words `Parse` says were written |
| Parser.PlainLine | parser.c:64-80 | a line without `//` and without surrounding white space reaches the tokenizer unchanged |
| Parser.BareLine | parser.c:80-101 | a single word line is dispatched on its upper-cased form with one field |
| Parser.CanonicalTokens | parser.c:80 | `NAME A, B` splits into the fields NAME, A and B |
| Parser.CanonicalLine | parser.c:64-92 | a line written `NAME A, B` is dispatched on upper-cased NAME with arguments A and B unchanged by trimming |
| Parser.InstructionsOfEmits | parser.c:100-220 | when every line emits, the program is exactly the emitted instructions in order |
| Parser.FoldEmits | parser.c:64-226 | when every line emits and the program fits, the fold's image is the program's words |
| Parser.ParseEmits | parser.c:55-227 | when every source line emits its instruction and the program fits, `parse` yields the program's words |
| Parser.Reason | parser.c:96-222 | every reason printed after the line number is a sentence ending in a full stop; Message states the whole line |
| Parser.ImmediateNegative | parser.c:115 | a negative immediate is stored as its 16-bit two's complement: `-1` is 65535, and a multiple of 65536 is 0 |
| Parser.Message | parser.c:96-222 | every error message is `Line <n>: <reason>` where `<n>` is a digit string without leading zeros that reads back as the failing line number |
| Parser.MessageSpelling | parser.c:96-222 | the only such digit string is the `%d` spelling of the line, so the message prints the number as `%d` does |
| Vm.Boot | editor.c:243-249 | a fresh machine: valid, every register zero, so IP starts at address 0 |
| Vm.Switch | vm.c:29-140 | the switch keeps seven registers; every case that keeps running advances IP itself; only HLT and an unknown opcode stop the loop, and stopping changes no register |
| Vm.Step | vm.c:21-141 | one iteration never writes memory; it stops with Halted exactly on opcode 0 and with UnknownOpcode exactly on a word above 10, changing nothing when it stops |
| Vm.Exec | vm.c:34-130 | reference meaning: only the destination and IP change; arithmetic wraps mod 65536; CMP sets FLAGS to 1 on equality and 0 otherwise; a taken jump sets IP to its target and any other instruction moves IP past itself |
| Vm.ArithAgrees | vm.c:34-81 | the six arithmetic cases of the switch do what Exec says of the decoded instruction, and fault on a register id past FLAGS |
| Vm.ArithImmediateAgrees | vm.c:34-57 | MOV, ADD and SUB with an immediate agree with Exec |
| Vm.ArithRegisterAgrees | vm.c:58-81 | the register-to-register forms agree with Exec and fault on an out-of-range register |
| Vm.CmpAgrees | vm.c:88-110 | CMP's case agrees with Exec, and faults on an operand naming a register past FLAGS |
| Vm.JumpAgrees | vm.c:82-130 | JMP, JE and JNE always decode and agree with Exec: taken to the target, otherwise 2 words on |
| Vm.StepDecodes | vm.c:21-141 | one iteration is the decoded instruction's reference meaning: a non-opcode stops as unknown, a bad operand is undefined, HLT halts and every other instruction runs Exec |
| Vm.Run | vm.c:16-141 | running never writes memory and keeps the machine valid |
| Vm.RunEndsStopped | vm.c:20-21 | a run that ends before the fuel does ends on a machine whose next step stops with the same status |
| Vm.RunStep | vm.c:21-141 | a run is the first step followed by the run of the rest |
| Vm.RunReaches | vm.c:21-141 | a run that reaches a stopping machine ends there with that status |
| Vm.RunNone | vm.c:21 | with no fuel nothing happens |
| Vm.RunMoreFuel | vm.c:21-141 | more fuel does not change a run that already stopped |
| Vm.RunSplit | vm.c:21-141 | a run of a + b steps is a run of a steps continued for b |
| Vm.RunStopped | vm.c:21-141 | once a run stops within n steps, every larger budget gives the same result |
| Vm.SpinsForever | vm.c:82-87 | a machine whose step leaves it unchanged, such as a jump to itself, never halts |
| Pipeline.DecodesAt | vm.c:23-135 | the machine reads instruction k of an assembled program back at its offset |
| Pipeline.StepAt | vm.c:21-141 | at the offset of a non-HLT instruction, one step applies that instruction's reference meaning |
| Pipeline.OffsetMonotone | parser.c:100-220 | a later instruction starts at an equal or higher address |
| Pipeline.StepStraight | vm.c:34-110 | an arithmetic or compare instruction that ends before address 65536 moves IP to the offset of the next instruction |
| Pipeline.StepHalt | vm.c:30-33 | at the offset of HLT the machine halts unchanged |
| Pipeline.RunAt | vm.c:21-141 | a run from a non-HLT instruction is its effect followed by the rest of the run |
| Pipeline.RunHalt | vm.c:30-33 | a run from the offset of HLT halts at once |
| Pipeline.JumpToItself | vm.c:82-130 | a taken jump whose target is its own offset leaves the machine unchanged |
| Pipeline.StraightOffsets | vm.c:34-110 | after j straight-line instructions, when instruction j starts below 65536, IP is the offset of instruction j |
| Pipeline.StraightLink | vm.c:34-110 | within a straight prefix that ends below address 65536, each instruction takes the machine from the state before it to the state after it |
| Pipeline.AfterNone | vm.c:16-141 | executing no instructions leaves the machine unchanged |
| Pipeline.AfterChain | vm.c:16-141 | when each iteration of the VM loop leads from the state after j instructions to the state after j + 1, k iterations reach the state after k instructions |
| Pipeline.StraightPrefix | vm.c:21-141 | running k straight-line instructions that end below address 65536 reaches the state after them at the offset of instruction k |
| Pipeline.StraightLineRun | vm.c:21-141 | k steps of straight-line code that ends below address 65536 leave the registers that executing the k instructions in order gives |
| Pipeline.HaltsAfter | vm.c:21-141 | a program whose first HLT follows only straight-line code halts with the registers of executing the instructions before it, even when the program fills all 65536 words |
| Pipeline.RunFollows | vm.c:21-141 | a run along any path of instructions is the path followed by the rest of the run |
| Pipeline.PathHalts | vm.c:21-141 | a path that ends at HLT halts with the path's final registers |
| Pipeline.PathSpins | vm.c:21-141 | a path that ends at a self-jump never halts |
| Pipeline.Started | editor.c:243-264 | the machine the editor's `run` starts: the assembled words at the start of zeroed memory and IP at 0 |
| Pipeline.AssemblerStart | assembler.c:21-40 | the machine the `assembler` command runs as written: memory and registers all zero, whatever was assembled |
| Pipeline.AssemblerHaltsAtOnce | assembler.c:40 | the `assembler` command's run halts on its first step with every register zero |
| Pipeline.AssembledRuns | editor.c:243-264 | end to end: source that assembles, even to all 65536 words, with its first HLT after straight-line code only, halts with the registers of executing those instructions from zero |
| Editor.FreeLines | editor.c:34-43 | freeing the buffer leaves no lines |
| Editor.LineCount | editor.c:46-54 | the count is the number of lines in the buffer |
| Editor.Walk | editor.c:59-62 | following k links leaves the lines from k on, or none past the end |
| Editor.GetLine | editor.c:57-64 | a node is found exactly for numbers 1..count, and line n is the n-th line with the rest of the buffer after it |
| Editor.Unlink | editor.c:82-92 | unlinking the node after line k removes exactly line k+1 and exists exactly when that line does |
| Editor.Splice | editor.c:114-127 | linking a node after line k inserts the text at position k+1 and exists exactly when line k does |
| Editor.SetText | editor.c:134-149 | rewriting line k changes that line only |
| Editor.WithNewline | editor.c:104-111 | the stored text ends in a newline, starts with the given text, and equals the text exactly when it already ends in a newline; otherwise one newline is added |
| Editor.WithNewlineIdempotent | editor.c:104-111 | adding the newline to a stored line changes nothing |
| Editor.Stored | editor.c:104-111 | the stored text is the given text up to its first NUL, then a newline unless it already ends with one; it holds no NUL |
| Editor.StoredIdempotent | editor.c:104-111 | a stored line is stored unchanged a second time |
| Editor.DeleteLine | editor.c:67-93 | a line 1..count is removed and the rest kept in order; any other number is refused with the buffer unchanged |
| Editor.InsertLine | editor.c:96-129 | a position 1..count+1 gets the stored text and the rest shift down; any other is refused with the buffer unchanged |
| Editor.ReplaceLine | editor.c:133-151 | a line 1..count gets the stored text and nothing else changes; any other number is refused with the buffer unchanged |
| Editor.InsertThenGet | editor.c:96-129 | after an insertion there is one more line, line n is the new text, earlier lines keep their numbers and later ones move up by one |
| Editor.InsertThenDelete | editor.c:67-129 | deleting the line just inserted succeeds and restores the buffer |
| Editor.DeleteThenGet | editor.c:67-93 | after a deletion there is one line fewer, earlier lines keep their numbers and later ones move down by one |
| Editor.ReplaceThenGet | editor.c:133-151 | a replacement keeps the count, line n is the new text and every other line is unchanged |
| Editor.EditorIsNumber | editor.c:10-17 | the editor accepts exactly the strings of decimal digits, including the empty string |
| Editor.EditorNumbers | editor.c:10-17 | the editor's check and the assembler's differ only on minus signs and the empty string: a non-empty digit string passes both |
| Scenarios.MoveThenHaltWords | parser.c:100-115 | `MOV AX, 5` / `HLT` assembles to the words 1, 0, 5, 0 |
| Scenarios.MoveThenHaltRuns | vm.c:21-141 | that program halts with AX = 5 and IP = 3 |
| Scenarios.AddRegistersWords | parser.c:100-148 | `MOV AX, 5` / `MOV BX, 3` / `ADD AX, BX` / `HLT` takes 10 words |
| Scenarios.AddRegistersRuns | vm.c:21-141 | that program halts with AX = 8, BX = 3 and IP = 9 |
| Scenarios.GuardedLayout | parser.c:100-220 | in `MOV AX, a` / `CMP AX, b` / `J target` / `MOV BX, 99` / `HLT` the instructions start at 0, 3, 8, 10 and 13 |
| Scenarios.GuardedStart | editor.c:243-264 | the fresh machine holding that program |
| Scenarios.GuardedCompared | vm.c:34-110 | after the MOV and the CMP, AX is a, FLAGS is 1 exactly when a equals b, and IP is 8 |
| Scenarios.GuardedSkips | vm.c:88-120 | a taken jump to 13 skips the MOV to BX: the program halts with BX = 0 |
| Scenarios.GuardedFallsThrough | vm.c:88-130 | a jump not taken falls through: the program halts with BX = 99 |
| Scenarios.GuardedAtEightLoops | vm.c:111-120 | a taken jump to 8 does not halt within the fuel |
| Scenarios.GuardedAtEightSpins | vm.c:111-120 | a taken jump to 8 never halts, whatever the fuel |
| Scenarios.GuardedJumps | vm.c:88-130 | `JE` after comparing 4 with 4 and `JNE` after comparing 1 with 2, with target 13, leave BX = 0 and FLAGS 1 and 0; with target 8 they never halt |
| Scenarios.Registers | parser.c:10-27 | `AX` and `BX` name registers and `BZ` does not |
| Scenarios.Numbers | parser.c:30-41 | `5` and `3` are numbers with their values; `BZ` and `BX` are not numbers |
| Scenarios.ArithSource | parser.c:64-173 | a line `name a1, a2` with an arithmetic mnemonic in any case is judged on its two arguments as written |
| Scenarios.UnknownMnemonicRefused | parser.c:221-223 | `FOO AX, 1` is refused as an unknown instruction, writing nothing |
| Scenarios.UnknownOperandRefused | parser.c:116-121 | `MOV AX, BZ` is refused as an invalid argument for MOV |
| Scenarios.HaltLine | parser.c:100-101 | `HLT` emits HLT |
| Scenarios.MoveFiveLine | parser.c:102-115 | `MOV AX, 5` emits a move of 5 into AX |
| Scenarios.MoveThreeLine | parser.c:102-115 | `MOV BX, 3` emits a move of 3 into BX |
| Scenarios.AddLine | parser.c:126-148 | `ADD AX, BX` emits a register-to-register add |
| Scenarios.SourceOfTwo | parser.c:55-227 | two lines that each emit assemble to their instructions' words |
| Scenarios.SourceOfFour | parser.c:55-227 | four lines that each emit assemble to their instructions' words |
| Scenarios.MoveThenHaltSource | parser.c:55-227 | the source text `MOV AX, 5` / `HLT` assembles to that program's words |
| Scenarios.AssemblerDropsProgram | assembler.c:21-40 | `MOV AX, 5` / `HLT` assembles to 1, 0, 5, 0 and leaves AX = 5 when loaded and run, yet the `assembler` command's run ends with AX = 0 |
| Scenarios.ClearAXWords | parser.c:102-115 | n lines of `MOV AX, 0` take 3n words |
| Scenarios.FillMemoryHalts | vm.c:21-141 | 21845 `MOV AX, 0` lines and `HLT` fill all 65536 words, and the program halts on the HLT at 65535 with AX = 0 |
| Scenarios.AddRegistersSource | parser.c:55-227 | the four-line add program's source text assembles to its words |

## Left out

- Input and output are not modelled:
  - reading the source with `fgets`;
  - the `DEBUG` printouts (parser.c:82-87);
  - the machine's printouts and final register dump;
  - the editor's messages, which are the `Report` values.
- The `fgets` split of physical lines longer than 255 characters is not modelled. A source is a sequence of lines.
- Parser.Tokenize: the 31-character limits of the `sscanf` fields and the 32-byte buffers are not modelled. Fields are unbounded strings.
- Text.Atoi: the integer overflow of C's `atoi` on very long digit strings is not modelled. The value is taken exactly, then reduced modulo 65536 when it is stored.
- Parser.Fold: a program longer than 65536 words writes past the allocation in C, which is undefined. The model refuses it with its own `MemoryExhausted` error instead.
- Vm.Step: the C code's out-of-range reads are stopped with the defined status `Undefined`. These are an operand past word 65535 and a register id of 7 or more.
- The fallback `IP++` (vm.c:137-140) is modelled in `Vm.Switch`. Every running case advances IP itself, so it never fires.
- Vm.Run: `run_vm` loops until HLT or an unknown opcode. The model bounds the loop with fuel, and non-termination appears as `OutOfFuel` on every fuel (`Vm.SpinsForever`).
- The `main` functions are not modelled beyond their memory set-up. These are the assembler's `main` (assembler.c:7-44, set-up in `Pipeline.AssemblerStart`), the parser's debugging `main` (parser.c:229-271) and the editor's command loop.
- The `assembler` command's `run_vm(memory)` (assembler.c:40): `run_vm` takes no argument (vm.c:16), so the memory it is passed is ignored and the run uses the virtual machine's own zeroed `memory` (vm.c:10). `Pipeline.AssemblerStart` models this; the end-to-end lemmas use `Pipeline.Started`, which is the editor's `run_buffer` (editor.c:243-264). See Findings.
- The editor's `load_file`, `save_file` and `display_buffer` do file and console input and output, and are not modelled. Of `run_buffer`, the temporary file is not modelled; its register and memory reset, parse and run are `Pipeline.Started`.
- Editor.DeleteLine and Editor.InsertLine model the predecessor-null checks (`DeleteError`, `InsertError`) as reports. The range checks before them make those branches unreachable.
- Editor.Stored requires text that is non-empty up to its first NUL. On such empty text `insert_line` and `replace_line` read `text[-1]` (editor.c:104, 141), which is undefined. Text from a successful `fgets` (editor.c:330-355) has at least one character before its first NUL, even for an empty input line, which reads as a lone newline. The exception is an input line whose first byte is NUL, which C leaves undefined and the requires excludes.

## Findings

| source | as written | input that shows it | evidently intended | confidence | as-written member | corrected member |
|---|---|---|---|---|---|---|
| assembler.c:40 | `run_vm(memory)` passes the assembled memory to a `run_vm` that takes no argument (vm.c:16) and runs the global `memory` (vm.c:10), which is all zero | `MOV AX, 5` / `HLT`: the run halts at address 0 with AX = 0 instead of 5 | run the assembled program, as the editor's `run_buffer` does by parsing into the global memory | high; not executed | Pipeline.AssemblerStart, Scenarios.AssemblerDropsProgram | Pipeline.Started, Pipeline.AssembledRuns |
