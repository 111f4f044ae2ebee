# Formal model of the acca virtual machine, its assembler and its example program

This project states in Dafny what the acca emulator and assembler do and proves that
they fit together: what is assembled is what is loaded, fetched, decoded and executed,
and the example program does what its comments say.

* **Templates, Decoder, Encoder, Table.** Both programs describe instructions by 32-character
  templates. The loops of their macros are methods over templates as data; scattering and
  gathering are proved inverse for every template, then used for both instruction tables.
* **Machine.** The reference semantics: one step of the machine in unbounded integers, where a
  carry is a sum that does not fit and an overflow a signed sum out of range. It is stated for
  any decoder.
* **Util, Vm.** The emulator itself: a class with packed flag words, masks and byte arrays,
  updated in place. Every method is proved to compute the reference semantics, down to
  `ExecuteOne`. Panics of the original are an outcome of their own.
* **Runs, Secrecy, Privileged, HandlerEntry.** Whole runs: precise exceptions at any nesting
  depth, the machine invariant, what a program at PL1 can never change and never learn, the
  machine registers, and the stack a handler starts on.
* **Shifts, Operations, Transfers.** Each instruction in terms of bits, bytes and integers, with
  its flags and faults.
* **Arithmetic, Comparisons, Constants, Products, BitMoves, Stack.** What instructions compute
  together: numbers of many registers, signed and unsigned orders, fused comparisons,
  constants, products and quotients, and the stack as a list.
* **Guest, GuestPrint, GuestHandler, GuestProgram.** The routines of `exc.acca` as programs on the
  modelled machine: printing, the transparent exception handler, and the whole run.
* **Statements, ExampleText, ExampleLayout, ExampleMeaning, ExampleLines, ExampleRun.** The text of
  `exc.acca`, statement by statement, through both passes into memory: the assembled file is the
  listing the routines are proved about, and running it from a new machine prints its output.
* **Expressions, Calculation, Operands, Meaning, Emission, Layout, Agreement, Image, EndToEnd, Relative.** The
  assembler: expressions, operands, the two passes as loops, the output file, and relative
  addressing from the source text to the jump.

Arithmetic wraps modulo 2^64 and shift counts are reduced as in a release build.
`dafny verify dfyconfig.toml` checks the whole project.

Where the code and its documentation differ, the model follows the code: a pop into the
stack pointer keeps the increment (`acca-emu/src/vm.rs:306-308`; the instruction documentation lets the
load win), an exception that switches stacks loads the top of the stack
(`acca-emu/src/vm.rs:1022-1030`; the exception documentation says the `stack_pointer` field), `stp` panics
where the documentation stores a pair, an arithmetic shift right of a narrow operand shifts in
zeros, and the handler of an unmatched word starts one instruction into its vector.

## Model

| member | source | states |
|---|---|---|
| `Templates.EncodeLoop` | acca-as-proc-macro/src/lib.rs:720-757 | the assembler macro's loop over the reversed characters of a template writes each operand's next bit at each of its letters, and ones and zeros where they stand |
| `Templates.DecodeLoop` | acca-emu-proc-macro/src/lib.rs:319-345 | the emulator macro's loop accumulates exactly the mask of the fixed bits, their value, and one gathered field per letter |
| `Templates.MatchesIff` | acca-emu-proc-macro/src/lib.rs:409-412 | the mask-and-value test holds exactly of the words that agree with every fixed bit |
| `Templates.EncodeThenDecode` | acca-as-proc-macro/src/lib.rs:720-757 | for every template and every operands: the encoded word passes the test and each gathered field is its operand modulo 2 to the number of its letters |
| `Templates.DecodeThenEncode` | acca-emu-proc-macro/src/lib.rs:319-345 | any word that passes the test of a 32-bit template is re-encoded to itself from its gathered fields |
| `Decoder.MatchSelects` | acca-emu/src/vm.rs:269-977 | a word that matches an arm has in its top six bits an opcode that belongs to that arm alone |
| `Decoder.Unambiguous` | acca-emu/src/vm.rs:269-977 | no word matches two arms |
| `Decoder.OrderIrrelevant` | acca-emu-proc-macro/src/lib.rs:409-418 | the generated match decodes every word alike in whatever order its arms are listed |
| `Encoder.DecodeArm` | acca-as/src/main.rs:838-929 | whatever is bound to the letters of an arm, the emulator selects that arm and sees each operand reduced to its bits |
| `Encoder.DecodeEncoded` | acca-emu-proc-macro/src/lib.rs:367-405 | an encoded arm decodes to the instruction its operands describe, 31 as no register and 15 as no condition, and other codes as a panic |
| `Memory.ReadBack` | acca-emu/src/util.rs:165-186 | a value written and read back at the same place and width is reduced to that width |
| `Memory.ReadOther` | acca-emu/src/util.rs:165-186 | a write does not disturb a read of other bytes |
| `Memory.WriteFrame` | acca-emu/src/util.rs:179-186 | a write changes no byte outside its range |
| `Util.ZeroExtendImmediate` | acca-emu/src/util.rs:78-82 | the mask keeps the value modulo 2 to the width, for every width up to 64 |
| `Util.SignExtendImmediate` | acca-emu/src/util.rs:84-93 | the result is the two's complement reading of the low bits as a 64-bit word |
| `Util.GetUnsigned` | acca-emu/src/util.rs:283-285 | the low part of a register |
| `Util.GetSigned` | acca-emu/src/util.rs:287-289 | the low part of a register, sign-extended |
| `Util.RegisterSet` | acca-emu/src/util.rs:299-305 | the masks replace exactly the low part of a register |
| `Util.FlagsRoundTrip` | acca-emu/src/util.rs:357-432 | a packed flag word is determined by its six flags, which the single-bit operations read and set |
| `Util.AddFormulas` | acca-emu/src/vm.rs:388-431 | the most-significant-bit formulas of add give C exactly when the unsigned sum does not fit and O exactly when the signed one does not, with carry in, at every even modulus |
| `Util.SubFormulas` | acca-emu/src/vm.rs:432-475 | the formulas of sub give C exactly on an unsigned borrow and O exactly when the signed difference does not fit, with borrow in |
| `Util.Imm11Meaning` | acca-emu/src/vm.rs:192-199 | a shifted immediate is its signed or unsigned value times 2 to the power 11 k modulo 2^64 for factors 0 to 5; for 6 and 7 the shift counts of a release build |
| `Util.LdiMeaning` | acca-emu/src/vm.rs:355-373 | the mask and shift code of ldi replaces the 16-bit field and clears below or above it |
| `Util.InfoWord` | acca-emu/src/vm.rs:996-1014 | the shifted and or-ed exception information is the arithmetic word |
| `Vm.VM.constructor` | acca-emu/src/vm.rs:100-120 | a new machine is the reset state: zero memory and registers, at 0x400, PL0 |
| `Vm.VM.LoadFile` | acca-emu/src/vm.rs:126-138 | the file replaces exactly its range of memory; the call panics exactly when it does not fit |
| `Vm.VM.RangeIsFits` | acca-emu/src/vm.rs:140-148 | the bounds test on wrapping addresses is the bounds check in unbounded integers |
| `Vm.VM.ReadBytes` | acca-emu/src/vm.rs:162-175 | the bytes of a range are read as a little-endian number |
| `Vm.VM.WriteBytes` | acca-emu/src/vm.rs:177-190 | a number is written little-endian and no other byte changes |
| `Vm.VM.TakeException` | acca-emu/src/vm.rs:983-1038 | the in-place body computes the entry whose state Runs.PreciseException and the stack HandlerEntry.HandlerStack spell out |
| `Vm.VM.SwitchedSp` | acca-emu/src/vm.rs:1020-1030 | the comparisons with base and wrapped top compute the pointer that HandlerEntry.HandlerStack describes |
| `Vm.VM.Pushs` | acca-emu/src/vm.rs:274-284 | computes the meaning of the instruction on the whole state, fault included |
| `Vm.VM.Pushp` | acca-emu/src/vm.rs:285-298 | both values are taken before the stack pointer moves; the first lies lower |
| `Vm.VM.Pops` | acca-emu/src/vm.rs:299-309 | the increment is applied after the load, so it wins over a pop into the stack pointer |
| `Vm.VM.Popp` | acca-emu/src/vm.rs:310-322 | as pops, for a pair |
| `Vm.VM.Lds` | acca-emu/src/vm.rs:323-329 | load of one element or a fault with its address and size |
| `Vm.VM.Ldp` | acca-emu/src/vm.rs:330-338 | load of a pair |
| `Vm.VM.Sts` | acca-emu/src/vm.rs:339-345 | store of one element or a fault |
| `Vm.VM.Stp` | acca-emu/src/vm.rs:346-354 | asks for one element and splits for two: a panic whenever the first element is in bounds |
| `Vm.VM.Ldi` | acca-emu/src/vm.rs:355-373 | computes the meaning of ldi with its clear bits |
| `Vm.VM.Ldr` | acca-emu/src/vm.rs:374-378 | the address after the instruction plus a signed byte offset |
| `Vm.VM.Copy` | acca-emu/src/vm.rs:379-387 | the low part is copied, the rest kept |
| `Vm.VM.Add` | acca-emu/src/vm.rs:388-431 | sum and flags at the width, from 64-bit arithmetic on sign-extended operands |
| `Vm.VM.Sub` | acca-emu/src/vm.rs:432-475 | difference and flags at the width |
| `Vm.VM.Mul` | acca-emu/src/vm.rs:476-493 | product of signed or unsigned operands, wrapped and stored at the destination width |
| `Vm.VM.Div` | acca-emu/src/vm.rs:494-514 | truncated quotient and remainder; remainder first, so the quotient wins on equal destinations; panics as the code does |
| `Vm.VM.Logic` | acca-emu/src/vm.rs:515-610 | and, or, xor with zero-extended register or shifted immediate operands |
| `Vm.VM.ShiftLeft` | acca-emu/src/vm.rs:611-657 | computes the instruction whose bits and carry Shifts.ShiftLeftMoves gives |
| `Vm.VM.ShiftRight` | acca-emu/src/vm.rs:658-720 | computes the instruction whose bits and carry Shifts.ShiftRightMoves gives, from the zero-extended operand |
| `Vm.VM.Rotate` | acca-emu/src/vm.rs:721-759 | rotation at the width and S |
| `Vm.VM.Neg` | acca-emu/src/vm.rs:760-771 | negation of the sign-extended operand with Z and S |
| `Vm.VM.Bswap` | acca-emu/src/vm.rs:772-787 | byte reversal at the width and S |
| `Vm.VM.CompareOperands` | acca-emu/src/vm.rs:223-246 | tests a condition on the flags a subtraction would set |
| `Vm.VM.Soc` | acca-emu/src/vm.rs:788-794 | stores the outcome of a comparison |
| `Vm.VM.Sof` | acca-emu/src/vm.rs:795-806 | stores the outcome of a test of the flags |
| `Vm.VM.Jump` | acca-emu/src/vm.rs:201-210 | an unaligned destination raises an exception, an aligned one becomes the next address |
| `Vm.VM.JumpWhen` | acca-emu/src/vm.rs:211-222 | a jump under an optional condition |
| `Vm.VM.CallWhen` | acca-emu/src/vm.rs:255-265 | a call links the next instruction, unless its jump raised |
| `Vm.VM.CompareAndJump` | acca-emu/src/vm.rs:247-254 | a comparison and a jump |
| `Vm.VM.Ret` | acca-emu/src/vm.rs:852-855 | returns to the link register without an alignment check |
| `Vm.VM.Eret` | acca-emu/src/vm.rs:856-864 | PL1 raises; PL0 restores address, flags and stack pointer |
| `Vm.VM.Exc` | acca-emu/src/vm.rs:871-879 | moves on, then raises the user exception |
| `Vm.VM.Ldm` | acca-emu/src/vm.rs:881-904 | computes the instruction that Privileged.LdmReads describes register by register |
| `Vm.VM.Stm` | acca-emu/src/vm.rs:905-973 | computes the instruction that Privileged.StmStores describes register by register |
| `Vm.VM.StoreEctable` | acca-emu/src/vm.rs:950-966 | the table is read as 48 words, checked for undefined flags and only then put in force |
| `Vm.VM.DecodeWord` | acca-emu/src/vm.rs:269-977 | the arms are tried in source order and decide the same as the opcode |
| `Vm.VM.ExecuteOne` | acca-emu/src/vm.rs:150-981 | one call is one step of the reference machine, panics included, for every state and every word |
| `EndToEnd.RunEmulator` | acca-emu/src/vm.rs:1040-1044 | n turns of the emulator's loop are n steps, so every theorem about runs holds of the object |
| `Runs.PreciseException` | acca-emu/src/vm.rs:162-265 | a cycle that traps changes nothing but the stack pointer and the exception registers, at the faulting address or after an exc; the pointer becomes the top of the stack of the entry in force exactly when that asks for its stack and the pointer lies outside it |
| `Runs.RaisedContained` | acca-emu/src/vm.rs:274-978 | an instruction that raises has done nothing else before |
| `Runs.Resumes` | acca-emu/src/vm.rs:856-864 | an eret with elr, esp and eflags as on entry restores address, flags and stack pointer of the interrupted state |
| `Runs.NestedExceptions` | acca-emu/src/vm.rs:983-1038 | at any nesting depth, if every handler gives back these three registers, the machine comes back from the outermost fault and every interrupted state is resumed |
| `Runs.SoundStep` | acca-emu/src/vm.rs:852-972 | one step keeps ip, elr and evtable aligned and the exception table valid, except exactly when it is a return to a misaligned address |
| `Runs.SoundFromReset` | acca-emu/src/vm.rs:100-120 | so every state of every run from a new machine keeps them while executed returns are aligned, and memory keeps its size |
| `Runs.Pl1Step` | acca-emu/src/util.rs:457-472 | one step at PL1 leaves all control state alone or enters a PL0 handler of the table in force |
| `Runs.Pl1Run` | acca-emu/src/vm.rs:856-972 | along every run from PL1, until PL0 is first reached, control registers and privileged flag bits never change; the first PL0 state is an exception entry at its vector in the PL1 half of the table, or four bytes in exactly when the word fetched is unmatched |
| `Arithmetic.MultiLimbAdd` | acca-emu/src/vm.rs:388-409 | one flag-setting add and any number of adds with carry in compute the exact sum of numbers of many registers, with C its carry out, O its signed overflow and S its sign |
| `Arithmetic.MultiLimbSub` | acca-emu/src/vm.rs:432-453 | the same for subtraction with the final borrow |
| `Arithmetic.AddChainExact` | acca-emu/src/vm.rs:388-409 | limb results and last carry make the exact sum in any base |
| `Arithmetic.AddChainFlags` | acca-emu/src/vm.rs:388-409 | the last limb's O and S are those of the whole numbers |
| `Comparisons.ConditionsAreOrders` | acca-emu/src/util.rs:95-110 | C is the unsigned order, Z equality modulo the width and S xor O the signed order of the left operand and the right one plus the borrow, at every width |
| `Comparisons.OverflowAndSign` | acca-emu/src/util.rs:95-110 | O is exactly that the signed difference does not fit, S that its low part reads as negative |
| `Comparisons.SubtractionFlags` | acca-emu/src/vm.rs:432-475 | the flags any subtraction leaves, its right operand a register or a shifted immediate, are the same orders, range and sign |
| `Comparisons.FusedJump` | acca-emu/src/vm.rs:822-825 | cjmpa is a null-destination flag-setting sub and jmpa, with the old flags back, exceptions included |
| `Comparisons.FusedBranch` | acca-emu/src/vm.rs:826-836 | cjmpr likewise, by register or offset |
| `Comparisons.FusedSet` | acca-emu/src/vm.rs:788-806 | soc is a sub, with or without borrow, and sof |
| `Constants.FourLoads` | acca-emu/src/vm.rs:355-373 | any 64-bit value is produced from any register content by ldi at the four shifts in any order |
| `Constants.SixOrs` | acca-emu/src/vm.rs:563-578 | and from zero by or-ing six shifted immediates |
| `Products.ProductModulo` | acca-emu/src/vm.rs:476-493 | mul stores the product modulo the destination width and keeps the upper bits |
| `Products.ProductExact` | acca-emu/src/vm.rs:476-493 | nothing is lost when the destination is at least twice as wide |
| `Products.DivisionExact` | acca-emu/src/vm.rs:494-514 | q b + r = a, the remainder is smaller than the divisor, r never of the opposite sign of a, upper bits kept; the one signed quotient that does not fit wraps |
| `BitMoves.RotatedBit` | acca-emu/src/vm.rs:721-759 | bit i of a rotation is bit i + k of the operand modulo the width |
| `BitMoves.RotateBack` | acca-emu/src/vm.rs:721-759 | rotating on by the rest of the width gives the operand back |
| `BitMoves.ReversedTwice` | acca-emu/src/vm.rs:772-787 | reversing the bytes twice gives the value back |
| `Stack.RunRefines` | acca-emu/src/vm.rs:274-322 | whenever a list of sized values can run a sequence of pushes and pops, the machine does, with equal registers, memory picturing the list and no byte changed outside |
| `Stack.WellNestedRuns` | acca-emu/src/vm.rs:274-322 | any well-nested sequence of any widths with room runs without exceptions, pops deliver in reverse order, the stack pointer returns exactly |
| `Stack.PopDelivers` | acca-emu/src/vm.rs:299-309 | a popped value lands in its register exactly when that is not the stack pointer |
| `Shifts.ShiftLeftMoves` | acca-emu/src/vm.rs:611-657 | bit i of the destination of shl is bit i - k of the operand within the width, zeros come in, C is bit w - k of the operand (bit 0 for k at least w, unchanged for 0), Z and S are the result's and O is cleared |
| `Shifts.ShiftRightMoves` | acca-emu/src/vm.rs:658-720 | bit i of the destination of shr is bit i + k of the operand; past the width comes bit 63 in a signed shift of a word and zero in a narrower or unsigned one; for k at least w all bits are the sign or zero; C is bit k - 1, or the top bit |
| `Shifts.RotateTurns` | acca-emu/src/vm.rs:721-759 | bit i of the destination of rot is bit i + k, modulo the width, of the operand, S is the top bit and no other flag changes |
| `Operations.AddMeans` | acca-emu/src/vm.rs:388-431 | add stores the sum of the left operand, the register or shifted and sign-extended immediate, and the carry asked for, modulo the width; C, Z, O and S say what they are named for |
| `Operations.SubMeans` | acca-emu/src/vm.rs:432-475 | the destination of sub plus right operand and borrow is the left operand modulo the width |
| `Operations.LogicMeans` | acca-emu/src/vm.rs:515-610 | every bit of the destination of and, or and xor is that operator of the operands' bits; Z and S are the result's, O is cleared, C stays |
| `Operations.NegMeans` | acca-emu/src/vm.rs:760-771 | destination and operand of neg add up to zero modulo the width; Z and S are the result's and the other flags stay |
| `Operations.MulMeans` | acca-emu/src/vm.rs:476-493 | mul stores the product of the operands read at the source width modulo the destination width, and Z and S describe it at the destination width |
| `Operations.DivMeans` | acca-emu/src/vm.rs:494-514 | for any two destinations quotient times divisor plus remainder is the dividend, the quotient wins where they are one register, and Z and S describe the quotient |
| `Operations.DivAborts` | acca-emu/src/vm.rs:494-514 | div panics exactly on a divisor that is zero at its width and on the least 64-bit number by minus one |
| `Operations.BswapMeans` | acca-emu/src/vm.rs:772-787 | byte i of the destination of bswap is byte n - 1 - i of the operand, S is the top bit |
| `Transfers.LdsMeans` | acca-emu/src/vm.rs:323-329 | byte j of the destination of lds is the byte of memory at the address plus j |
| `Transfers.LdpMeans` | acca-emu/src/vm.rs:330-338 | the first destination of ldp gets the bytes at the address, the second those that follow, and wins where they are one register |
| `Transfers.StsMeans` | acca-emu/src/vm.rs:339-345 | sts puts byte j of the source at the address plus j and changes no other byte |
| `Transfers.AccessFaults` | acca-emu/src/vm.rs:323-354 | a load or store outside memory raises a data fault with the address, the direction and the number of bytes; stp inside memory panics |
| `Transfers.CopyMeans` | acca-emu/src/vm.rs:379-387 | copy moves the low part and keeps the rest of the destination |
| `Transfers.LdiMeans` | acca-emu/src/vm.rs:355-373 | bit by bit, ldi replaces sixteen bits and clears or keeps those below and above them as its two clear bits say |
| `Transfers.SofMeans` | acca-emu/src/vm.rs:795-806 | sof stores one exactly when the condition holds of the flags |
| `Transfers.SocMeans` | acca-emu/src/vm.rs:788-794 | soc stores one exactly when it holds of the flags of the subtraction |
| `Transfers.ControlGoes` | acca-emu/src/vm.rs:201-265 | every jump and call: its destination from registers or offset, what happens when the condition fails, the exception of a misaligned destination, and the link register written only by a call that goes |
| `Transfers.RetGoes` | acca-emu/src/vm.rs:852-855 | ret goes to the link register, aligned or not |
| `Transfers.DiscardsResult` | acca-emu/src/vm.rs:388-759 | an instruction with a null destination does to the flags what it does with one, and nothing else |
| `Privileged.LdmReads` | acca-emu/src/vm.rs:881-904 | ldm delivers each of the eight machine registers, by number, at PL0 and only the six flag bits at PL1; anything else, the console included, raises an invalid operation |
| `Privileged.StmStores` | acca-emu/src/vm.rs:905-973 | stm stores to the console at either level and at PL0 to each register, by number, exactly what passes its check, the table as sixteen entries of three words; anything else raises, outside memory a data fault |
| `Privileged.ConditionCodes` | acca-emu/src/util.rs:95-127 | the even condition code 2 k tests bit k of the flag word, code 8 whether S and O differ, each odd code the contrary of the one before |
| `Privileged.SizeCodes` | acca-emu/src/util.rs:139-150 | size code k stands for 2^k bytes |
| `Secrecy.Pl1Blind` | acca-emu/src/util.rs:457-472 | what one cycle at PL1 does to registers, memory, flags, address and console, and whether it traps or panics, does not depend on elr, esp, eflags, einfo, eaddr, evtable or the exception table |
| `Secrecy.Pl1Secrecy` | acca-emu/src/util.rs:457-472 | so two machines that differ only in these go through the same states at PL1 for any number of cycles, and leave it at the same cycle |
| `HandlerEntry.EntryTells` | acca-emu/src/vm.rs:983-1038 | a handler finds in einfo the number of its exception and the value, direction, size or information that belongs to it, in eaddr the address of a data fault; the number chooses vector and table entry |
| `HandlerEntry.HandlerStack` | acca-emu/src/vm.rs:1020-1030 | an exception from outside the stack its table entry asks for starts the handler at base plus size of that stack; otherwise the stack pointer is kept |
| `HandlerEntry.StaysOnStack` | acca-emu/src/vm.rs:274-322 | pushes and pops that never have more than the size of a stack pushed complete, stay inside it and change no other byte |
| `HandlerEntry.HandlerStaysOnStack` | acca-emu/src/vm.rs:1020-1030 | so a handler that interrupts a pointer outside its stack, wherever that was, has the whole stack and writes nowhere else |
| `GuestPrint.PrintStringReturns` | acca-as/examples/exc.acca:153-187 | print_string terminates, appends the string and returns, changing r0, r9, flags and 16 bytes of stack |
| `GuestPrint.PrintU64Returns` | acca-as/examples/exc.acca:191-258 | print_u64 terminates for every 64-bit value, appends its decimal notation and returns with stack and frame pointer restored, within 48 bytes of stack |
| `GuestPrint.DecimalMeans` | acca-as/examples/exc.acca:191-258 | the notation reads back as the number, has only digits and no leading zero |
| `GuestPrint.AtMostTwenty` | acca-as/examples/exc.acca:196-197 | the digit buffer of 32 bytes is never overrun |
| `GuestHandler.HandlerIsTransparent` | acca-as/examples/exc.acca:263-310 | from exc the machine comes back to the next instruction with all registers and flags as before; only the console and 176 bytes of stack changed |
| `GuestProgram.ProgramPrints` | acca-as/examples/exc.acca:125-151 | the whole program, from its entry, prints its two lines with the report between them |
| `GuestProgram.StaysInLoop` | acca-as/examples/exc.acca:150-151 | and stays in its last loop for ever |
| `Expressions.Truncate` | acca-as/src/main.rs:478-492 | the masks keep the low bits, as an unsigned or a two's complement number |
| `Expressions.EvalStable` | acca-as/src/main.rs:228-327 | an expression that has a value keeps it when more names become known; what the value is, module Calculation says |
| `Expressions.BitwiseLaw` | acca-as/src/main.rs:283-313 | and, or and xor share out the bits of their operands |
| `Calculation.SumsAndProducts` | acca-as/src/main.rs:297-299 | a sum or product below 2^64 is the integer one, and any is so modulo 2^64 |
| `Calculation.Differences` | acca-as/src/main.rs:298 | a difference is what added to the right operand gives the left one, always modulo 2^64 and exactly when that is no larger |
| `Calculation.Negations` | acca-as/src/main.rs:283 | a negation and its operand add up to zero |
| `Calculation.Quotients` | acca-as/src/main.rs:300-313 | quotient times divisor plus remainder is the dividend, the remainder is below the divisor, and both operators fail exactly on a zero divisor |
| `Calculation.BitOperators` | acca-as/src/main.rs:284-290 | and, or, xor and complement, bit by bit |
| `Calculation.ShiftOperators` | acca-as/src/main.rs:291-296 | bit i of a shifted value is bit i - k or i + k of it, k the low half of the right operand; zeros come in, except that an arithmetic shift right repeats bit 63 |
| `Calculation.ValueOrError` | acca-as/src/main.rs:282-316 | an operator has a value exactly when its operands have and no divisor is zero, and the first operand without one decides the error |
| `Table.TablesAgree` | acca-as/src/main.rs:838-923 | every template of the assembler is the template of the emulator's arm |
| `Operands.CommonRegisterSize` | acca-as/src/main.rs:494-516 | the loop returns the one size everything declares, Word if nothing does, and fails exactly when two sizes are declared |
| `Operands.BoundLetters` | acca-as-proc-macro/src/lib.rs:425-470 | every operand is bound to its own letter and s, t and c to sizes and condition |
| `Meaning.RowSays` | acca-as/src/main.rs:838-923 | through the letters of its templates every row is the instruction written, operand by position |
| `Emission.RowDecodes` | acca-as/src/main.rs:838-929 | every word the table can emit, pseudo-instructions included, decodes to the instruction written; none is unmatched or has an invalid field |
| `Emission.ComparisonWord` | acca-as/src/main.rs:928-929 | a cmp template writes the word of a sub with no destination and flags set |
| `Emission.AssembledMeans` | acca-as/src/main.rs:838-929 | the same from source operands, after evaluation, defaults, truncation and size agreement |
| `Emission.OperandWritten` | acca-as-proc-macro/src/lib.rs:462-520 | operand k is what is written in place k: register, null register, or the value of its expression at the instruction's address, cut to the field; left out it is zero or null |
| `Emission.SizeSettled` | acca-as/src/main.rs:494-516 | an instruction with a size suffix resolves exactly when all sizes written agree and a required condition is there, and works at that size, Word if none is written |
| `Emission.MulAssembles` | acca-as/src/main.rs:858-865 | mul d, x, y decodes to the product of x and y, read at the size they are written with, into d at the size it is written with; operands of two sizes do not assemble |
| `Layout.FirstPass` | acca-as/src/main.rs:618-697 | the first loop, which gathers runs of labels, computes the address of every name |
| `Layout.PlaceLabels` | acca-as/src/main.rs:626-653 | a run of labels gets one address, aligned exactly when an instruction follows the run |
| `Layout.SecondPass` | acca-as/src/main.rs:756-833 | the second loop computes the output file item by item |
| `Layout.WriteAll` | acca-as/src/main.rs:787-807 | the loop computes the file after all values of a directive; EndToEnd.ValueReadsBack says what stands in it |
| `Agreement.AgreeExactly` | acca-as/src/main.rs:618-822 | for every program the first pass accepts: the second is at the same address after every item, but for the alignment of labels, if and only if every .addr still has the target the first pass gave it |
| `Agreement.BoundOnceTargets` | acca-as/src/main.rs:680-697 | which is so, whatever the expressions, when no name is bound twice |
| `Agreement.TwoPassesAgree` | acca-as/src/main.rs:618-822 | then the passes are at the same address before every directive and after every item but labels |
| `Agreement.SameValues` | acca-as/src/main.rs:661-671 | wherever the passes agree, every .addr expression, $ included, has the same value in both |
| `Agreement.LabelIsAddress` | acca-as/src/main.rs:626-653 | a label is the address of the instruction or directive it marks |
| `Agreement.DefIsValue` | acca-as/src/main.rs:680-692 | a .def is worth what its expression means with all names known at its place in the second pass |
| `Agreement.LabelFails` | acca-as/src/main.rs:643-648 | a label is an error exactly when its name is already bound by a label or a .def, and that ends the pass |
| `Agreement.RedefinitionDiverges` | acca-as/src/main.rs:680-692 | a program that redefines the name in an .addr by .def fails the condition, and the passes put its instruction at different addresses |
| `Agreement.RepetitionAgrees` | acca-as/src/main.rs:680-692 | one that binds the name again to the same value meets it |
| `Image.ImageHolds` | acca-as/src/main.rs:767-833 | the four bytes of every instruction word and the bytes stored for every written value stand at their address in the final file, wherever .addr goes, unless a later item writes over them; EndToEnd.ValueReadsBack reads the values back |
| `Image.AscendingKeeps` | acca-as/src/main.rs:767-833 | nothing is written over when addresses ascend |
| `Image.GapsAreZero` | acca-as/src/main.rs:824-833 | and every byte nothing wrote is zero |
| `EndToEnd.ValueReadsBack` | acca-as/src/main.rs:787-807 | in memory with the file loaded, reading a .write's size at its address plus the sizes before gives the value of the expression modulo that size, unless a later item writes over it |
| `EndToEnd.RunsWhatWasWritten` | acca-emu/src/vm.rs:150-160 | a machine that loaded the file and stands at an instruction's address is about to execute what the source line means |
| `EndToEnd.JumpReachesLabel` | acca-as/src/main.rs:318-327 | jmpr to a label, assembled, loaded and executed, brings the machine to the instruction the label marks, about to execute what that line means |
| `EndToEnd.CallReachesLabel` | acca-as/src/main.rs:318-327 | callr likewise, linking the next instruction |
| `EndToEnd.BranchReachesLabel` | acca-emu/src/vm.rs:832-836 | cjmpr likewise when its comparison holds at the size its registers declare |
| `EndToEnd.LdrLoadsLabel` | acca-as/src/main.rs:718-724 | ldr of a label loads the address of what it marks |
| `EndToEnd.Load` | acca-emu/src/vm.rs:126-138 | a file loaded at 0 is at the bottom of memory if it fits, and nothing else changes |
| `Relative.JumpGoesToTarget` | acca-as/src/main.rs:318-327 | where memory holds the word assembled for it, jmpr goes to its target if taken, exactly when that is within 2^23 bytes of the next instruction, and to the next instruction if not |
| `Relative.CallGoesToTarget` | acca-emu/src/vm.rs:847-851 | callr likewise, linking the next instruction |
| `Relative.BranchGoesToTarget` | acca-emu/src/vm.rs:832-836 | cjmpr likewise within 2^14 bytes, by its comparison at the size its registers declare |
| `Relative.LdrLoadsTarget` | acca-as/src/main.rs:718-724 | ldr loads its target, aligned or not, exactly when it is within 2^21 bytes, and changes nothing else |
| `Statements.LabelOf` | acca-as/src/main.rs:626-653 | in a program of statements a label is worth the address of its statement, aligned before an instruction |
| `Statements.StatementsEmit` | acca-as/src/main.rs:756-833 | statements that can each be written at their address make a program that assembles and never overwrites |
| `ExampleLayout.Addresses` | acca-as/examples/exc.acca:1-319 | the place of each statement of the example program, independent of any name |
| `ExampleLayout.ExampleAccepted` | acca-as/src/main.rs:618-697 | the first pass accepts it: its names are all different |
| `ExampleMeaning.ReadingMeans` | acca-as/src/main.rs:838-929 | its lines, by form, are what evaluation, defaults, size agreement and relative offsets make of them |
| `ExampleRun.ExampleAssembles` | acca-as/examples/exc.acca:1-319 | both passes accept the text, and nothing in the file is written over |
| `ExampleRun.TextIsProgram` | acca-as/examples/exc.acca:1-319 | the file in memory is every routine, string and table that the theorems about the routines suppose |
| `ExampleRun.ExamplePrints` | acca-as/examples/exc.acca:125-151 | a machine at the entry of the assembled program prints its output within some number of cycles, and nothing more after that |
| `ExampleRun.BootPrints` | acca-emu/src/vm.rs:100-138 | so does a new machine of any size from 16 MiB with the file loaded: its run is determined by that size |
| `ExampleRun.RunExample` | acca-emu/src/vm.rs:1040-1044 | both passes, a new machine, the file loaded and n turns of the loop: for every n nothing fails and the machine is where n cycles lead to from that start, and from a number of cycles on that depends on the size alone the console holds exactly the output |

## Left out

- The grammar, operator precedence and number syntax of the assembler: the model starts from parsed items, and operand kinds the grammar would refuse are an error.
- Command line, file and memory-map errors, the trace and the exception message on standard output; the console is a sequence of bytes.
- Interrupts and exceptions pending while masked: the emulator never raises them.
- Debug builds, which stop on arithmetic overflow instead of wrapping.
- `Exception::id` reads a discriminant through a pointer and the exception table is read through unaligned pointers; the model uses the declared numbers 0 to 7 and 48 little-endian words.
- The text of `exc.acca` enters as parsed statements; comments and the spelling of numbers and characters are gone.
- Source positions in error messages; which error is reported first follows the order of evaluation.
- Relative.JumpGoesToTarget: supposes an instruction address that is a multiple of four; EndToEnd.JumpReachesLabel has that from the assembler, which aligns every instruction.
- Agreement.TwoPassesAgree: supposes that no name is bound twice; AgreeExactly has the exact condition.
- Image.ImageHolds: of a `.write`, supposes that its own values do not run over the top of the address space.
- Runs.SoundFromReset: supposes that every executed `ret` has an aligned link register; SoundStep shows that this is exactly where the invariant can fail.
- The LLVM examples, the editor support and the specification text.
