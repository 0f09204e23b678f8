# go-plan9: verified models

This project models the parts of the go-plan9 tree (an early Go tool chain with its Plan 9 C
libraries) in which the code does something a reader cannot check at a glance: it rewrites its own
input while still reading it, searches with two unrelated algorithms that must agree, emits bytes
that another program decodes, or runs as communicating processes. Each module holds a model of the
code, in the form the code has, a reference that says what the code is for, and proofs that connect
the two for all inputs, runs or reachable states.

| module | what it models | main result |
|---|---|---|
| `MulConst` | multiplication by a constant compiled to shifts and adds (5c) | a program that is returned multiplies every word by the constant; the hint search and the register search agree |
| `BoolGen` | code for conditions (5c) | generated code tests or stores the truth of the condition, evaluates exactly the operands C demands, in order, and leaves no branch open but the one it reports |
| `Predication` | if-conversion on ARM code (5c) | the converted function halts in the same states as the original, for every meaning of its instructions |
| `IfShapes` | which branches it takes | exactly those that skip a short chain, or nodes that end with a jump or an exit |
| `ArmFlags` | which instructions set the flags, by the words the linker makes (5l) | the compiler's list compared with the words, for every opcode; if-conversion is right on a machine that runs the words |
| `ShiftProp` | folding shifts into shifted operands (5c) | the pass preserves the final state of straight-line code, for every constant amount as the linker encodes it, and ends when no shift is left that qualifies |
| `ShiftUse` | what the compiler knows of uses and definitions (5c) | the answers of `copyu` are exact: they say what setting a register first changes, on any machine |
| `ObjectFile` | the object writer of 5a and the reader of libmach | what was asked to be written is what is read back, across ring wrap-around, eviction and retry |
| `PcLine` | the pc/line table: encoder in 5l, two decoders in libmach | every instruction reads back its own line; the two decoders agree on the nearest line |
| `Bio` | buffered input and output (libbio) | what is read is the file in order, through any short reads and un-reading; every seek is right until a `Bgetc` has met the end of the file and reading went on, and which byte it finds after that, exactly; what is written is what was accepted |
| `BioCursor` | programs that read through it | any sequence of reads, lines, un-reading and seeks gives what a plain cursor over the file gives, however the descriptor serves it |
| `CleanName` | `cleanname`, in place | the result is the canonical name: two names clean alike exactly when they lead to the same place from everywhere |
| `Tokenize` | `tokenize` and `gettokens`, in place | a list that is quoted and joined is split back into itself |
| `Balancer` | the load balancer of the 2010 talk as a state machine | counts are right in every reachable state, dispatching never blocks, no deadlock, each request is answered once |
| `WorkerPool` | the heap of workers behind it | dispatch charges a least-loaded worker, and the heap survives |
| `EvalParser` | the precedence parser of the 2010 talk | the value is that of the one tree nested as the numbers of the precedence table say |
| `Sieve` | the concurrent prime sieve | under every schedule what is printed is the first primes, and every prime is printed after a bounded number of steps |
| `Spigot` | the digit generator for pi | what is printed are the first digits of pi; every digit is printed if and only if pi is no decimal fraction |
| `Leibniz` | pi by the series of Leibniz | Euler's series, which the generator sums, has the same limit, with explicit bounds |

`Word32` holds the 32-bit arithmetic that `MulConst`, `ShiftProp` and `PcLine` share, `Opcodes` the
opcodes that `Predication`, `ArmFlags` and `ObjectFile` share, and `Common` the types that several modules use.
`dafny verify dfyconfig.toml` checks everything.

Where comments in the sources and the code disagree, the model follows the code: `line2addr` never
looks at the last state of its table (`PcLine.LastStateMissed`); after the end of a file has been met
twice by `Bgetc`, a seek back inside the buffer but behind the last, partial read and the four bytes
before it finds other bytes than those asked for, and which ones is known (`Bio.SeekAfterEnd`,
`Bio.SeekBack`, `Bio.FoundIsTarget`, `Bio.Misread`); `Brdline` loses bytes when more of them were given back than the
buffer holds (`Bio.Biobuf.Brdline`, `Bio.LoseByte`); the object reader has no case for register pairs
(`ObjectFile.InStepIff`); `modifiescpsr` does not know that floating-point compares set the flags, so that an
arm with one in front of other instructions is made conditional wrongly (`ArmFlags.CpsrExact`,
`ArmFlags.CompareIsMissed`); and multiplying by 0, for which the table has no hint, ends if and only if a
slot remembers 0 (`MulConst.Compiler.Ready`, `MulConst.HalvingEnds`). The compiler folds a shift by any
constant rightly, because the linker encodes five bits of the constant whether it is folded or not
(`ShiftProp.FoldKeepsEncoding`); those bits shift as the constant would only for some constants
(`ShiftProp.FieldIsExact`).

## Model

| member | source | states |
|---|---|---|
| `MulConst.RunCodeIsLinear` | src/cmd/5c/swt.c:198-290 | running a multiply program commutes with scaling the registers modulo 2^32 |
| `MulConst.CodeMultiplies` | src/cmd/5c/swt.c:198-290 | a program that computes v from the coefficients (1, 0) multiplies every word by v |
| `MulConst.ChoiceIsEmitted` | src/cmd/5c/mul.c:160-244 | each register choice of the search is what its digit makes the consumer do |
| `MulConst.MakesSwapped` | src/cmd/5c/mul.c:318-457 | operators that make a value out of a pair make it out of the swapped pair too |
| `MulConst.MakesStep` | src/cmd/5c/mul.c:318-457 | one more operator in front of a hint that works from the pair it leads to |
| `MulConst.FirstShiftSolves` | src/cmd/5c/mul.c:268-316 | the first shift turns the unordered search into one from the registers (1, 0) |
| `MulConst.Compiler.DoCode` | src/cmd/5c/mul.c:160-244 | the backtracking search succeeds if and only if some choice of registers does, and the code left behind runs to the value |
| `MulConst.Compiler.Gen3` | src/cmd/5c/mul.c:318-457 | success puts exactly the asked number of operators in front, and they make the value from the pair |
| `MulConst.Compiler.Gen2` | src/cmd/5c/mul.c:268-316 | the same for a hint that starts from 1 and one shifted value |
| `MulConst.Compiler.Gen1` | src/cmd/5c/mul.c:246-266 | for values up to 2^29 a hint that is found has the asked length and the register search succeeds on it; for 0 none is found |
| `MulConst.ShiftedEvaluates` | src/cmd/5c/mul.c:140-155 | appending a shift multiplies the program's constant by the power of two |
| `MulConst.Compiler.FindShifted` | src/cmd/5c/mul.c:140-157 | the program of the odd part and a shift multiplies by the even value; the slot holds it or nothing |
| `MulConst.Compiler.Lookup` | src/cmd/5c/mul.c:98-115 | an entry that is found is the value's; in a table in rising order one is found if there is one |
| `MulConst.Compiler.Ready` | src/cmd/5c/mul.c:63-138 | everything before the last resort: the answer or a claimed slot; for 0, with no hint for it in the table, there is an answer if and only if a slot remembers one |
| `MulConst.HalvingEnds` | src/cmd/5c/mul.c:140-147 | the loop that takes out factors of two comes to an odd number if and only if the value is not 0 |
| `MulConst.Compiler.Find` | src/cmd/5c/mul.c:63-158 | the slot returned holds a program for the value; every other slot stays sound; a remembered answer is given again |
| `MulConst.Compiler.Mulcon0` | src/cmd/5c/mul.c:63-158 | the program returned multiplies every word by the absolute value modulo 2^32; no searched hint for a value up to 2^29 is ever rejected; 0 is answered while some slot remembers it |
| `BoolGen.Comrel` | src/cmd/cc/sub.c:1524-1527 | the complement holds exactly when the relation does not |
| `BoolGen.Invrel` | src/cmd/cc/sub.c:1528-1531 | the relation with its sides exchanged |
| `BoolGen.ExecPatch` | src/cmd/5c/txt.c:1151-1157 | patching a branch changes only where a run that took it goes on |
| `BoolGen.ExecAppend` | src/cmd/5c/cgen.c:715-877 | code that is appended changes nothing until a run gets there |
| `BoolGen.CompareTests` | src/cmd/5c/cgen.c:810-862 | the compare and branch for two sides test their relation and evaluate both once, in order |
| `BoolGen.RelationCase` | src/cmd/5c/cgen.c:810-862 | a relation tests its truth |
| `BoolGen.ValueCase` | src/cmd/5c/cgen.c:732-743 | a plain value tests whether it is not zero |
| `BoolGen.ConstCase` | src/cmd/5c/cgen.c:745-755 | a constant tests its truth without evaluating anything |
| `BoolGen.NotCase` | src/cmd/5c/cgen.c:762-764 | a negation is its operand under the other sense |
| `BoolGen.CommaCase` | src/cmd/5c/cgen.c:757-760 | the left side is evaluated first and only the right side is tested |
| `BoolGen.CondCase` | src/cmd/5c/cgen.c:766-780 | one arm of a conditional is evaluated, and its truth decides |
| `BoolGen.BothCase` | src/cmd/5c/cgen.c:782-794 | the second operand is evaluated only if the first does not decide |
| `BoolGen.EitherCase` | src/cmd/5c/cgen.c:796-808 | the same with the senses exchanged |
| `BoolGen.StoreCase` | src/cmd/5c/cgen.c:864-876 | code that tests becomes code that stores 1 or 0 |
| `BoolGen.Generator.Boolgen` | src/cmd/5c/cgen.c:715-877 | appended code falls through exactly when the condition has the asked truth, else takes its one open branch; with a destination it stores 1 or 0 and leaves no branch open; the operands evaluated and their order are those of sections 6.5.13 to 6.5.15 and 6.5.17 of ISO C99 |
| `Predication.Info` | src/cmd/5c/peep.c:1260-1282 | the table's opposite condition passes exactly when the condition fails, and its opcodes branch accordingly (section A3.2 of the ARM Architecture Reference Manual) |
| `Predication.SurveyIsReported` | src/cmd/5c/peep.c:1363-1397 | what joinsplit reports about a chain: where it stops, why, and that what it passed could be conditional |
| `Predication.JoinSplit` | src/cmd/5c/peep.c:1363-1397 | the loop computes the survey |
| `Predication.ApplyPred` | src/cmd/5c/peep.c:1408-1441 | exactly the instructions of the arm are put under the condition, the closing jump is deleted or kept, edges are closed, nothing else changes |
| `Predication.ApplyOne` | src/cmd/5c/peep.c:1419-1437 | the same for one instruction |
| `Predication.Excise` | src/cmd/5c/peep.c:235-246 | the instruction becomes a no-op and the graph still covers the code |
| `Predication.Simulates` | src/cmd/5c/peep.c:1443-1471 | a region entered only at its top can be replaced by one that crosses alike, without changing any halting run |
| `Predication.OneArm` | src/cmd/5c/peep.c:1455-1462 | an arm run under the opposite condition crosses as the branch around it did |
| `Predication.TwoArms` | src/cmd/5c/peep.c:1455-1462 | two arms under opposite conditions cross as the branch and the jump did |
| `Predication.LeavingArm` | src/cmd/5c/peep.c:1463-1467 | an arm that leaves, with its exit made conditional, crosses as before |
| `Predication.ConvertLeaving` | src/cmd/5c/peep.c:1463-1467 | the converted code is equivalent, no branch is left in the region, and the change is the one decided |
| `Predication.ConvertOne` | src/cmd/5c/peep.c:1455-1462 | the same for one arm that rejoins behind itself |
| `Predication.ConvertTwo` | src/cmd/5c/peep.c:1455-1462 | the same for two arms that rejoin |
| `Predication.Turn` | src/cmd/5c/peep.c:1450-1469 | a branch is converted exactly as its two surveys decide, and the code stays equivalent |
| `Predication.DecideSame` | src/cmd/5c/peep.c:1450-1469 | what is decided about a later branch does not change with the conversions before it |
| `Predication.Predicate` | src/cmd/5c/peep.c:1443-1471 | the whole pass on a whole function, its TEXT and case tables included: the result halts in exactly the machine states the given code halts in, on every machine whose flags are set by no other instructions than `modifiescpsr` knows and floating-point compares, and each branch was dealt with in its turn as its surveys in the graph of that turn decide |
| `Predication.SmallIsConverted` | src/cmd/5c/peep.c:1443-1471 | a function with its TEXT in front meets what the pass asks for, and its branch is converted |
| `IfShapes.ConvertedIff` | src/cmd/5c/peep.c:1443-1471 | a branch is converted if and only if it skips forward over a chain of fewer than four instructions that nothing else leads into and of which none but the last sets the flags (a fourth may, as the last), or over such a chain with a jump or an exit at its end |
| `IfShapes.IfIsConverted` | src/cmd/5c/peep.c:1455-1462 | an if without else is one arm that rejoins |
| `IfShapes.IfElseIsConverted` | src/cmd/5c/peep.c:1455-1462 | an if with else is two arms that rejoin |
| `IfShapes.SkipIsConverted` | src/cmd/5c/peep.c:1455-1467 | an arm that ends with a jump or an exit is always converted |
| `ArmFlags.CpsrExact` | src/cmd/5c/peep.c:1342-1357 | for every opcode: the compiler's answer is whether the linker's word, or a call, sets the flags, but for floating-point compares, which it misses, and multiplications and stray S bits, which it adds |
| `ArmFlags.ArmKeepsFlags` | src/cmd/5l/asm.c:2227-2289 | a machine that sets flags by the linker's words, TST, TEQ, CMP and CMN as the ARM does, meets what the pass asks of a machine |
| `ArmFlags.FlagsChange` | src/cmd/5l/asm.c:2227-2289 | every word that counts as setting the flags changes them in some state |
| `ArmFlags.PredicateOnArm` | src/cmd/5c/peep.c:1443-1471 | the pass is right on every such machine |
| `ArmFlags.FloatingIsConverted` | src/cmd/5c/peep.c:1443-1471 | a function with a floating-point compare and a move under a branch: the pass makes both conditional |
| `ArmFlags.CompareIsMissed` | src/cmd/5c/peep.c:1342-1357 | and the code it makes of that halts in another state on some machine |
| `ShiftProp.NamedIsSame` | src/cmd/5c/peep.c:1037-1039 | naming the implied operand, a side effect of asking, changes nothing |
| `ShiftProp.Untouched` | src/cmd/5c/peep.c:910-1126 | answer 0: the instruction commutes with setting the register |
| `ShiftProp.NotSet` | src/cmd/5c/peep.c:910-1126 | answers 0 and 1: the register keeps its value |
| `ShiftProp.SetNotUsed` | src/cmd/5c/peep.c:910-1126 | answer 3: the old value of the register does not matter |
| `ShiftUse.CopyUExact` | src/cmd/5c/peep.c:910-1126 | for every opcode the question knows: 3 or 4 if and only if the result is the register; 0 or 3 if and only if setting the register first makes no difference elsewhere, on any machine and in any state, except for an instruction that subtracts the register from itself; 2 for every other opcode |
| `ShiftUse.SwappableExact` | src/cmd/5c/peep.c:613-643 | operands are exchanged for exactly those operations for which some operation does the same to them exchanged, CMN aside |
| `ShiftUse.TakesExact` | src/cmd/5c/peep.c:609-657 | an instruction can take the shift if and only if the register is its flexible operand only, or its other operand only and can be exchanged |
| `ShiftProp.Copyu` | src/cmd/5c/peep.c:910-1126 | the answer for a register; the instruction keeps its effect, what it uses and sets, and what it can take shifted |
| `ShiftProp.SwapIsSame` | src/cmd/5c/peep.c:622-643 | exchanging the operands, SUB with RSB and SBC with RSC, changes neither result nor flags |
| `ShiftProp.FoldIsSame` | src/cmd/5c/peep.c:678-703 | the instruction with the shifted operand does what it did with the shift's result |
| `ShiftProp.FoldWithSBit` | src/cmd/5c/peep.c:678-703 | under the S bit a logical instruction keeps its flags if and only if the carry out of the shifted operand is the old carry |
| `ShiftProp.PackRoundTrip` | src/cmd/5c/peep.c:681-703 | the offset encodes the operand without loss, and the bits copyau looks at name its registers |
| `ShiftProp.FoldKeepsEncoding` | src/cmd/5l/asm.c:1526-1545 | the operand that a shift is folded into has exactly the shifter bits that the linker gives the shift itself, for every amount |
| `ShiftProp.FieldIsExact` | src/cmd/5l/asm.c:1526-1535 | the five bits of a constant amount that are encoded shift as the constant would if and only if it is from 1 to 31, 0 in a left shift, or one of the wider amounts that shift everything out alike |
| `ShiftProp.WindowIsSame` | src/cmd/5c/peep.c:556-566 | from the shift to the next definition of its result the two codes reach the same state |
| `ShiftProp.ElidedIsEquivalent` | src/cmd/5c/peep.c:556-566 | so does the whole code |
| `ShiftProp.FirstUse` | src/cmd/5c/peep.c:588-608 | the first use is found if and only if the code runs straight to one with the operands intact |
| `ShiftProp.Prepare` | src/cmd/5c/peep.c:609-657 | says if and only if the use, its operands exchanged if need be, can take the shift |
| `ShiftProp.NextSet` | src/cmd/5c/peep.c:658-677 | found if and only if the register is set again before it is used again |
| `ShiftProp.Shiftprop` | src/cmd/5c/peep.c:568-707 | on any code: succeeds if and only if the shift can be folded; then the code without it is equivalent, if the use sets no flags from the shifter; on failure every instruction still has its effect |
| `ShiftProp.FoldsSame` | src/cmd/5c/peep.c:568-707 | whether a shift can be folded does not change under the operand naming and exchanging that earlier attempts leave behind |
| `ShiftProp.Peep` | src/cmd/5c/peep.c:75-106 | the pass, repeated until a turn folds nothing, ends; the code is equivalent and no shift in it can be folded |
| `ShiftProp.BitsAreLawful` | src/cmd/5c/peep.c:613-621 | the bitwise operations meet the one law the environment is asked for |
| `ObjectFile.RecordRoundTrip` | src/libmach/5obj.c:59-152 | reading a written record gives it back and ends where it ends, whatever surrounds it |
| `ObjectFile.InStepIff` | src/libmach/5obj.c:108-152 | the reader stays in step over a record if and only if neither operand is a register pair |
| `ObjectFile.ReplayFlat` | src/libmach/5obj.c:59-106 | reading a file record by record stays in step to its end |
| `ObjectFile.Writer.Intern` | src/cmd/5a/lex.c:618-655 | the index returned stands for the operand's symbol and kind in the ring, announced if it was not there |
| `ObjectFile.Writer.InternBoth` | src/cmd/5a/lex.c:614-657 | both indices hold at once; the retry ends |
| `ObjectFile.Writer.PutInstr` | src/cmd/5a/lex.c:520-579 | an instruction record means the operands that were passed in |
| `ObjectFile.Writer.Outcode` | src/cmd/5a/lex.c:601-671 | a reader of everything written so far gets exactly one more instruction, with exactly these operands; pass 1 writes nothing |
| `ObjectFile.OpcodeIsBranch` | src/cmd/5a/lex.c:581-611 | a jump under a condition is written as the branch that is taken exactly when the condition passes, and itself under no condition; every other opcode and condition as they are |
| `ObjectFile.PayloadIs` | src/cmd/5a/lex.c:512-578 | the bytes of an operand stand for its offset, or the halves of its floating-point constant, low half first, modulo 2^32 |
| `ObjectFile.LittleWorth` | src/cmd/5a/lex.c:546-553 | four bytes, the least first, stand for the number modulo 2^32 |
| `ObjectFile.ReadBackIsMeant` | src/cmd/5a/lex.c:601-671 | after any sequence of calls without register pairs the bytes alone give back every instruction, in order, with the symbols and kinds meant |
| `ObjectFile.Reader.ReadAddr` | src/libmach/5obj.c:108-152 | one operand is consumed as the format says |
| `ObjectFile.Reader.ReadId` | src/libmach/5obj.c:75-90 | a name is read up to its NUL and no further |
| `ObjectFile.Reader.Read5` | src/libmach/5obj.c:59-106 | one record is consumed and classified; false at the end or in a name that does not end |
| `PcLine.StatesRise` | src/libmach/sym.c:1319-1332 | the pcs of a table's states rise strictly |
| `PcLine.LineAtState` | src/libmach/sym.c:1302-1334 | at a state's own pc the line is that state's |
| `PcLine.SymbolTable.Pc2line` | src/libmach/sym.c:1302-1334 | the line of the first state at or above the pc, -1 without a table or outside the text |
| `PcLine.SymbolTable.Line2addr` | src/libmach/sym.c:1343-1391 | over all states but the last: the first one nearest to the line in the range, as 32-bit distances go; nothing if all lie before the line or none is nearer than the starting distance |
| `PcLine.GapIsDistance` | src/libmach/sym.c:1365-1373 | the 32-bit distance is the distance if and only if that is at most 2^31 - 1, and negative otherwise |
| `PcLine.NearestIsNearest` | src/libmach/sym.c:1365-1373 | with no line further away than that, nearest means what it says |
| `PcLine.SymbolTable.ReadersAgree` | src/libmach/sym.c:1302-1391 | the line at the address found is the nearest, and the address is the first such |
| `PcLine.NearestIsUnique` | src/libmach/sym.c:1361-1382 | there is only one answer |
| `PcLine.LastStateMissed` | src/libmach/sym.c:1361-1382 | the answer is the one over all states if and only if the last state, which is not looked at, would not win |
| `PcLine.LastLineExample` | src/libmach/sym.c:1361-1390 | a table of two entries whose last line is not found |
| `PcLine.PutPc` | src/cmd/5l/asm.c:1150-1160 | entries that only move the pc leave every line as it was |
| `PcLine.PutLine` | src/cmd/5l/asm.c:1149-1199 | the entries for an instruction speak for it and for none before it |
| `PcLine.Asmlc` | src/cmd/5l/asm.c:1130-1209 | the table is well-formed, of even length, and gives every instruction its own line |
| `Bio.Biobuf.Bgetc` | src/libbio/bgetc.c:30-67 | the next byte of the file or end of file; what can be given back is kept across refills; otherwise what stands at the count is served, and the whole new state; the buffer claims no more than is the file's, if it did not before, unless this met the end of the file |
| `Bio.Biobuf.Bungetc` | src/libbio/bgetc.c:69-79 | the position goes back by one; if there was a byte to give back, what is then in the buffer is the file's; no more is claimed than before |
| `Bio.Biobuf.Bread` | src/libbio/bread.c:30-71 | exactly the next bytes of the file, as many as asked for or as there are; one of them can be given back, and no more is claimed than is the file's, if it was not before |
| `Bio.Biobuf.Brdline` | src/libbio/brdline.c:30-113 | the line up to the first delimiter within the buffer's reach; without one nothing is consumed and the length at hand is reported, unless more bytes are unread than the buffer holds: exactly then those in front are lost; afterwards no more is claimed than is the file's, if it was not before |
| `Bio.LoseByte` | src/libbio/brdline.c:59-112 | a run that loses a byte: two bytes are given back across a refill, and a line is asked for that is not there |
| `Bio.Biobuf.Bseek` | src/libbio/bseek.c:30-93 | the offset returned is the one asked for, or -1; while no more is claimed than is the file's, or at the end of the file, reading goes on right from it if and only if it is not before the file, and that stays so; in any state reading goes on right if a seek inside the buffer goes back no further than the bytes of the last read and those kept in front of them, or if any other seek is not to a place before the file; a seek inside the buffer leaves the bytes alone |
| `Bio.Biobuf.ClaimedIsGood` | src/libbio/bseek.c:65-76 | while the buffer claims no more than the file's bytes, a seek inside it stays among them |
| `BioCursor.Run` | src/libbio/bseek.c:30-93 | for every file, buffer size, way of serving and sequence of Bgetc, Bungetc, Bread, Brdline and Bseek that gives back no more than it may, asks for a line only when bytes given back have been read again, and seeks or stops after a Bgetc met the end: every result is the one a plain cursor over the file gives |
| `BioCursor.Do` | src/libbio/bseek.c:30-93 | each operation gives the cursor's answer, and the buffer goes on standing for the cursor |
| `BioCursor.DoGet` | src/libbio/bgetc.c:30-67 | the byte at the cursor; one more can be given back, up to four; meeting the end once leaves seeks right |
| `BioCursor.DoRead` | src/libbio/bread.c:30-71 | the bytes from the cursor on |
| `BioCursor.DoLine` | src/libbio/brdline.c:30-113 | the line that starts at the cursor, if it ends within the buffer's size |
| `BioCursor.DoSeek` | src/libbio/bseek.c:30-93 | the cursor is where it was asked to be, seeks are right again, and every later answer follows |
| `BioCursor.LineIs` | src/libbio/brdline.c:30-113 | there is only one line that starts at a place |
| `Bio.OriginStep` | src/libbio/bgetc.c:41-65 | after any reads, the byte of the file that stands at each place of the buffer is the one at `Origin` of their lengths |
| `Bio.SeekAfterEnd` | src/libbio/bseek.c:30-93 | a file of any length is read by Bgetc through a buffer of any size, in reads of any lengths, to its end, met twice, and a seek goes to any offset in it: the seek reports that offset, and the byte read next is the one asked for if it lies further back than the buffer reaches, and otherwise the one at `Origin` |
| `Bio.OriginIsTarget` | src/libbio/bgetc.c:51-65 | that is the byte asked for within the last read and the four bytes before it |
| `Bio.OriginIsFound` | src/libbio/bgetc.c:51-65 | when every read is a full one, `Origin` is `Found`, which is in the lengths of the file and the buffer alone |
| `Bio.SeekBack` | src/libbio/bseek.c:30-93 | so with full reads the byte read next is the one at `Found` |
| `Bio.FoundIsTarget` | src/libbio/bgetc.c:51-65 | that is the byte asked for if and only if it lies further back than the buffer reaches, or in the last read and the four bytes before it, or the last read was the only one or a full one |
| `Bio.SomeFileIsMisread` | src/libbio/bgetc.c:51-65 | for every length, buffer and offset where it is not, some file is misread |
| `Bio.Misread` | src/libbio/bseek.c:65-76 | seven bytes, a buffer of six and a seek to offset 1: it reports 1 and the byte served is the last one |
| `Bio.GetUngetGet` | src/libbio/bgetc.c:30-79 | up to four bytes just read can be given back and are read again unchanged |
| `Bio.Biobuf.Bflush` | src/libbio/bflush.c:30-59 | a writer: everything accepted has been written, or the buffer goes inactive; a reader: what is buffered is dropped and reading goes on where the descriptor stands, with nothing claimed that is not the file's; an inactive buffer: end of file |
| `Bio.Biobuf.Bputc` | src/libbio/bputc.c:30-46 | one more byte is accepted, in order; the retry loop ends |
| `Bio.Biobuf.Bwrite` | src/libbio/bwrite.c:30-64 | all bytes are accepted, in order, or the buffer goes inactive |
| `Bio.Biobuf.BoffsetCountsAccepted` | src/libbio/boffset.c:30-51 | while writing, the offset is the number of bytes accepted |
| `CleanName.StackIsNormal` | src/lib9/cleanname.c:30-48 | no empty element or dot; double dots only in front and only when unrooted |
| `CleanName.CleanIsIdempotent` | src/lib9/cleanname.c:34-78 | cleaning twice is cleaning once |
| `CleanName.CleanResolves` | src/lib9/cleanname.c:34-78 | from every working directory the clean name leads where the name did |
| `CleanName.CleanIsCanonical` | src/lib9/cleanname.c:34-78 | two names have the same clean name if and only if they mean the same |
| `CleanName.Backtrack` | src/lib9/cleanname.c:57-59 | the cursor steps back over exactly the last element |
| `CleanName.DotDot` | src/lib9/cleanname.c:55-66 | a double dot climbs, is kept, or is dropped, as the reference says |
| `CleanName.CopyElement` | src/lib9/cleanname.c:70-71 | the element is moved down over bytes already read |
| `CleanName.Step` | src/lib9/cleanname.c:50-73 | one turn pushes one element; the write cursor never passes the read cursor |
| `CleanName.Cleanname` | src/lib9/cleanname.c:34-78 | the buffer ends up holding exactly the clean name; bytes behind the old end are untouched |
| `Tokenize.RoundTrip` | src/lib9/tokenize.c:118-133 | a list whose strings are written quoted, or bare where possible, and joined with a blank reads back as itself |
| `Tokenize.TwoWords` | src/lib9/tokenize.c:29-30 | two words with a blank, tab, carriage return or newline between them are two tokens |
| `Tokenize.QuotedWord` | src/lib9/tokenize.c:38-61 | what stands between single quotes is one token, two quotes inside it standing for one |
| `Tokenize.Etoken` | src/lib9/tokenize.c:70-99 | finds the end the reference gives, the same as `Qtoken` |
| `Tokenize.Unquote` | src/lib9/tokenize.c:38-61 | the resolved text is written over input already read, and the end is the reference's |
| `Tokenize.Qtoken` | src/lib9/tokenize.c:32-68 | the token stands resolved and ended; the separator is stepped over exactly when it was overwritten |
| `Tokenize.Tokenize` | src/lib9/tokenize.c:118-133 | every token stands where `args` says, whatever was rewritten after it |
| `Tokenize.SplitWritten` | src/lib9/tokenize.c:118-133 | the round trip through the buffer |
| `Tokenize.Gettokens` | src/lib9/tokenize.c:101-116 | every field stands ended where `args` says, quotes left in; the last one allowed takes all that is left |
| `Balancer.InvStep` | doc/talks/io2010/balance.go:29-156 | every step keeps: a worker's count, with the request that has been sent to it and not yet counted, is its queue, the request in hand and its reports, and never negative; a request under way is in one place |
| `Balancer.InvRun` | doc/talks/io2010/balance.go:29-156 | so does every run |
| `Balancer.DispatchNeverBlocks` | doc/talks/io2010/balance.go:139-143 | the channel of the worker chosen has room |
| `Balancer.StepCost` | doc/talks/io2010/balance.go:29-50 | a request costs its submission and six further steps |
| `Balancer.RunCost` | doc/talks/io2010/balance.go:29-50 | over a run nothing is lost and nothing is done twice |
| `Balancer.Progress` | doc/talks/io2010/balance.go:102-112 | while a request is under way some other step than a submission can happen |
| `Balancer.AnyRun` | doc/talks/io2010/balance.go:29-156 | after any run: no deadlock; with nothing under way every request has been answered exactly once and every count is zero |
| `WorkerPool.RootIsLeastOfAll` | src/pkg/container/heap/heap.go:48-57 | the root of a heap is a least-loaded worker |
| `WorkerPool.Pool.Swap` | doc/talks/io2010/balance.go:60-65 | two workers change places and know it |
| `WorkerPool.Pool.Up` | src/pkg/container/heap/heap.go:74-83 | restores the heap when one slot is too high for its place |
| `WorkerPool.Pool.Down` | src/pkg/container/heap/heap.go:86-102 | restores it below a slot that is out of order |
| `WorkerPool.Pool.Push` | src/pkg/container/heap/heap.go:42-45 | one worker more, still a heap |
| `WorkerPool.Pool.Pop` | src/pkg/container/heap/heap.go:52-57 | takes out a worker with the fewest requests |
| `WorkerPool.Pool.Remove` | src/pkg/container/heap/heap.go:63-71 | takes out the worker of a slot, even when its count has just changed |
| `WorkerPool.Pool.Dispatch` | doc/talks/io2010/balance.go:127-144 | a least-loaded worker is charged with one request; the pool keeps its workers |
| `WorkerPool.Pool.Completed` | doc/talks/io2010/balance.go:146-156 | the worker itself is relieved of one |
| `EvalParser.ProperTreeIsUnique` | doc/talks/io2010/eval1.go:67-79 | over given tokens there is one tree in which tighter operators are further down and equal ones lean left |
| `EvalParser.Parser.BinaryExpr` | doc/talks/io2010/eval1.go:67-79 | consumes the tokens of a proper tree whose operators bind at least as tightly as asked, stops at the first that does not, and returns its value |
| `EvalParser.Parser.Level` | doc/talks/io2010/eval1.go:71-76 | the operators of one precedence, taken from the left |
| `EvalParser.Eval` | doc/talks/io2010/eval1.go:81-88 | on operands and operators in turn: the value of the one tree over the whole input in which, by the numbers of the table, operators further down bind tighter and equal ones lean left; otherwise the same over the longest stretch that has such a tree |
| `EvalParser.ProperIff` | doc/talks/io2010/eval1.go:67-79 | a tree is proper if and only if each operator below and left of another has at least its number in the table and each below and right a greater one |
| `EvalParser.Three` | doc/talks/io2010/eval1.go:67-88 | of two operators the second gets the operand between them if and only if its number is greater |
| `EvalParser.SumWithProduct` | doc/talks/io2010/eval1.go:107-119 | with the talk's table products are taken before sums |
| `Sieve.FirstPrimesUnique` | doc/progs/sieve.go:28-38 | the first primes are determined by their number |
| `Sieve.NextIsPrime` | doc/progs/sieve.go:18-25 | the least number no earlier prime divides is the next prime |
| `Sieve.InvStep` | doc/progs/sieve.go:10-38 | what every communication between generator, filters and main keeps, and that it moves one of the bounds on |
| `Sieve.NeverStuck` | doc/progs/sieve.go:10-38 | some channel is always ready |
| `Sieve.PrintsThePrimes` | doc/progs/sieve.go:28-38 | under every schedule what has been printed is the first primes in order |
| `Sieve.LinkBound` | doc/progs/sieve.go:10-38 | with k primes printed, the generator and the filters have not run ahead further than the (k + 1)-th prime after those, whatever the schedule |
| `Sieve.PrintsEveryPrime` | doc/progs/sieve.go:28-38 | for every m there is a number of steps after which every run, whichever links were chosen, has printed more than the first m primes |
| `Spigot.Nested` | misc/cgo/gmp/pi.go:68-74 | a term maps the interval for x from 3 to 4 inside the previous one |
| `Spigot.Shrinks` | misc/cgo/gmp/pi.go:68-74 | the interval at least halves with every term |
| `Leibniz.EulerIsLeibniz` | misc/cgo/gmp/pi.go:68-74 | j terms of Euler's series and n terms of Leibniz's differ by an explicit alternating sum and tail |
| `Leibniz.ClosesIn` | misc/cgo/gmp/pi.go:82-101 | the partial sums of Leibniz's series close in on one number, pi |
| `Spigot.IsEuler` | misc/cgo/gmp/pi.go:68-74 | the terms of the program are those of Euler's series |
| `Spigot.HoldsPi` | misc/cgo/gmp/pi.go:68-74 | every interval holds pi: its ends are on either side of all partial sums of Leibniz's series |
| `Spigot.PrefixIsPi` | misc/cgo/gmp/pi.go:82-101 | a settled prefix is the whole part of pi times the power of ten |
| `Leibniz.WholePartIsUnique` | misc/cgo/gmp/pi.go:82-101 | there is only one such number |
| `Spigot.PrefixForever` | misc/cgo/gmp/pi.go:82-101 | no later interval leaves a decimal prefix once settled |
| `Spigot.DigitRange` | misc/cgo/gmp/pi.go:55-66 | a digit that extends a settled prefix is from 0 to 9 |
| `Spigot.Spigot.ExtractDigit` | misc/cgo/gmp/pi.go:55-66 | a digit is given if and only if both ends of the interval share it and the accumulator has caught up, and it is that digit |
| `Spigot.Spigot.Term` | misc/cgo/gmp/pi.go:68-74 | the state keeps its closed form, and what is printed stays settled |
| `Spigot.Spigot.Print` | misc/cgo/gmp/pi.go:76-80 | one more settled digit; the state keeps its closed form |
| `Spigot.Spigot.Round` | misc/cgo/gmp/pi.go:87-93 | a term, and exactly the digit it settles |
| `Spigot.Digits` | misc/cgo/gmp/pi.go:82-101 | what is printed, digit by digit as it settles, are the first digits of pi, and a decimal prefix of every later interval |
| `Spigot.DigitOrPoint` | misc/cgo/gmp/pi.go:82-93 | from every state of the program, either some later term settles the next digit or the limit is a fraction with as many places as there are digits printed |
| `Spigot.PrintsForeverIff` | misc/cgo/gmp/pi.go:82-101 | the program prints as many digits as one likes if and only if the limit is no decimal fraction |
| `Spigot.PrintDigits` | misc/cgo/gmp/pi.go:82-101 | then it ends, with exactly the digits asked for, and they are the first digits of pi |

## Left out

- Predication.Predicate: the instructions of an arm that is to be converted must start out unconditional and be predicable, no-ops, jumps or exits, and no floating-point compares, for which the pass is wrong (`ArmFlags.CompareIsMissed`); graph nodes are values rather than records updated in place, and `copyprop`, `constprop`, `subprop` and `xtramodes` are not modelled.
- ShiftProp.Peep: straight-line code only, in which no logical instruction has the S bit; calls, MOVM, write-back addressing, floating point and the program counter as an operand are instructions that may do anything, where the code knows more about them.
- ShiftProp.Copyu: the substituting form of the question is not modelled.
- MulConst.Compiler.Gen1: not that a hint is found whenever one exists.
- MulConst.Compiler.Lookup: the table's contents are arbitrary, with hints short enough for the code buffer.
- MulConst.Compiler.Find: not for 0 when no slot remembers it, for which the code does not end.
- Bio.SeekAfterEnd: what is served from a place that no read has filled is not said.
- BioCursor.Run: does not flush; what Brdline does while bytes given back are unread is in `Bio.Biobuf.Brdline`, and what a seek finds when reading went on past an end met by Bgetc is in `Bio.SeekAfterEnd`.
- MulConst.Compiler.Mulcon0: not for the least 32-bit number, which has no absolute value, nor for 0 when no slot remembers it, for which the code does not end; not that a remembered and a fresh answer agree for the value 1.
- BoolGen.Generator.Boolgen: integer conditions only; register allocation, floating-point conditions and trees without a type are not modelled, and a constant too wide for an operand counts as a computed value.
- ObjectFile.Writer.Outcode: the ring has from 3 to 128 places, the first of which is not used (50 in the source); source-line history records are left out, register pairs (D_REGREG) are not read back, and operand types unknown to the writer end the program.
- Bio.Biobuf.Bseek: only on a buffer open for reading, with a descriptor that can seek.
- Bio.Biobuf.Bgetc: read errors and the table of buffers flushed at exit are not modelled; how much a read delivers is any function of where it is and how much is asked for.
- Bio.Biobuf.Bflush: a failing write is a parameter.
- PcLine.SymbolTable.Line2addr: tables that end inside an entry are not modelled.
- PcLine.Asmlc: instructions other than TEXT and NOP lie at rising addresses in units of four bytes; the debugging listing is left out.
- EvalParser.Eval: works on tokens; the lexer, which never forms an operator of two characters, and the value types are left out.
- Spigot.Digits: bounded by a number of rounds; `Spigot.PrintDigits` is not, but that pi is no decimal fraction is not proved; numbers are mathematical integers and the wrapper around GMP is left out.
- Tokenize.Gettokens: the separators are the bytes below 0x80 of the string of separators; where char is signed no other byte can separate, and an unsigned char is not modelled.
- Balancer.AnyRun: random sleeps are left out, any requester may submit at any time; the choice of worker is any least-loaded one, and `WorkerPool` shows that the heap yields one.
- Assemblers, linkers and debuggers otherwise, executable headers, run-time support, packages of the Go library and web pages would add easy members or depend on foreign systems.
