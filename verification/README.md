# sc68: a verified model of its algorithms

This project models the algorithmic parts of sc68, the Atari ST and Amiga music player, and proves
properties of them.

* **ICE! compression** (`Ice*.dfy`, `BitStacks.dfy`). `unice68_packer` finds repeated bytes with a
  sliding window and writes literals and variable-length codes to one stream; `unice68_depacker`
  reads that stream from its end. The stream is a stack (`BitStacks`), the format a list of segments
  (`IceFormat`), the match finder a function (`IcePack`), the depacker a machine (`IceDepack`). The
  programs themselves, with their registers, loops and buffers, are the classes `Packer` and
  `Depacker`. The main result is that depacking undoes packing.
* **68000 arithmetic** (`Words`, `StatusRegister`, `AddSubtract`, `Shifts`, `ShiftWords`,
  `ShiftInstructions`, `RotateInstructions`). Every add, subtract, negate, shift and rotate of
  `tools/insttest68.c` exists there twice. Both forms are proved against one meaning, at every
  operand width: true carries and overflows for the first group, single-bit steps for the second.
* **The as68 assembler** (`Assembly`, `Expressions`, `Relocation*`, `Acceptance`, `Assembler`,
  `FastTables`, `WordTable`, `RegisterLists`, `MoveCoding`, `Instructions`). Its three passes find the
  places to relocate by assembling the program twice with the labels moved; which programs this works for,
  and which assemble at all, is settled exactly. Lines, expressions and operands are datatypes; the
  assembler is a class.
* **The desa68 disassembler** (`Disassembly`, `OpcodeLines`, `Disassembler`, `RegisterLists`, `MoveCoding`,
  `MovePrograms`, `QuickPrograms`, `Instructions`, `InstructionPrograms`). How every opcode is listed and
  how many bytes it takes; and every instruction written by one program and read by the other, in single
  lines and in whole programs, relocated or not, with the exact list of those that do not come back.
* **sc68 files** (`Sc68*.dfy`). A disk is written as chunks, with titles, artists and data left out
  where they repeat; loading fills them in again, and takes aliases out of artists. What every chunk means,
  when loading ends, when a saved disk loads at all, and when it comes back as it was, is settled exactly.
* **The disk cache** of the Winamp plugin (`DiskCache`).

Functions give the meaning of an operation; a method that works step by step, as the program does,
is proved to compute that function, and the lemmas are about the function. `Powers` holds the
arithmetic of powers of two, `Options` and `Sequences` what every module may need. C integers are
unbounded integers with every wrap-around, cast and shift written out; bytes are `0..255`.

Where code and comments disagree the code is followed: the Z flag of ADDX, SUBX and NEGX is that
of the result alone; an offset code of 0 means a distance of one byte; the long branch of
`ice_crunch` that compares a run of maximal length is never taken; `strncmp68` compares one character
less than it is told to, so that an artist is unknown if it starts with "unknow"; an alias is what
follows the last opening parenthesis, of characters from 32 on; the guessed loop
count, which is said never to play less than the minimal time, can miss it by half a loop. `char` is
signed.

Loading an sc68 file can divide by zero (file68/src/file68.c:738): a track that names no loop count
gets one by a division by the length of its loop in milliseconds, which is rounded down. Loading can
also go on for ever (file68/src/file68.c:1579-1613): the size of a chunk is signed, and one of -8 leads
back to the same chunk. `Trapped` and `Unending` are outcomes here, and the theorems say exactly when
they occur: the second if and only if the loop over the chunks comes back to one of them without having
found a track on the way, for a chunk that starts a track ends the loop after 63 turns.

as68 and desa68 do not agree on everything (`Instructions.Agreed`): as68 accepts moves from CCR, which
desa68 lists as CLR; moves from SR to constants and to operands relative to the PC; address registers moved
to SR or CCR, or as the source of OR, AND and operations on bytes; BTST of constants; ANDI, ORI and EORI to
SR and CCR without an immediate, which desa68 then finds in the next instruction. It takes a comparison of
a long word of an address register for CMPM. In a relocatable program as68 stores bytes and words of data
that are out of range without an error (`Acceptance.LostSilently`).

Parameters that stand for what the code does not determine: `past` is the byte behind the packer's
source, `mem`, `above` and `outside` the bytes around the depacker's buffers, `junk` the
uninitialised second value of a symbol, `known` the callback that knows a symbol. The results hold
for all of them.

`dafny verify dfyconfig.toml` checks everything.

## Model

| member | source | states |
|---|---|---|
| `IceStress.DepackUndoesPack` | unice68/unice68_unpack.c:162-485 | for every source of at least 3 bytes that the packer accepts, depacking returns 0 and rebuilds exactly the source, above it nothing changes, and the sizes stored in the header are the real ones, whatever surrounds the buffers |
| `IceStress.Stress` | unice68/unice68.c:579-641 | packing and depacking with the two programs gives the source back, or the packer returns -1 and nothing else |
| `IceInterleave.ReadBackwards` | unice68/unice68_unpack.c:135-148 | any list of bit fields and raw bytes, in any order and at any bit alignment, closed by the sentinel, is read back in reverse with nothing left over |
| `IceInterleave.PopAll` | unice68/unice68_pack.c:101-116 | the same from the middle of a stream: the readers return to the stack as it was before the pushes |
| `IceInterleave.PopItem` | unice68/unice68_unpack.c:358-382 | reading one field or byte undoes the push of it |
| `BitStacks.PushBitValid` | unice68/unice68_pack.c:101-116 | a pushed bit keeps the free bits of the accumulator clear and adds one bit to the stack |
| `BitStacks.PushBitsCons` | unice68/unice68_pack.c:101-116 | a field is pushed from its lowest bit up |
| `IceRoundTrip.PopBit` | unice68/unice68_unpack.c:135-148 | get_1_bit takes off the last bit that put_bits pushed, also across a byte boundary |
| `IceRoundTrip.Playback` | unice68/unice68_unpack.c:358-382 | a field on the stack is played back bit by bit, highest first, down to the stack before it |
| `IceCodes.ReadLitCode` | unice68/unice68_unpack.c:304-320 | for every literal count 0..0x810d the decoder recovers the count from the packer's code and reads exactly its bits |
| `IceCodes.ReadLenCode` | unice68/unice68_unpack.c:403-416 | the same for every copy length 2..0x409 |
| `IceCodes.ReadOffCode` | unice68/unice68_unpack.c:420-468 | the same for every legal offset, short, long and zero, in either of the two offset codes |
| `IceFormat.ClassBounds` | unice68/unice68_pack.c:178-195 | the class of a number is the one whose bounds enclose it |
| `IceRoundTrip.ReadLiterals` | unice68/unice68_unpack.c:280-343 | a run of literals and its count are taken off the stream and stored below a6 |
| `IceRoundTrip.CopyBackRebuilds` | unice68/unice68_unpack.c:470-485 | the downward copy, also when it overlaps itself, extends the rebuilt end of the source |
| `IceRoundTrip.ReadCopy` | unice68/unice68_unpack.c:384-485 | the two codes of a copy are taken off and its bytes rebuilt |
| `IceRoundTrip.Rewind` | unice68/unice68_unpack.c:280-343 | from the end of any sound list of segments the depacker walks back through all its turns and rebuilds everything below |
| `IceRoundTrip.DepackPacked` | unice68/unice68_unpack.c:162-231 | the round trip for any sound segmentation of a source, not only the packer's |
| `IcePack.SegmentsSound` | unice68/unice68_pack.c:202-472 | literal runs and copies partition the source; every copy is codable and repeats the bytes at its distance |
| `IcePack.ChooseSound` | unice68/unice68_pack.c:202-263 | a copy chosen at a0 has length 2..0x409, a codable offset, equal bytes, and ends before the end of the source |
| `IcePack.BestSound` | unice68/unice68_pack.c:272-369 | every best match of the search lies inside the source and repeats bytes |
| `IcePack.BestLongest` | unice68/unice68_pack.c:278-369 | no match in the window that may replace the chosen one is longer, and among equals the chosen one is nearest |
| `IcePack.BestEarlier` | unice68/unice68_pack.c:278-369 | the best match grows as the search goes on and comes from a place already searched |
| `IcePack.BestSettled` | unice68/unice68_pack.c:315-345 | once the longest length is reached the rest of the window cannot change the choice |
| `IcePack.MatchShort` | unice68/unice68_pack.c:283-304 | a candidate whose first or second byte differs changes nothing, so the byte peeked past the end does not matter |
| `IcePack.CommonLenMaximal` | unice68/unice68_pack.c:304-315 | the compared length is the longest common one |
| `IcePack.CommonLenIs` | unice68/unice68_pack.c:304-315 | and the only number with that property |
| `IcePack.ChooseIs` | unice68/unice68_pack.c:369-408 | what is stored at a0, in terms of the bytes alone: a copy that is at least as long as the run of equal bytes there and as every codable repetition in the window; the run on a tie, and else the nearest of its length; a literal only where nothing repeats |
| `IcePack.ChoiceUnique` | unice68/unice68_pack.c:369-408 | nothing else has that property |
| `IcePack.ChooseBeats` | unice68/unice68_pack.c:278-408 | a codable repetition of two or more bytes anywhere in the window is answered by a copy of at least that length |
| `IcePack.SegmentsGreedy` | unice68/unice68_pack.c:197-496 | a list of segments makes that choice from the front of the source to its end exactly when it is the packer's |
| `IcePack.GreedyUnique` | unice68/unice68_pack.c:197-496 | and there is only one such list |
| `IcePack.LitCodeCost` | unice68/unice68_pack.c:498-548 | a literal count costs at most two bits more than its literals |
| `IcePack.CopyCodesCost` | unice68/unice68_pack.c:119-195 | the codes of a copy cost at least five bits less than the bytes they replace |
| `IcePack.PayloadSize` | unice68/unice68_pack.c:197-496 | a stream has at most nine bits for each source byte and three more |
| `IcePack.PackedSize` | unice68/unice68_pack.c:550-614 | a packed file has 13 to len + len/8 + 14 bytes |
| `IcePack.PackFits` | unice68/unice68.c:585 | so it fits the buffer of len + len/2 + 1000 bytes |
| `IcePacker.Packer.LongwordStore` | unice68/unice68_pack.c:87-99 | four bytes, high byte first, and no other |
| `IcePacker.Packer.PutBit` | unice68/unice68_pack.c:101-116 | one turn of the loop pushes the low bit of d1 |
| `IcePacker.Packer.PutBits` | unice68/unice68_pack.c:101-116 | the low d4 + 1 bits of d1 are pushed and the header stays |
| `IcePacker.Packer.MakeOffset2` | unice68/unice68_pack.c:119-140 | the two-byte copy's offset code is pushed |
| `IcePacker.Packer.MakeOffsetMehr` | unice68/unice68_pack.c:142-176 | the longer copies' offset code is pushed |
| `IcePacker.Packer.MakeStringlength` | unice68/unice68_pack.c:178-195 | the length code is pushed |
| `IcePacker.Packer.MakeNormalBytes` | unice68/unice68_pack.c:498-548 | the literal count code is pushed, or error -1 is set exactly when the count exceeds 0x810d |
| `IcePacker.Packer.FindRun` | unice68/unice68_pack.c:202-272 | maxgleich is the length of the run at a0 |
| `IcePacker.Packer.CompareStrings` | unice68/unice68_pack.c:290-345 | the comparison finds the longest common length inside its limits |
| `IcePacker.Packer.TryString` | unice68/unice68_pack.c:290-369 | after a candidate the registers hold the best match up to it, whatever byte lies behind the source |
| `IcePacker.Packer.SearchTurn` | unice68/unice68_pack.c:275-369 | a turn of the search looks at a candidate only when it can be better, and stops when none can be |
| `IcePacker.Packer.FindString` | unice68/unice68_pack.c:272-369 | the search ends with the best match of the window |
| `IcePacker.Packer.StoreLiteral` | unice68/unice68_pack.c:396-408 | one source byte goes to the stream raw |
| `IcePacker.Packer.StoreCopy` | unice68/unice68_pack.c:409-458 | the three codes of a copy go to the stream and a0 moves behind it |
| `IcePacker.Packer.PickMatch` | unice68/unice68_pack.c:202-408 | the run or the best match of the window, as `IcePack.ChooseIs` says which |
| `IcePacker.Packer.CrunchTurn` | unice68/unice68_pack.c:202-458 | a turn of the main loop advances a0 and keeps the stream that of the segments so far |
| `IcePacker.Packer.CrunchEnd` | unice68/unice68_pack.c:459-482 | what is left of the source is stored as literals |
| `IcePacker.Packer.CloseFile` | unice68/unice68_pack.c:484-496 | the sentinel and the last byte, and the packed size in the header |
| `IcePacker.Packer.UnicePacker` | unice68/unice68_pack.c:550-614 | the result is exactly the packed form of the source, cut as `IcePack.SegmentsGreedy` says, and its size, or -1 exactly when some literal run is too long; the byte past the source makes no difference |
| `IceDepack.DepackConfined` | unice68/unice68_unpack.c:162-231 | on arbitrary packed bytes nothing outside the announced destination changes |
| `IceChecks.ReadInside` | unice68/unice68_unpack.c:93-148 | a file that is depacked without complaint is read only where it says it is: other bytes elsewhere in memory give the same result |
| `IceChecks.AnnouncedExactly` | unice68/unice68_unpack.c:280-343 | and the literals and copies that its stream announces add up to exactly the announced destination |
| `IceChecks.LengthsAddUp` | unice68/unice68_unpack.c:86-98 | the check below the destination fires if and only if the stream announces more bytes than are left |
| `IceChecks.MagicExact` | unice68/unice68_unpack.c:186-189 | a file is taken if and only if it starts with ICE! with its second and third letter in either case |
| `IceChecks.InfoIs` | unice68/unice68_unpack.c:111-117 | a number in the header is four bytes, the highest first, in two's complement |
| `IceChecks.SizeTold` | unice68/unice68_unpack.c:487-515 | the depacked size is told when the header is one, its complement to a caller who knows another packed size, and -1 or -2 otherwise |
| `IceDepack.NormalBytesEnd` | unice68/unice68_unpack.c:280-343 | when the loop ends without an overflow it has filled the destination exactly, and it never goes below it |
| `IceDepack.LitCountKeeps` | unice68/unice68_unpack.c:304-320 | on any input a literal count is at most 0x810d and reading it touches only the reader's registers |
| `IceDepack.NormalBytesAbove` | unice68/unice68_unpack.c:280-343 | nothing above a6 changes |
| `IceDepack.CopyLength` | unice68/unice68_unpack.c:403-416 | on any input the length stays in 2..0x409 |
| `IceDepack.CopyOffset` | unice68/unice68_unpack.c:420-468 | on any input the offset stays in its range |
| `IceDepacker.Depacker.GetBit` | unice68/unice68_unpack.c:135-148 | the carry of d7 + d7, with a byte fetched when only the sentinel is left |
| `IceDepacker.Depacker.GetBits` | unice68/unice68_unpack.c:358-382 | r0 + 1 bits, highest first |
| `IceDepacker.Depacker.StringLength` | unice68/unice68_unpack.c:384-416 | the length reader of the program is that of the model |
| `IceDepacker.Depacker.StringOffset` | unice68/unice68_unpack.c:420-468 | and so is the offset reader |
| `IceDepacker.Depacker.CopyString` | unice68/unice68_unpack.c:470-485 | the guarded copy loop |
| `IceDepacker.Depacker.RunNormalBytes` | unice68/unice68_unpack.c:280-343 | the loop of normal_bytes and strings does what the model says and stores strictly downwards |
| `IceDepacker.Depacker.DecrunchStream` | unice68/unice68_unpack.c:162-231 | the bytes stored are the destination's from the top downwards, each at most once, and all of them when it returns 0 |
| `IceDepacker.Depacker.IceDecrunch` | unice68/unice68_unpack.c:517-541 | unice68_depacker up to the picture pass: its result and its buffer are those of the model |
| `AddSubtract.AddSrTrue` | tools/insttest68.c:110-135 | the reference flags of ADD and ADDX are the true unsigned carry and signed overflow, the sign and the zero of the result |
| `AddSubtract.SubSrTrue` | tools/insttest68.c:172-197 | the same for SUB and SUBX, with borrow |
| `AddSubtract.NegTrue` | tools/insttest68.c:232-257 | the same for NEG and NEGX |
| `AddSubtract.NegSrIsSub` | tools/insttest68.c:232-241 | the flags of a negation are those of a subtraction from zero |
| `AddSubtract.AddSrOpt` | tools/insttest68.c:139-151 | the branch-free flags equal the reference flags for all words |
| `AddSubtract.SubSrOpt` | tools/insttest68.c:201-211 | the same for subtraction |
| `AddSubtract.NegSrOpt` | tools/insttest68.c:261-274 | the same for negation |
| `AddSubtract.AddRef` | tools/insttest68.c:121-127 | the sum and its true flags at every width |
| `AddSubtract.AddOpt` | tools/insttest68.c:153-159 | the same result and flags without branches |
| `AddSubtract.AdxRef` | tools/insttest68.c:129-135 | with X in |
| `AddSubtract.AdxOpt` | tools/insttest68.c:161-167 | with X in, without branches |
| `AddSubtract.SubRef` | tools/insttest68.c:183-189 | the difference and its true flags |
| `AddSubtract.SubOpt` | tools/insttest68.c:213-219 | the same without branches |
| `AddSubtract.SbxRef` | tools/insttest68.c:191-197 | with X in |
| `AddSubtract.SbxOpt` | tools/insttest68.c:221-227 | with X in, without branches |
| `AddSubtract.NegRef` | tools/insttest68.c:243-249 | the negated operand and its true flags |
| `AddSubtract.NegOpt` | tools/insttest68.c:276-282 | the same without branches |
| `AddSubtract.NgxRef` | tools/insttest68.c:251-257 | with X in |
| `AddSubtract.NgxOpt` | tools/insttest68.c:284-290 | with X in, without branches |
| `Shifts.LsrClosed` | tools/insttest68.c:481-497 | k single-bit steps to the right are a division by 2^k |
| `Shifts.LslClosed` | tools/insttest68.c:567-582 | k steps to the left are a product modulo 2^n |
| `Shifts.AsrClosed` | tools/insttest68.c:525-540 | k arithmetic steps divide the signed operand by 2^k, rounding down |
| `Shifts.AslOverflow` | tools/insttest68.c:607-623 | the sign changed at some step exactly when the signed operand times 2^k does not fit |
| `Shifts.RorClosed` | tools/insttest68.c:650-666 | k steps rotate by k modulo n, for a count of any size |
| `Shifts.RolClosed` | tools/insttest68.c:687-703 | the same to the left |
| `Shifts.RoxrClosed` | tools/insttest68.c:725-744 | operand and X together rotate by k modulo n + 1 |
| `Shifts.RoxlClosed` | tools/insttest68.c:797-818 | the same to the left |
| `Shifts.ExtendedPieces` | tools/insttest68.c:746-795 | a rotate through X is three shifted pieces with no bit in common, and one bit in X |
| `ShiftInstructions.LsrRef` | tools/insttest68.c:481-497 | result and flags are those of that many steps, for every width, operand, flags and count |
| `ShiftInstructions.LsrOpt` | tools/insttest68.c:499-522 | the closed form gives the same |
| `ShiftInstructions.AsrRef` | tools/insttest68.c:525-540 | as for LSR |
| `ShiftInstructions.AsrOpt` | tools/insttest68.c:542-564 | the closed form gives the same, sign filled for counts beyond the width |
| `ShiftInstructions.LslRef` | tools/insttest68.c:567-582 | as for LSR |
| `ShiftInstructions.LslOpt` | tools/insttest68.c:584-604 | the closed form gives the same |
| `ShiftInstructions.AslRef` | tools/insttest68.c:607-623 | as for LSR, with V set when the sign changes at some step |
| `ShiftInstructions.AslOpt` | tools/insttest68.c:625-648 | the closed form, with V found by shifting back, gives the same |
| `ShiftInstructions.AslUndone` | tools/insttest68.c:625-648 | shifting the result back gives the operand exactly when no step changed the sign |
| `RotateInstructions.RorRef` | tools/insttest68.c:650-666 | result and flags are those of that many rotates |
| `RotateInstructions.RorOpt` | tools/insttest68.c:668-685 | the closed form gives the same at every width that is a power of two |
| `RotateInstructions.RolRef` | tools/insttest68.c:687-703 | as for ROR |
| `RotateInstructions.RolOpt` | tools/insttest68.c:705-722 | as for ROR |
| `RotateInstructions.RrxRef` | tools/insttest68.c:725-744 | result and flags are those of that many rotates through X, at every width |
| `RotateInstructions.RrxOpt` | tools/insttest68.c:746-795 | the count modulo width + 1 and three pieces give the same, at every width |
| `RotateInstructions.RlxRef` | tools/insttest68.c:797-818 | as for ROXR |
| `RotateInstructions.RlxOpt` | tools/insttest68.c:820-864 | as for ROXR |
| `RelocationTheorem.RelocationExact` | as68/as68.c:388-421 | adding an origin at the recorded places gives the image assembled at that origin if and only if every field matches at that origin; and the places are those of the long words that moved with their labels |
| `RelocationTheorem.RecordedExactly` | as68/opcode.c:166-197 | a long word is recorded exactly when the sum of its label coefficients is 1 modulo 2^29 |
| `RelocationTheorem.RelocationPreserves` | as68/as68.c:388-421 | a program whose long words count their labels once or not at all, and whose other fields do not, is relocated correctly to every origin |
| `RelocationTheorem.RelocationNeeds` | as68/as68.c:388-421 | any other program that assembles at 0 and at 1 is relocated wrongly to one of them |
| `RelocationTheorem.MatchesAlways` | as68/opcode.c:166-197 | a field with such a coefficient is right at every origin |
| `RelocationTheorem.MatchesNeeds` | as68/opcode.c:166-197 | a field that is right at 0 and at 1 has such a coefficient |
| `RelocationTheorem.OddPart` | as68/as68.c:391-392 | 0x12345678 is eight times an odd number, so a multiple of it vanishes in 32 bits exactly for multiples of 2^29 |
| `RelocationTheorem.AbsoluteImage` | as68/as68.c:388-421 | the absolute image is the fields of the program at the origin |
| `RelocationTheorem.RelocatableImage` | as68/as68.c:388-421 | the relocatable image and its table, from what passes 2 and 3 leave in the buffer |
| `RelocationTheorem.PatchPieces` | as68/opcode.c:166-197 | pass 3 keeps the pass 2 long words it records, and patching the image patches its fields one by one |
| `Acceptance.AssemblesAt` | as68/as68.c:388-425 | a linear program assembles at an origin if and only if the values of all its operands and data are in the ranges of their kinds there, and what the first pass knows of them is |
| `Acceptance.AssemblesRelocatable` | as68/as68.c:388-425 | it assembles in three passes if and only if they are at 0 and where the labels are moved to, by the laxer rules of these passes, and no more than 12288 long words are to be relocated |
| `Acceptance.FieldTaken` | as68/opcode.c:82-164 | the values that a pass that stores takes for each kind of operand or data |
| `Acceptance.FieldFirst` | as68/opcode.c:378-586 | the values that the first pass takes, with names that are not known yet as 0 |
| `Acceptance.LostSilently` | as68/opcode.c:82-127 | a relocatable program may have any value in a byte or a word of data, where an absolute one has an error |
| `Acceptance.CleanLines` | as68/as68.c:873-1010 | the errors of a pass that stores are those of its values and of a full table |
| `Acceptance.FirstErrors` | as68/as68.c:873-1010 | the errors of the first pass are those of its values |
| `Acceptance.EvalKnown` | as68/expression.c:41-262 | the first pass finds what follows from the names known so far, never an error |
| `Acceptance.LabelTwice` | as68/as68.c:911-1004 | a program that defines a label again, as a label or as a variable, does not assemble |
| `Acceptance.BytesAre` | as68/opcode.c:104-197 | what is stored is the value modulo the room for it, the highest byte first |
| `RelocationPasses.RunLinePieces` | as68/as68.c:895-1010 | a line with linear expressions lays down its fields, and the symbols after it have the values the analysis gives them |
| `RelocationPasses.RunLinesPieces` | as68/as68.c:388-421 | the same for a whole pass |
| `RelocationPasses.FirstPass` | as68/as68.c:948-954 | after pass 1 every label is at its place and nothing is recorded |
| `Relocation.EvalLinear` | as68/expression.c:41-262 | a linear expression evaluates to its constant plus its coefficient times the amount the labels move, in 32 bits, in every pass; what each operator computes is said by `Expressions` |
| `Expressions.EvalBin` | as68/expression.c:145-285 | the value of an expression with two operands: the product modulo 2^32, the bitwise operators bit by bit, comparisons and `and` and `or` as 1 or 0; the right operand is not looked at when the left one settles `and` or `or` |
| `Expressions.BinMeans` | as68/expression.c:145-285 | the operators have these meanings on all C ints |
| `Expressions.MeansOne` | as68/expression.c:145-285 | and a meaning leaves only one value |
| `Expressions.EvalSums` | as68/expression.c:180-262 | sums and differences modulo 2^32 |
| `Expressions.IntUnique` | as68/expression.c:180-262 | which leaves only one C int |
| `Expressions.EvalMinus` | as68/expression.c:41-143 | the negative of a value |
| `Expressions.EvalComplement` | as68/expression.c:41-143 | the complement of a value |
| `Expressions.ComplementBits` | as68/expression.c:41-143 | which flips every bit |
| `Expressions.EvalNot` | as68/expression.c:41-143 | `not` is 1 for 0 and 0 otherwise |
| `Expressions.EvalLeaves` | as68/expression.c:41-143 | numbers, the place of the line, and names, which count as 0 in the first pass while they are not known |
| `Expressions.EquateSays` | as68/as68.c:911-927 | after an equate its name has the value of its expression, also when it had another one; no other name changes; when it is an error |
| `Expressions.LabelSays` | as68/as68.c:948-1004 | after a label its name stands for the place, moved in the third pass; a label that is already known is an error in the first pass; no other name changes |
| `Relocation.LaysTogether` | as68/opcode.c:104-197 | what two stretches of code lay down one after the other is what they lay down together |
| `AssemblerProgram.Assembler.GenB` | as68/opcode.c:104-114 | one byte stored, in the passes that store, with the lost bits reported |
| `AssemblerProgram.Assembler.GenW` | as68/opcode.c:116-127 | the same for a word |
| `AssemblerProgram.Assembler.PutWord` | as68/opcode.c:129-139 | an opcode word stored behind the program counter |
| `AssemblerProgram.Assembler.Gen24` | as68/opcode.c:141-164 | the same for three bytes |
| `AssemblerProgram.Assembler.GenLong` | as68/opcode.c:166-197 | a long word is stored, or in pass 3 recorded and left alone when it moved with the labels |
| `AssemblerProgram.Assembler.EmitField` | as68/opcode.c:378-586 | an operand's extension words, or an item of data |
| `AssemblerProgram.Assembler.PlaceLabel` | as68/as68.c:948-1004 | a label gets its first and second value, by pass |
| `AssemblerProgram.Assembler.SetVariable` | as68/as68.c:911-927 | an equate gets its values, by pass |
| `AssemblerProgram.Assembler.AssembleLine` | as68/as68.c:873-1010 | a line changes the state as the model says |
| `AssemblerProgram.Assembler.Assemble` | as68/as68.c:351-421 | the pass loop gives the absolute or the relocatable output of the model |
| `WordTable.Table.Search` | as68/word.c:48-58 | the word that a name stands for |
| `WordTable.Table.Put` | as68/word.c:60-65 | a new word hides the older ones of its name, and no other name changes |
| `WordTable.Table.Hash` | as68/word.c:40-46 | the loop computes the chain number |
| `FastTables.FastTable.MakeFastTable` | as68/opcode.c:2367-2408 | the tree stores the list, later entries over earlier ones |
| `FastTables.FastTable.Insert` | as68/opcode.c:2377-2404 | one more entry, with nodes made as needed, keeps all others |
| `FastTables.FastTable.LookUp` | as68/word.c:104-127 | the last entry equal to the string without regard to case, or null if there is none |
| `RegisterLists.RegList` | as68/opcode.c:341-372 | a register is in the mask exactly when some item covers it, in any order and direction |
| `RegisterLists.GetMovemReg` | desa68/desa68.c:1064-1081 | the items listed are the maximal runs of the mask, in order |
| `RegisterLists.Reverse` | as68/opcode.c:1376-1384 | the sixteen bits in the opposite order |
| `RegisterLists.Relist` | as68/opcode.c:1354-1398 | a non-empty mask that is listed, read back and reversed as needed is the same mask |
| `RegisterLists.SameRegisters` | as68/opcode.c:341-372 | masks with the same registers are the same |
| `InstructionPrograms.InstructionRelocated` | as68/as68.c:351-421 | any other instruction of as68, anywhere in a program that can be relocated, with labels and equates in its operands: in the relocatable image, after an origin has been added at the recorded places, desa68 lists it with the same name, size, registers and values and as many bytes, if and only if the two programs agree on it (`Agreed`); what it lists otherwise is said too |
| `InstructionPrograms.InstructionInProgram` | as68/as68.c:351-421 | the same in the image assembled at the origin |
| `InstructionPrograms.InstructionRoundTrip` | as68/opcode.c:588-1665 | the same for one line: whatever as68 assembles without an error at an even address |
| `Instructions.OpcodeListed` | desa68/desa68.c:856-1836 | every opcode that as68 can make, of all the other instructions, is listed as that instruction with its operands in order and its length, exactly when `Agreed` |
| `Instructions.WordToCcrListed` | desa68/desa68.c:1215-1223 | a constant word moved to CCR is listed as it is exactly if it is a byte, and as an error otherwise |
| `Instructions.OpcodePlace` | as68/opcode.c:588-1665 | the sums that as68 computes put line, registers, mode and size into the fields of the opcode |
| `Instructions.FieldsAt` | desa68/desa68.c:1926-1935 | and the disassembler finds them there |
| `Instructions.FlagsAre` | as68/opcode.c:378-586 | what op() says of an operand, alterable, control, memory or data, is the same as the sets of modes of desa68 |
| `OpcodeLines.DataWord` | desa68/desa68.c:845-854 | what is listed as data takes one word, whatever follows |
| `MovePrograms.MoveRelocated` | as68/as68.c:351-421 | a MOVE anywhere in a program that can be relocated, with labels and equates in its operands: in the relocatable image, after an origin has been added at the recorded places, desa68 lists it with the values its expressions have at that origin |
| `MovePrograms.MoveInProgram` | as68/as68.c:351-421 | the same in the image assembled at the origin |
| `QuickPrograms.QuickRelocated` | as68/as68.c:351-421 | a branch, DBcc, MOVEQ, ADDQ or SUBQ anywhere in a program that can be relocated: in the relocatable image, after an origin has been added at the recorded places, desa68 lists its name, its condition and its operands, and a branch leads to where its label is at that origin |
| `QuickPrograms.QuickInProgram` | as68/as68.c:351-421 | the same in the image assembled at the origin |
| `QuickPrograms.ShortBranch` | as68/opcode.c:1005-1049 | a branch with a byte, assembled without an error, is listed with its condition and the value of its target as an unsigned number |
| `QuickPrograms.WordBranch` | desa68/desa68.c:1501-1529 | a branch with a word likewise, its target cut to the address space |
| `QuickPrograms.LoopLine` | as68/opcode.c:1116-1139 | DBcc is listed with its condition, its register and its target |
| `QuickPrograms.NamesReadBack` | desa68/desa68.c:150-171 | the names that branches and Scc are listed with stand for the same conditions to as68; that of DBcc does exactly unless the condition is 0, for DBT is listed as DBRA, which as68 takes for DBF |
| `QuickPrograms.MoveQLine` | as68/opcode.c:1441-1465 | MOVEQ is listed with its register and its byte with a sign |
| `QuickPrograms.AddQLine` | as68/opcode.c:725-745 | ADDQ and SUBQ of 1 to 8 to any operand they accept are listed with the same size, number and operand |
| `MovePrograms.LineInImage` | as68/as68.c:873-1010 | a line of a program stands where the lines before it end, with the names defined as analysed, and nothing later changes its code |
| `MovePrograms.SameLine` | as68/opcode.c:378-586 | an instruction with expressions in its operands lays down what the instruction with their values does |
| `MoveCoding.MoveRoundTrip` | as68/opcode.c:1255-1336 | every MOVE.B, .W or .L that as68 assembles without an error at an even address is listed by desa68 as MOVE, or as MOVEA exactly when it goes to an address register, with the same size, the source before the destination, both with the same modes, registers and values; except byte moves of address registers, which desa68 takes for data |
| `MoveCoding.OpcodeDecodes` | desa68/desa68.c:991-1009 | the opcode word gives back both modes and registers and the size |
| `MoveCoding.OperandDecodes` | desa68/desa68.c:664-783 | the extension words of an operand give it back and have the length the decoder expects |
| `MoveCoding.InstrStores` | as68/opcode.c:1255-1336 | what is stored for two operands: the opcode, then the extension of the first, then that of the second |
| `MoveCoding.OperandsRead` | desa68/desa68.c:664-783 | and the disassembler reads both operands back from there |
| `MoveCoding.GenOperand` | as68/opcode.c:378-586 | the bytes that op() stores for an operand, and when it reports lost bits |
| `MoveCoding.ModeBits` | as68/opcode.c:378-586 | what op() returns holds the mode, the register and whether the operand can be written |
| `Disassembly.Length` | desa68/desa68.c:1873-1960 | an instruction has an even length from 2 to 10 bytes |
| `DisassemblerProgram.Disassembler.Desa` | desa68/desa68.c:1873-1960 | the bytes consumed are a function of the opcode word alone, whatever follows it and whatever the callbacks say; and the name, the size, every operand and the errors are those of `ListLine` |
| `DisassemblerProgram.Disassembler.GetEa2` | desa68/desa68.c:664-783 | the operand listed, the words consumed and the errors, for every mode; no decoder calls it with another mode |
| `DisassemblerProgram.Disassembler.RelPC` | desa68/desa68.c:483-491 | the target of a PC-relative operand |
| `DisassemblerProgram.Disassembler.Line0` | desa68/desa68.c:980-988 | the name, size, operands, errors and length of every instruction of line 0 |
| `DisassemblerProgram.Disassembler.Line123` | desa68/desa68.c:991-1046 | the name, size, operands and length of every MOVE |
| `DisassemblerProgram.Disassembler.CheckMovem` | desa68/desa68.c:1138-1170 | which words are MOVEM, their operands, errors and length |
| `DisassemblerProgram.Disassembler.Line4` | desa68/desa68.c:1249-1418 | the name, size, operands, errors and length of every instruction of line 4 |
| `DisassemblerProgram.Disassembler.Line5` | desa68/desa68.c:1421-1490 | the name, size, operands, errors and length of every ADDQ, SUBQ, Scc and DBcc |
| `DisassemblerProgram.Disassembler.Line6` | desa68/desa68.c:1503-1525 | the same for the branches, by condition and displacement |
| `DisassemblerProgram.Disassembler.Line7` | desa68/desa68.c:1532-1547 | the same for MOVEQ |
| `DisassemblerProgram.Disassembler.LineB` | desa68/desa68.c:1616-1628 | the same for line B |
| `DisassemblerProgram.Disassembler.Line8C` | desa68/desa68.c:1693-1706 | the same for lines 8 and C |
| `DisassemblerProgram.Disassembler.Line9D` | desa68/desa68.c:1767-1783 | the same for lines 9 and D |
| `DisassemblerProgram.Disassembler.LineE` | desa68/desa68.c:1786-1835 | the same for the shifts |
| `Sc68RoundTrip.LoadSaveLoad` | file68/src/file68.c:1484-1763 | for every file that loads: the disk, saved, loads again if and only if the loops of every track can be told from what is written, and divides by zero otherwise; it loads with the same tracks to play, and is the same disk if and only if its names, aliases, times and loop counts are of the kind that is written |
| `Sc68RoundTrip.SaveLoad` | file68/src/file68.c:1955-2129 | the same for every valid disk |
| `Sc68RoundTrip.ForeverLost` | file68/src/file68.c:2100-2102 | a disk that does not come back: a loop for ever is not written |
| `Sc68RoundTrip.ForeverTraps` | file68/src/file68.c:730-741 | a valid disk that, saved, cannot be loaded: its loop for ever takes no millisecond, and loading divides by it |
| `Sc68RoundTrip.SaidGuessable` | file68/src/file68.c:730-741 | the guess for a saved track divides by zero exactly when its fields as written leave the loop count out and the loop without length |
| `Sc68RoundTrip.ArtistKept` | file68/src/file68.c:585-625 | an artist, its tags and its alias come back, written or inherited, if and only if no alias is taken out of the name or put over the tags |
| `Sc68RoundTrip.DecodedKept` | file68/src/file68.c:585-602 | the same for a name that is written |
| `Sc68RoundTrip.SaveAgain` | file68/src/file68.c:1955-2129 | a disk that came back is saved as the same file again |
| `Sc68RoundTrip.SavedLength` | file68/src/file68.c:1974-2018 | the length of a saved file is even, equal to that of the null pass, and what the base chunk announces |
| `Sc68RoundTrip.LoadSaved` | file68/src/file68.c:1579-1757 | the walk over a saved file ends on its last chunk, and what is validated is what the chunks say |
| `Sc68RoundTrip.TracksKept` | file68/src/file68.c:665-789 | titles, artists, aliases and data that were left out are inherited again; the tracks come back exactly if each can be kept after those before it |
| `Sc68RoundTrip.DiskKept` | file68/src/file68.c:641-656 | the album comes back, with its artist or that of the default track, exactly if it can be kept |
| `Sc68RoundTrip.ParmsKept` | file68/src/file68.c:667-756 | the parameters of one track come back if and only if they can be kept |
| `Sc68RoundTrip.WrittenAll` | file68/src/file68.c:1903-1945 | the tags written are all of them exactly if none is empty |
| `Sc68RoundTrip.HeaderRead` | file68/src/file68.c:457-508 | both identification strings are recognised |
| `Sc68Validity.LoadedValid` | file68/src/file68.c:1484-1763 | every disk that loads, from any file, has terminated strings, distinct custom tags, numbers in range, loops that agree with the loop length and data found by its address |
| `Sc68Walking.LoadEnds` | file68/src/file68.c:1484-1763 | loading a file does not end if and only if the loop over its chunks comes back to one of them without having found a track on the way, which is the case if and only if it still runs after any number of turns |
| `Sc68Walking.LoopEnds` | file68/src/file68.c:1579-1748 | the same for a buffer and anything read before; whether it ends can be told, and when it does, the model of the loop says what it comes to |
| `Sc68Walking.ItselfAgain` | file68/src/file68.c:1582-1613 | a chunk of size -8 holds the loop for ever, except that the end chunk ends it, parameters of no track are an error, and one that starts a track is found until there are 63 |
| `Sc68Walking.NeverLoads` | file68/src/file68.c:1582-1584 | a file that is never loaded |
| `Sc68Walking.SameTurn` | file68/src/file68.c:1579-1740 | where a turn leads depends only on the place and on the number of tracks |
| `Sc68Validity.WalkReading` | file68/src/file68.c:1579-1740 | the same while the chunks are read |
| `Sc68Validity.ValidTracksValid` | file68/src/file68.c:665-789 | validation of the tracks establishes it |
| `Sc68Validity.ValidateTraps` | file68/src/file68.c:730-741 | validation divides by zero if and only if some track that it looks at needs a guess and has a loop of no milliseconds |
| `Sc68Validity.DecodeArtistValid` | file68/src/file68.c:585-602 | an alias taken out of an artist leaves terminated strings and distinct tags |
| `Sc68Loader.GuessReaches` | file68/src/file68.c:730-741 | a guessed loop count misses the minimal playing time by less than half a loop, and reaches it exactly when what is missing rounds up, unless that takes more than four loops |
| `Sc68Loader.GuessMisses` | file68/src/file68.c:730-741 | times for which it is missed |
| `Sc68Validity.PutTagPlace` | file68/src/file68.c:301-324 | a tag replaces the one of its name or comes last |
| `Sc68Delivery.WalkDelivers` | file68/src/file68.c:1579-1740 | the chunk loop reads every written chunk once, in order, and goes on behind the last |
| `Sc68Delivery.WalkEnds` | file68/src/file68.c:1733-1737 | the end chunk stops it, whatever follows |
| `Sc68Delivery.ApplyClosed` | file68/src/file68.c:1598-1731 | what a complete chunk does depends on nothing behind it |
| `Sc68Delivery.PeekPoke` | file68/src/file68.c:214-248 | LPeek reads what LPoke wrote, modulo 2^32 |
| `Sc68Delivery.CStringStops` | file68/src/file68.c:1906-1935 | a string ends at its zero |
| `Sc68Delivery.KindKept` | file68/src/file68.c:1598-1737 | no two chunk names are confused |
| `Sc68Saving.DiskDelivered` | file68/src/file68.c:2023-2129 | what all the chunks of a disk say of the album and of each track |
| `Sc68Saving.AlbumDelivered` | file68/src/file68.c:2055-2066 | the album's names, default track and tags |
| `Sc68Saving.TrackDelivered` | file68/src/file68.c:2072-2119 | what the chunks of one track say: names that differ, parameters that are not the default, data that is new |
| `Sc68Saving.TagsDelivered` | file68/src/file68.c:1903-1945 | the tags that are written come back in order |
| `Sc68Files.Stream.SaveChunk` | file68/src/file68.c:1807-1832 | a chunk's name, its size rounded up, its data and the padding |
| `Sc68Files.Stream.SaveAllTags` | file68/src/file68.c:1903-1945 | the loop over the tags |
| `Sc68Files.Stream.SaveOneTrack` | file68/src/file68.c:2072-2119 | a turn of the loop over the tracks |
| `Sc68Files.Stream.SaveDisk` | file68/src/file68.c:2023-2129 | save_sc68 writes the file of the model, or only counts it on a null stream |
| `Sc68Files.Save` | file68/src/file68.c:1955-2018 | both passes together; a wrong number of tracks is refused with nothing written |
| `Sc68Files.Reader.Accept` | file68/src/file68.c:1598-1737 | one chunk changes the disk as the model says, or is an error; what the chunks mean for the disk is said by `Sc68Meaning` |
| `Sc68Files.Reader.ReadTurn` | file68/src/file68.c:1582-1740 | a turn of the chunk loop is that of the model, backwards too |
| `Sc68Files.Reader.ReadChunks` | file68/src/file68.c:1579-1748 | on every buffer on which it ends, the chunk loop comes to what the model of it says |
| `Sc68Files.Reader.ValidateTracks` | file68/src/file68.c:665-789 | the loop of valid, with what it carries from track to track |
| `Sc68Files.Reader.ValidateDisk` | file68/src/file68.c:631-807 | valid |
| `Sc68Files.Decode` | file68/src/file68.c:585-602 | decode_artist for an sc68 file |
| `Sc68Files.FindParenthesis` | file68/src/file68.c:558-574 | the backward search for the parenthesis finds the place of the model |
| `Sc68Files.Load` | file68/src/file68.c:1484-1763 | file68_load on every sc68 file on which it ends |
| `Sc68Meaning.TimeSays` | file68/src/file68.c:1652-1663 | a time of n seconds, up to a day, is n times the rate in frames modulo 2^32 when no frames are given, and a time exactly when n is not 0; any other n is no time |
| `Sc68Meaning.FramesSay` | file68/src/file68.c:1665-1675 | a number of frames below 2^24 is the time, and any other is none |
| `Sc68Meaning.LoopSays` | file68/src/file68.c:1684-1695 | a count of loops is kept, -1 is for ever, and what is below or 0 is guessed; a loop of no frames is played once |
| `Sc68Meaning.RateSays` | file68/src/file68.c:1676-1683 | the rate, 50 for 0 |
| `Sc68Meaning.LoopLengthSays` | file68/src/file68.c:1696-1704 | the length of the loop, that of the track when none is given |
| `Sc68Meaning.FlagsSay` | file68/src/file68.c:1713-1726 | any replay flag but the lowest three implies the flag 8, and none the flag 1 |
| `Sc68Meaning.TimeBack` | file68/src/file68.c:536-552 | milliseconds made frames and back lose less than a frame and a millisecond |
| `Sc68Meaning.NameSays` | file68/src/file68.c:1601-1621 | names are those of the album before the first track and then of the current track, the last one counts |
| `Sc68Meaning.ComposerSays` | file68/src/file68.c:1622-1626 | a composer is a tag unless it is the artist |
| `Sc68Meaning.TagSays` | file68/src/file68.c:1727-1735 | a tag chunk is a title, an artist, or a tag of its own, of which there are at most nine |
| `Sc68Meaning.PutTagSays` | file68/src/file68.c:301-325 | a tag has the value put last under its name in any case, and no other changes |
| `Sc68Meaning.AddTagSays` | file68/src/file68.c:301-325 | with nine tags only their own values change |
| `Sc68Meaning.KeysAre` | file68/src/file68.c:278-298 | the names that are not tags of their own |
| `Sc68Meaning.AliasSays` | file68/src/file68.c:554-602 | an artist with an alias in parentheses is the artist without it, and the alias a tag, unless there is one or the name starts with `unknow` |
| `Sc68Meaning.ParenthesisIs` | file68/src/file68.c:554-575 | a name ends in an alias exactly if there is a name before it and the alias has printable characters and no opening parenthesis |
| `Sc68Meaning.ParenthesisFound` | file68/src/file68.c:554-575 | what is found is an alias in parentheses |
| `Sc68Meaning.DefaultSays` | file68/src/file68.c:639-644 | the default track is the one announced, or the first if there is no such track |
| `Sc68Meaning.BufferIs` | file68/src/file68.c:1484-1565 | what is read of a file: an identification string, a chunk that announces how much follows, and at least that much |
| `DiskCache.Cache.Get` | sc68-winamp/cache.c:135-196 | the disk handed out is that of the URI and is held once more; a cached URI is not loaded again; a disk that was loaded takes the first empty slot, or else the first unheld one, whose disk is freed, and no other slot changes; nothing that is held is freed |
| `DiskCache.GetAgain` | sc68-winamp/cache.c:95-196 | get, release with keeping, get again: the same disk is handed out and nothing is loaded, exactly when the first get could use a slot |
| `DiskCache.RoomUnique` | sc68-winamp/cache.c:145-172 | there is one slot for a new disk: the first empty one, or else the first unheld one |
| `DiskCache.Cache.Miss` | sc68-winamp/cache.c:166-192 | a URI that is not cached is loaded, and cached where there is room |
| `DiskCache.Cache.MakeRoom` | sc68-winamp/cache.c:169-190 | the slot gets the disk, its URI and the count 1, what was in it is freed |
| `DiskCache.Cache.DropCached` | sc68-winamp/cache.c:103-117 | one handle of a cached disk less; its slot is emptied exactly if this was the last and it is not to be kept |
| `DiskCache.Cache.Release` | sc68-winamp/cache.c:95-133 | one handle less, in the slot of the disk if it has one; the disk is freed exactly when it is not cached, or this was its last handle and it is not to be kept |
| `DiskCache.Cache.Run` | sc68-winamp/cache.c:95-196 | over any run of gets and releases the counts equal the outstanding handles, no held disk is freed, no URI is cached twice and no disk is freed twice |
| `DiskCache.Cache.Search` | sc68-winamp/cache.c:145-163 | the slot of the URI, or the first empty slot and the first unheld one |
| `DiskCache.AddHandleSound` | sc68-winamp/cache.c:150-155 | a handle more keeps the cache sound |
| `DiskCache.DropHandleSound` | sc68-winamp/cache.c:108-114 | a handle less keeps it sound and the count non-negative |
| `DiskCache.LoadSound` | sc68-winamp/cache.c:166-168 | a new disk is held once and not cached |
| `DiskCache.EvictSound` | sc68-winamp/cache.c:170-180 | evicting an unheld disk frees nothing that is held |
| `DiskCache.KeepSound` | sc68-winamp/cache.c:181-190 | a new entry keeps URIs unique |
| `DiskCache.DiscardSound` | sc68-winamp/cache.c:118-130 | freeing the last handle of an uncached disk frees a live disk, once |

## Left out

ICE! compression:

- the picture pass after the main loop of the depacker (unice68/unice68_unpack.c:232-274); the
  depacker reports that it would run, and the packer never asks for it
- sources and files of 2 GB and more, empty sources, and the conversions of `DBF` counts to 16 bits,
  which are shown to stay in range
- pointers are offsets into their buffers; the destination of the packer must hold
  len + len/8 + 14 bytes, which is what is proved to suffice

68000 arithmetic:

- the multiplications and bit operations of tools/insttest68.c: both forms compute the result by the
  same expression and differ only in how one or two flags are put together
- condition codes are five booleans and the status register is passed by value

as68:

- tokens and the parsing of text, conditionals, includes, `org`, `even`, `ds`, `incbin`, and the
  optimisations of branches; symbols used before an `=` defines them
- Relocation.EvalLinear: division and shifts in expressions, and the tokens of the right operand of
  `and` or `or`, which are left in the line when the left one settles the value
- AssemblerProgram.Assembler.EmitField: the shorter forms that op() chooses under the optimisation option
- MoveCoding.GenOperand: the same
- AssemblerProgram.Assembler.AssembleLine: macros, `rs`, string symbols and local labels
- RelocationTheorem.RelocationExact: relocation is proved for programs with linear expressions, each
  name defined once and equates before their use
- MoveCoding.MoveRoundTrip: a displacement of an indexed operand from 128 to 255, which as68 accepts,
  is the same byte as a negative one and is listed as such; immediates of the same size compare modulo
  that size
- MoveCoding.OpcodeDecodes: byte moves from or to address registers are accepted by as68 and are no
  instruction for desa68
- Instructions.Takes: MOVEP of an operand `(An)`, which as68 writes as `0(An)`; the numbers that are part of
  an opcode, in ADDQ, shifts and TRAP, are given, not expressions
- WordTable.Table.Put: `delete_word`, which nothing calls; symbols of the assembler's model are a map
  by name

desa68:

- the text of the listing, symbol callbacks, the references to memory, the masks of used registers and the
  instruction types

sc68 files:

- Sc68RoundTrip.LoadSaveLoad: files whose album has a genre or format tag, for which validation looks for
  a year instead of an alias, files with music data of negative size, and files whose chunks lead in front
  of the buffer (the outcome `Elsewhere`); genre tags themselves, which are not written; times in
  milliseconds and totals, which are computed from the frames
- Sc68Files.Reader.ReadChunks: a place in front of the buffer ends the loop here (`Outside`), and bytes
  behind the buffer read as 0; what a chunk larger than what is left does before it is found to be an error
- Sc68Files.Decode: decode_artist cuts the string where it stands in the buffer (file68/src/file68.c:585-602);
  two strings that overlap there, because a chunk is shorter than its string, can change each other, while
  here each is a copy
- SNDH, gzip and ICE! containers, URIs, streams that fail, memory that runs out, and the hash
- files of 2 GB and more

The cache:

- `wasc68_cache_kill` and the lock; each call is one step

Everything else in the repository is input and output, user interface, emulation or generated code.
