# Verified model of the SmartQ boot loader and firmware tools

The repository holds a two-stage boot loader (`qi`, `qi-usb-lcd`), parts of U-Boot and the host-side firmware
tools (`fw-utils`). This project models their algorithmic core in Dafny and proves what it is relied on for.
Code that updates state in place is modelled by classes, arrays and loops; each such method is proved against a
specification, and the theorems are about the specification.

`dafny verify dfyconfig.toml` checks everything.

| file | what it models |
|---|---|
| `UrbQueues.dfy` | the intrusive rings of URBs behind a USB endpoint, and the transmit-completion handler, on the heap |
| `PowerPcTables.dfy`, `SpecialRegisters.dfy`, `OperandFields.dfy`, `Branches.dfy`, `Bedbug.dfy` | the PowerPC assembler, disassembler and single-stepper, over the whole opcode and register tables of the source |
| `MemoryTest.dfy`, `MemoryTestRuns.dfy` | the RAM test, run on memory in which words alias and bits are stuck: one series, and the reports of its endless loop |
| `Crc32.dfy` | the unrolled, table-driven CRC-32, against the polynomial fed one bit at a time |
| `Printf.dfy`, `FormatScanner.dfy`, `FormatMeaning.dfy` | number printing, the decimal printer, the `vsprintf` scanner, and what a format means |
| `TwoWire.dfy` | the bit-banged two-wire bus, read back by a decoder that only watches the wires |
| `SystemAce.dfy` | chunked sector reads through the SystemACE controller, over a register model |
| `LittleEndian.dfy`, `Atags.dfy` | the parameter list handed to the kernel, as bytes, and the kernel's walk over it |
| `CircBuf.dfy` | the overwriting ring buffer |
| `Firmware.dfy` | the firmware packer and the checks of the extractor, as bytes |
| `Arithmetic.dfy`, `BitVectors.dfy`, `Numerals.dfy`, `Sequences.dfy` | 32-bit integers, words and bytes, numerals, and facts about division and sequences that several files use |

C `int`, `long`, `u32` and pointers are 32 bits wide. Where wrap-around can matter it is written out (`Int32`,
`ToLong`, `% 0x1_0000_0000`, or bit-vectors); `htonl` is the identity, as on the big-endian target.

## What the code does not do

The proofs brought out the following; the code is modelled as it is, and each point is a lemma or part of a
contract.

- The RAM test reports the running total of a 32-bit counter and never resets it.  On a power of two of memory the
  reports are zero exactly for sound memory only so long: up to 32 MB for fewer than 2^(27 - m) series over 2^m
  words, at 64 MB for three, at 128 MB for one, and from 256 MB on not even for one.  For each size there is broken
  memory of which the next report is zero (`TrustedExactly`, `CounterWraps`).  128 MB with every word stuck report
  the smallest integer, which `printdec` prints as `-0`, and then no errors (`CancelsAtTwo`).
- For any other number of whole words a series cannot see aliases that are congruent modulo the lowest set bit of
  the length, and there always are such memories (`SeriesClean`, `PowerOfTwoExactly`).  A length that is no whole
  number of words leaves aliases and most of the last word untested (`SeriesCleanRagged`).
- `usbd_tx_complete` takes an unsigned difference, so a transfer is complete only when the bytes sent equal its
  length modulo 2^32, and overshooting goes unnoticed (`CompletesExactly`, `OvershootUnnoticed`).
- The single-stepper decides a conditional branch as the architecture does, whatever the registers hold, exactly
  if its form is valid, where the last bit of BO, which the code drops, counts as valid either way
  (`FollowsExactlyValidForms`); a branch-always with a z bit set always falls through
  (`AlwaysFallsThrough`).  It uses LR and CTR without clearing their low bits (`FollowsArchitecture`).
- `spr_value` folds the register name to lower case, but the table is spelled in upper case, so a special-purpose
  register is accepted only as a number (`SprAcceptedIff`).
- A register operand is compared with 31 as a signed number, so a negative one is accepted (`NegativeRegister`).
- The `d` operand of the load and store rows is declared 15 bits wide, so a displacement comes back exactly
  if it is below 2^15 (`DisplacementComesBack`); -4 becomes 32764 (`NegativeDisplacement`).
- `printdec` prints the smallest integer as `-0` (`PrintDec`).
- A failed `get_cf_lock` leaves the lock request set; every other return of `systemace_read` clears it.  If the
  controller grants the lock at the status poll that follows the failure, the lock stays held (`SystemaceRead`,
  `LockLeftHeld`).  Sector numbers are cut to 24 bits at the start of each chunk (`SectorsInOrderIff`).
- `ll_SendCommand` and `ll_SendData` leave the bus without a STOP when a byte is not acknowledged.
- The loop of `do_params` that cuts trailing newlines does not stop at the beginning of the command line: bytes
  before it are written exactly if the line is all newlines and follows a byte that is one (`StripLine`).  Then the
  kernel does not get the text meant for it, unless the line equals the debug options and these end before the place
  of the text (`TextReachedIff`, `OneNewlineStays`).  The cut can reach into the fixed tags; a walk still finds them
  exactly if the debug options put back as many newlines as it took (`DoParams`, `MemoryTagDamaged`).

## Model

| member | source | states |
|---|---|---|
| UrbQueues.UrbLinkInit | qi-usb-lcd/src/usbdcore.c:450-455 | the link becomes a ring of one |
| UrbQueues.UrbDetach | qi-usb-lcd/src/usbdcore.c:463-471 | at any place in a ring of any length: the rest stays one well-formed ring in the same order, and the urb's link is a ring of its own |
| UrbQueues.UrbAppend | qi-usb-lcd/src/usbdcore.c:525-540 | appending a ring of any length to any disjoint ring gives one ring, old list first, then the whole new ring in its order, `next` and `prev` mutually inverse |
| UrbQueues.FirstUrbLink | qi-usb-lcd/src/usbdcore.c:479-489 | the link after the head, or null exactly for the empty list and the null head |
| UrbQueues.FirstUrb | qi-usb-lcd/src/usbdcore.c:495-503 | the first urb of the list, null if there is none |
| UrbQueues.FirstUrbDetached | qi-usb-lcd/src/usbdcore.c:510-517 | dequeue: the first urb leaves, alone; the others are still a list, in order |
| UrbQueues.Append | qi-usb-lcd/src/usbdcore.c:525-540 | enqueue: an urb that is in no list goes to the end of this one |
| UrbQueues.Endpoint.constructor | qi-usb-lcd/include/usbdcore.h:523-533 | an endpoint with an active urb and two empty lists satisfies the invariant: three disjoint rings, counter equal to the length of `tx` |
| UrbQueues.Submit | qi-usb-lcd/src/usbdcore.c:525-540 | queueing an urb appends it to `tx` and keeps the invariant; the counter is incremented with it, as the drivers do |
| UrbQueues.NextUrb | qi-usb-lcd/src/usbdcore.c:425-437 | the next urb is the front of `tx`, else the front of `done`; the allocation fallback is unreachable |
| UrbQueues.FinishUrb | qi-usb-lcd/src/usbdcore.c:419-437 | the sent urb retires to the end of `done` and the slot is refilled; invariant kept, all rings disjoint |
| UrbQueues.UsbdTxComplete | qi-usb-lcd/src/usbdcore.c:403-441 | the whole handler: which of the two cases applies, every field and both lists afterwards, and the invariant |
| UrbQueues.CompletedKeepsAll | qi-usb-lcd/src/usbdcore.c:419-437 | one completion loses and duplicates no urb |
| UrbQueues.Conservation | qi-usb-lcd/src/usbdcore.c:403-441 | over every run of queueings, fillings and packets: the urbs held are those held at the start and those queued since, each exactly once |
| UrbQueues.NeverIdle | qi-usb-lcd/src/usbdcore.c:425-437 | over every run an endpoint that starts with an active urb always has one |
| UrbQueues.TxIsFifo | qi-usb-lcd/src/usbdcore.c:425-428 | over every run: what was served from `tx`, then what waits, is what was there and what was queued, in order |
| UrbQueues.DoneIsFifo | qi-usb-lcd/src/usbdcore.c:419-433 | over every run urbs are reused in the order in which they were sent |
| UrbQueues.SentIsSum | qi-usb-lcd/src/usbdcore.c:410-416 | while no beginning of the packets reaches the length of the active urb, nothing moves and the `sent` counter is their sum, cut to 32 bits |
| UrbQueues.CompletesExactly | qi-usb-lcd/src/usbdcore.c:410-437 | the first completion comes exactly with the first packet at which the sum is the length modulo 2^32; the urb retires, length and counter are cleared |
| UrbQueues.FilledTransfer | qi-usb-lcd/src/usbdcore.c:403-437 | a whole transfer: the active urb is filled up to some length and packets go out; it retires with the first at which their sum is this length modulo 2^32 |
| UrbQueues.ReachedBelow | qi-usb-lcd/src/usbdcore.c:414-414 | for sums and lengths that fit 32 bits, that means equal |
| UrbQueues.OvershootUnnoticed | qi-usb-lcd/src/usbdcore.c:410-414 | packets that go past the length without ending at it complete nothing, however many follow within 4 GB |
| UrbQueues.OneByteTooMany | qi-usb-lcd/src/usbdcore.c:410-414 | one packet of 65 bytes for a length of 64 does not complete the transfer |
| UrbQueues.SendPacket | qi-usb-lcd/src/usbdcore.c:403-441 | a packet and the handler's run on the heap are one packet step of the model over which the theorems on runs are stated |
| UrbQueues.FillUrb | u-boot/drivers/usbtty.c:562 | filling the active urb on the heap is one fill step of that model |
| UrbQueues.QueueUrb | qi-usb-lcd/src/usbdcore.c:525-540 | queueing on the heap is one queue step of that model |
| PowerPcTables.TableSorted | u-boot/include/bedbug/tables.h:66-479 | the opcode table of the source is in numeric order, and neighbouring rows of one primary opcode have the same mask |
| OperandFields.FieldOfPlace | u-boot/common/bedbug.c:919-919 | extracting an operand from where it was placed gives its value cut to the field's width |
| OperandFields.FieldOfJoin | u-boot/common/bedbug.c:828-828 | bits outside the field do not disturb the extraction |
| OperandFields.PackedSplit | u-boot/common/bedbug.c:797-830 | for any operand list, the accumulated word is the starting word joined with bits that lie only in the operands' fields |
| OperandFields.FieldsClearOfMask | u-boot/include/bedbug/tables.h:66-479 | operand fields that fit are together clear of the opcode mask |
| OperandFields.PackedKeepsOpcode | u-boot/common/bedbug.c:797-830 | whatever the operands, the assembled word under the mask is still the opcode |
| OperandFields.PackedRecovers | u-boot/common/bedbug.c:797-830 | every operand that is not silent is recovered from the assembled word, for any operand list and position |
| Branches.RoundTrip14 | u-boot/common/bedbug.c:867-881 | encoding and extending a 14-bit displacement gives it back if and only if it is a multiple of four in signed range |
| Branches.RoundTrip24 | u-boot/common/bedbug.c:867-881 | the same for the 24-bit form |
| Branches.TargetRoundTrip | u-boot/common/bedbug.c:265-273 | the address displayed for an encoded target is that target if and only if the field can hold the displacement |
| Branches.AbsoluteRoundTrip | u-boot/common/bedbug.c:265-273 | the same for absolute branches |
| Branches.DisplacementIsExtended | u-boot/common/bedbug.c:1107-1125 | the stepper's sign extension is EXTS(BD \|\| 0b00) and EXTS(LI \|\| 0b00) of the architecture manual |
| Bedbug.FindOpcode | u-boot/common/bedbug.c:419-442 | the search terminates; what it returns matches; on any table with everything before row j comparing low and everything after comparing high it returns j |
| Bedbug.SortedPins | u-boot/common/bedbug.c:419-442 | in a sorted table any matching row has exactly that property, although every row compares under its own mask |
| Bedbug.FindRow | u-boot/common/bedbug.c:419-442 | on a sorted table a row is found if and only if one matches |
| Bedbug.GetOperandValue | u-boot/common/bedbug.c:375-402 | the operand's field of the instruction if the row has that operand, and failure otherwise |
| Bedbug.AsmPpc | u-boot/common/bedbug.c:797-842 | the loop over operands gives the word, or the first error in operand order, that its operand data determine |
| Bedbug.OperandsCounted | u-boot/common/bedbug.c:799-842 | too few words are an error, and only they are called a wrong number of operands; what follows the last operand is not looked at |
| Numerals.DigitIs | u-boot/lib_generic/vsprintf.c:41-42 | the decimal digits are the characters with a value below 10 |
| Bedbug.HexDigitIs | u-boot/lib_generic/vsprintf.c:41-42 | the hexadecimal ones those with a value below 16 |
| Bedbug.ReadsDecimal | u-boot/common/bedbug.c:992-1016 | a decimal numeral, with or without a minus sign, is read as the number it denotes, modulo 2^32, and ends at the first character that is no digit |
| Bedbug.ReadsHexadecimal | u-boot/common/bedbug.c:992-1016 | so is a hexadecimal one behind `0x` or `0X` |
| Bedbug.RegisterAcceptedIff | u-boot/common/bedbug.c:883-898 | a register operand, with or without its letter, is accepted if and only if its number, as a `long`, is at most 31 |
| Bedbug.NegativeRegister | u-boot/common/bedbug.c:883-898 | so a negative number is accepted |
| Bedbug.OthersAcceptedIff | u-boot/common/bedbug.c:900-917 | which special-purpose and time base registers are accepted, with what value; plain operands are numbers of any size |
| Bedbug.KnownOpcodes | u-boot/include/bedbug/ppc.h:60-130 | opcodes of every form are the words the architecture fixes |
| Bedbug.KnownPlaces | u-boot/include/bedbug/tables.h:16-52 | operands stand where they stand in known instruction words |
| Bedbug.KnownAddresses | u-boot/common/bedbug.c:867-881 | and so do branch displacements, forwards and backwards |
| Bedbug.DisplacementComesBack | u-boot/include/bedbug/tables.h:25 | a displacement comes back if and only if it is below 2^15 |
| Bedbug.NegativeDisplacement | u-boot/include/bedbug/tables.h:25 | `lwz` with a displacement of -4: the word holds 32764 |
| Bedbug.AssembleDisassemble | u-boot/common/bedbug.c:797-842 | an assembled word is found again as the row it came from, and every operand comes back as encoded |
| Bedbug.SprSwapsBack | u-boot/common/bedbug.c:503-541 | the exchange of the two halves of an SPR number when assembling is undone when disassembling |
| Bedbug.FoundIff | u-boot/common/bedbug.c:547-560 | a register name is found if and only if an entry is spelled exactly like it |
| SpecialRegisters.AllCapitals | u-boot/include/bedbug/tables.h:483-582 | every name of the register table has a capital letter |
| Bedbug.CapitalNamesNeverMatch | u-boot/common/bedbug.c:545-560 | a table spelled with capitals is never matched by a folded name |
| Bedbug.SprAcceptedIff | u-boot/common/bedbug.c:528-561 | with the source's table an operand is accepted if and only if it is a number with a nonzero low ten bits |
| Bedbug.SwapHalvesIs | u-boot/common/bedbug.c:553-561 | the low five bits of a register number go up and the next five down |
| Bedbug.TbrAcceptedIff | u-boot/common/bedbug.c:613-646 | the time base operand is 268 or 269 or one of two names in any case, with their exact values, and nothing else is accepted |
| Bedbug.BranchDecision | u-boot/common/bedbug.c:1162-1216 | for all 32 values of BO the switch lets the branch go if and only if BO is a defined encoding and its counter and condition tests hold |
| Bedbug.DecodeBc | u-boot/common/bedbug.c:1096-1112 | operands of the conditional branches, the displacement as the manual extends it |
| Bedbug.DecodeB | u-boot/common/bedbug.c:1114-1128 | operands of the unconditional branches |
| Bedbug.DecodeRegister | u-boot/common/bedbug.c:1130-1154 | operands of the branches through LR and CTR |
| Bedbug.DecodeBranch | u-boot/common/bedbug.c:1095-1160 | for every instruction the class of branch and its operands; the early returns are never taken |
| Bedbug.Successor | u-boot/common/bedbug.c:1162-1237 | given the decoded operands: the target if the branch goes and is not stepped over, and pc + 4 otherwise |
| Bedbug.FindNextAddress | u-boot/common/bedbug.c:1055-1238 | for every instruction and all registers: the successor, for step and for step-over, and failure exactly for unknown opcodes |
| Bedbug.CrBitOfSingle | u-boot/common/bedbug.c:1168-1199 | of a condition register with the single bit k, counted from the left, BI finds exactly k |
| Bedbug.CrBitOfUnion | u-boot/common/bedbug.c:1168-1199 | of several bits it finds each, and nothing else |
| Bedbug.TakenByForm | u-boot/common/bedbug.c:1163-1215 | for every form of BO: taken if and only if the counter is, or is not, about to run out and the digit of the condition register at 31 - BI is the one wanted |
| Bedbug.BranchIfEqual | u-boot/common/bedbug.c:1163-1230 | `beq` with the equal bit of the first field set goes to its target |
| Bedbug.AlignedIs | u-boot/common/bedbug.c:1083 | the instruction looked at is the one at the last multiple of four |
| Bedbug.FollowsArchitecture | u-boot/common/bedbug.c:1163-1230 | for valid forms the stepper branches if and only if the PowerPC architecture does, and to the same address if and only if the register used is word-aligned |
| Bedbug.FollowsExactlyValidForms | u-boot/common/bedbug.c:1163-1230 | for every conditional branch: the stepper agrees with the architecture for all register contents if and only if the form is valid |
| Bedbug.AlwaysFallsThrough | u-boot/common/bedbug.c:1163-1230 | a branch-always with a z bit set, which the architecture always takes and the stepper never |
| Bedbug.BranchesAgree | u-boot/common/bedbug.c:867-881 | assembler, disassembler and stepper agree on a branch's address, relative or absolute, and it is the target asked for if and only if it is in reach |
| Bedbug.AddressRow | u-boot/include/bedbug/tables.h:83-103 | the rows of the branches with an address are marked relative exactly if their AA bit is clear |
| Bedbug.AssembledBranch | u-boot/common/bedbug.c:856-881 | from text to address: a branch assembled at an address, whose operand reads as a target, is shown and stepped to at one address, which is the target if and only if the distance, or for the absolute branches the target itself, is in reach |
| Bedbug.TableHasBranches | u-boot/include/bedbug/tables.h:66-479 | the source's table has the rows the stepper relies on |
| MemoryTest.MemoryTestConst32 | qi/src/memory-test.c:4-27 | on faulty memory and for any length: exactly the whole words whose read-back differs are counted |
| MemoryTest.MemoryTestAds | qi/src/memory-test.c:29-61 | the same for the address-marking pass under any single-bit mask |
| MemoryTest.MemoryTestWalking1 | qi/src/memory-test.c:63-74 | 32 floods, one for each bit, and it ends |
| MemoryTest.Series | qi/src/memory-test.c:99-117 | one series adds, in 32 bits, exactly the errors of all its passes, for any nonzero length |
| MemoryTest.AddressPasses | qi/src/memory-test.c:113-117 | the loop over masks ends at the lowest set bit of the length and tries every smaller one |
| MemoryTest.PassClean | qi/src/memory-test.c:13-24 | on memory without stuck bits a pass counts nothing if and only if words sharing a cell were given equal values |
| MemoryTest.CheckerboardsSee | qi/src/memory-test.c:99-100 | the two checkerboards between them show every stuck bit |
| MemoryTest.SameBitsCongruent | qi/src/memory-test.c:113-117 | two addresses agree under all masks tried if and only if they are congruent modulo 2^n |
| MemoryTest.AddressPassesClean | qi/src/memory-test.c:113-117 | on sound cells the address passes count nothing if and only if aliases agree in all bits tried |
| MemoryTest.SeriesClean | qi/src/memory-test.c:99-117 | for any whole number of words: no error if and only if no bit is stuck and aliases are congruent modulo the lowest bit of the length |
| MemoryTest.SeriesCleanRagged | qi/src/memory-test.c:99-117 | for any other length: no error if and only if all words but the last are in sound cells and, with two bytes left over, the last can hold the value of the one address pass |
| MemoryTest.SeriesCleanPowerOfTwo | qi/src/memory-test.c:99-117 | for a power of two: no error if and only if no two words alias and no bit is stuck |
| MemoryTest.SeriesBound | qi/src/memory-test.c:99-117 | the most errors one series can count |
| MemoryTest.AliasMissed | qi/src/memory-test.c:113-117 | for every other length, an alias a series does not see |
| MemoryTest.PowerOfTwoExactly | qi/src/memory-test.c:99-117 | a series tells sound from faulty memory of a size if and only if the size is a power of two |
| MemoryTestRuns.Loop | qi/src/memory-test.c:90-124 | report k is k times the errors of one series, in 32 bits, whatever the memory held before |
| MemoryTestRuns.ReportIsVerdict | qi/src/memory-test.c:90-124 | as long as n times the most a series can count fits the counter, the first n reports are zero if and only if the memory is sound |
| MemoryTestRuns.TrustedExactly | qi/src/memory-test.c:90-124 | for every power of two up to 2 GB the exact number of series: the first n reports are zero exactly for sound memory, whatever the faults, if and only if n is below it |
| MemoryTestRuns.RightBelow | qi/src/memory-test.c:90-124 | below it no faulty memory is reported sound, since the factors of two of the count cannot add up to 2^32 |
| MemoryTestRuns.CounterWraps | qi/src/memory-test.c:90-124 | for each of these sizes, a faulty memory without aliases whose report after that number of series is zero |
| MemoryTestRuns.CancelsAtTwo | qi/src/memory-test.c:90-124 | 128 MB with every word stuck: 2^31 errors in each series, none reported after two |
| MemoryTestRuns.WordByWord | qi/src/memory-test.c:99-117 | in memory without aliases a series counts its errors word by word |
| MemoryTestRuns.StuckWord | qi/src/memory-test.c:99-117 | words stuck at a value of their own fail every pass, words stuck at the first checkerboard all but one |
| MemoryTestRuns.LowWord | qi/src/memory-test.c:99-117 | words whose low lines are stuck at zero fail every pattern, the walks that reach them and the address passes that store ones |
| MemoryTestRuns.MixedSeries | qi/src/memory-test.c:99-117 | the exact count for memory with two kinds of stuck words |
| Crc32.TableIsShift8 | qi-usb-lcd/src/crc32.c:41-94 | every table entry is eight steps of the bit-serial register |
| Crc32.StepIsShift8 | qi-usb-lcd/src/crc32.c:96-96 | one table step is eight bit-serial steps |
| Crc32.StepsIsFeed | qi-usb-lcd/src/crc32.c:96-112 | the byte-wise checksum is the bit-serial one, for any message |
| Crc32.Do1 | qi-usb-lcd/src/crc32.c:96-96 | consumes one byte and leaves the rest of the checksum the same |
| Crc32.Do8 | qi-usb-lcd/src/crc32.c:97-99 | eight bytes in a row |
| Crc32.Compute | qi-usb-lcd/src/crc32.c:101-115 | the unrolled loop and its tail compute the bit-serial CRC-32 of the message |
| Crc32.FeedLinear | qi-usb-lcd/src/crc32.c:96-112 | the register is linear over exclusive or |
| Crc32.BurstCancels | qi-usb-lcd/src/crc32.c:96-112 | at most 32 bits that empty the register determine what was in it |
| Crc32.SameCrc | qi-usb-lcd/src/crc32.c:101-115 | two messages collide if and only if their difference leaves the register empty |
| Crc32.BurstDetected | qi-usb-lcd/src/crc32.c:101-115 | any corruption inside any 32-bit window of any message changes the checksum |
| Crc32.FourBytesDetected | qi-usb-lcd/src/crc32.c:101-115 | any corruption of up to four consecutive bytes changes the checksum |
| Crc32.Continued | qi-usb-lcd/src/crc32.c:104-114 | a checksum passed back in continues over the next piece |
| Crc32.LeadingZeroSeen | qi-usb-lcd/src/crc32.c:104-114 | a zero byte in front changes the checksum of every message, unless the run starts from all ones |
| Crc32.Residue | qi-usb-lcd/src/crc32.c:104-114 | a message followed by its own checksum, low byte first, has the checksum 0x2144df1c, whatever the message |
| Crc32.CheckValue | qi-usb-lcd/src/crc32.c:101-114 | the checksum of nothing is 0, that of the digits 1 to 9 is 0xcbf43926 |
| Printf.NumeralReadsBack | qi-usb-lcd/src/utils.c:216-260 | the digits of any number in any base 2..36 read back as the number |
| Printf.NoLeadingZero | qi-usb-lcd/src/utils.c:256-260 | and do not start with a zero unless the number is zero |
| Printf.NumeralIsShort | qi-usb-lcd/src/utils.c:225-225 | a number below 2^n has at most n digits, so the 66-character buffer is enough |
| Printf.ProduceDigits | qi-usb-lcd/src/utils.c:256-260 | the digits of the number's unsigned value, last first, within the buffer |
| Printf.EmitDigits | qi-usb-lcd/src/utils.c:282-283 | the buffer is put out in reverse |
| Printf.Emit | qi-usb-lcd/src/utils.c:264-285 | the five padding loops with one shared counter give one arrangement of blanks, sign, prefix, zeros and digits |
| Printf.Number | qi-usb-lcd/src/utils.c:223-287 | for every value, base, width, precision and flag set: the specified field, and refusal of other bases |
| Printf.NumberLength | qi-usb-lcd/src/utils.c:261-285 | the field is as long as the larger of the width and sign, prefix, and precision or digits together |
| Printf.NumberReadsBack | qi-usb-lcd/src/utils.c:223-287 | the field is blanks, sign and prefix, digits, blanks, and the digits read back as the magnitude |
| Printf.NumberIsField | qi-usb-lcd/src/utils.c:223-287 | the text is blanks, sign, prefix, digits and blanks, the parts described next |
| Printf.NumberValue | qi-usb-lcd/src/utils.c:237-259 | with the sign flag the text shows the number itself, and without it the number modulo 2^32 |
| Printf.NumberHead | qi-usb-lcd/src/utils.c:236-274 | a minus sign exactly for negative numbers under the sign flag, `+` and blank as the flags say, and `0`, `0x` or `0X` for the alternate form |
| Printf.NumberPlacing | qi-usb-lcd/src/utils.c:229-285 | digits of the base in the case asked for, at least as many as the precision; which side is blank, and when more zeros stand in front |
| Printf.Subtractions | qi-usb-lcd/src/utils.c:110-114 | repeated subtraction is division with remainder |
| Printf.PrintDec | qi-usb-lcd/src/utils.c:86-121 | for every integer but the smallest the very text `number` prints in base 10 with a sign; for the smallest, "-0" |
| FormatScanner.ScanFlags | qi-usb-lcd/src/utils.c:310-320 | the flags of the directive, and the cursor behind them |
| FormatScanner.SkipAtoi | qi-usb-lcd/src/utils.c:199-206 | the number at the cursor, and the cursor behind it |
| FormatScanner.ScanWidth | qi-usb-lcd/src/utils.c:322-334 | the width, given by digits or by an argument, a negative one meaning left-justified |
| FormatScanner.ScanPrecision | qi-usb-lcd/src/utils.c:336-349 | the precision, none, or zero for what is not a number |
| FormatScanner.ScanDirective | qi-usb-lcd/src/utils.c:310-356 | the whole directive; the cursor never passes the end of the format |
| FormatScanner.EmitPadded | qi-usb-lcd/src/utils.c:362-385 | text in a field, on the side asked for |
| FormatScanner.EmitConversion | qi-usb-lcd/src/utils.c:358-447 | what each conversion prints and how many arguments it uses |
| FormatScanner.VSPrintf | qi-usb-lcd/src/utils.c:289-451 | on any format: it ends, the output is that of the format's meaning, and the value returned is its length |
| FormatScanner.DirectiveShortens | qi-usb-lcd/src/utils.c:310-356 | what is left after a directive is no longer than what was there |
| FormatScanner.EscapedTextIsVerbatim | qi-usb-lcd/src/utils.c:304-410 | any text with its percent signs doubled comes out as it is |
| FormatScanner.TruncatedDirective | qi-usb-lcd/src/utils.c:429-435 | a format that ends inside a directive prints one percent sign and ends |
| FormatScanner.DecimalDirective | qi-usb-lcd/src/utils.c:423-447 | a plain `%d` prints the argument as a signed decimal without padding and goes on with the next argument |
| FormatScanner.StringDirective | qi-usb-lcd/src/utils.c:371-385 | a plain `%s` prints the very string, or `<NULL>` if there is none |
| FormatScanner.OutputGrows | qi-usb-lcd/src/utils.c:304-450 | output and `%n` counts already produced are never changed, and no count exceeds the length of the output |
| FormatMeaning.FlagsReadBack | qi-usb-lcd/src/utils.c:310-320 | flags in any order and number are read as the set of those present |
| FormatMeaning.NumberReads | qi-usb-lcd/src/utils.c:199-206 | digits are read as the number they denote, and the cursor stops behind them |
| FormatMeaning.WidthReadsBack | qi-usb-lcd/src/utils.c:322-334 | a width is read as its number, or as the magnitude of an argument, left-justified if that was negative |
| FormatMeaning.PrecisionReadsBack | qi-usb-lcd/src/utils.c:336-349 | a precision is read as its number, zero if the digits are missing, or as an argument but not below zero |
| FormatMeaning.DirectiveReadsBack | qi-usb-lcd/src/utils.c:310-356 | round trip: any directive written down and followed by any text is read back as exactly that directive and that text |
| FormatMeaning.DirectiveStep | qi-usb-lcd/src/utils.c:310-448 | a directive prints its conversion and takes its arguments, and the rest of the format follows |
| FormatMeaning.IntegerStep | qi-usb-lcd/src/utils.c:413-447 | `d i u o x X`: base, sign, case and qualifier of each, in the field asked for |
| FormatMeaning.StringStep | qi-usb-lcd/src/utils.c:371-385 | `s`: the string cut to the precision, in its field |
| FormatMeaning.CharStep | qi-usb-lcd/src/utils.c:362-369 | `c`: one character in its field |
| FormatMeaning.PointerStep | qi-usb-lcd/src/utils.c:387-395 | `p`: base 16, eight digits without a width |
| FormatMeaning.CountStep | qi-usb-lcd/src/utils.c:398-406 | `n`: stores the length so far and prints nothing |
| FormatMeaning.OtherStep | qi-usb-lcd/src/utils.c:408-435 | `%` prints itself, any other character itself behind a percent sign |
| FormatMeaning.StringPrinted | qi-usb-lcd/src/utils.c:371-385 | `s`, character by character: the string cut to the precision, if there is one, with blanks on the one side up to the width |
| FormatMeaning.CharPrinted | qi-usb-lcd/src/utils.c:362-369 | `c`: the character of the argument's low eight bits in such a field |
| FormatMeaning.IntegerPrinted | qi-usb-lcd/src/utils.c:413-447 | `d i u o x X`: what a reader makes of the text is the argument, cut to 16 bits under `h`, signed for `d` and `i` and modulo 2^32 for the others, with sign, prefix and filling as the flags say |
| FormatMeaning.PointerPrinted | qi-usb-lcd/src/utils.c:387-395 | `p`: the address modulo 2^32 in base 16, filled with zeros to eight places without a width |
| FormatMeaning.SpecTaken | qi-usb-lcd/src/utils.c:310-356 | a directive taken off a text is one of the grammar, and nothing is lost |
| FormatMeaning.SpecIs | qi-usb-lcd/src/utils.c:310-356 | there is only one way to take a directive apart |
| FormatMeaning.ScannerReachesEnd | qi-usb-lcd/src/utils.c:310-356 | a directive that is not complete is scanned to the end of the format |
| FormatMeaning.EveryFormat | qi-usb-lcd/src/utils.c:304-450 | every format whatever is a list of characters and directives, followed by at most one directive that is not complete |
| FormatMeaning.ElementsAre | qi-usb-lcd/src/utils.c:304-450 | in one way only |
| FormatMeaning.FormatMeans | qi-usb-lcd/src/utils.c:304-450 | it prints these elements in order, each with its own arguments, and a percent sign for the incomplete one; none is read as part of another |
| FormatMeaning.EveryFormatMeans | qi-usb-lcd/src/utils.c:304-450 | so the output of every format is the meaning of its elements |
| TwoWire.SentIsByte | fw-utils/ll_port.c:139-147 | the eight bits sent, most significant first, are the byte |
| TwoWire.FirstBitOnTop | fw-utils/ll_port.c:139-147 | the first of eight bits on the wire is bit 7 of the byte, and so on down |
| TwoWire.BitSent | fw-utils/ll_port.c:140-146 | one clock pulse with a level on the data line is one bit to anyone watching |
| TwoWire.Acknowledge | fw-utils/ll_port.c:148-160 | in the ninth pulse the byte is acknowledged exactly if the line is seen low |
| TwoWire.Bus.StartCondition | fw-utils/ll_port.c:90-101 | from any state of the bus: exactly one START |
| TwoWire.Bus.StopCondition | fw-utils/ll_port.c:103-111 | exactly one STOP, both lines left high |
| TwoWire.Bus.AckNak | fw-utils/ll_port.c:113-122 | one bit, low to acknowledge, which completes the byte |
| TwoWire.Bus.Write | fw-utils/ll_port.c:133-165 | the decoder reads exactly the byte, acknowledged if and only if zero is returned, that is, if one of eight samples is low |
| TwoWire.Bus.Read | fw-utils/ll_port.c:168-181 | the byte returned is the eight levels the other side drove, and the decoder has seen the same bits |
| TwoWire.Bus.SendCommand | fw-utils/ll_port.c:183-202 | the decoder sees the refused attempts (at most ten, each with its own START), then START and the bytes up to the first one not acknowledged, for each return code |
| TwoWire.Bus.SendData | fw-utils/ll_port.c:233-247 | all bytes acknowledged and a STOP, or the bytes up to the refused one and no STOP |
| TwoWire.Bus.ReceiveData | fw-utils/ll_port.c:204-231 | every byte but the last acknowledged, then STOP; the buffer holds the bytes the decoder saw, and nothing else is touched |
| TwoWire.ReceivedIs | fw-utils/ll_port.c:204-231 | byte by byte: the last one read is the one that is not acknowledged |
| TwoWire.Bus.CommandAndSend | fw-utils/ll_port.c:183-247 | a command and its data that succeed are on the wires as exactly START, the bytes with acknowledge, STOP after the refused attempts; the data line changes under a high clock retries + 2 times |
| TwoWire.Bus.CommandAndReceive | fw-utils/ll_port.c:183-231 | the same for a command whose answer is read |
| TwoWire.TranscriptUnique | fw-utils/ll_port.c:183-247 | a write transcript determines the number of attempts and every byte |
| TwoWire.ReadTranscriptUnique | fw-utils/ll_port.c:183-231 | a read transcript determines the number of attempts and all bytes of command and answer together, though not where the one ends |
| TwoWire.ChangesAreConditions | fw-utils/ll_port.c:67-111 | in any run of the wires the data line changes under a high clock exactly as often as a START or STOP is seen |
| Arithmetic.Int32Is | qi/src/memory-test.c:90-124 | a sum in 32 bits is the one number of that range congruent to the sum |
| SystemAce.ControlTests | u-boot/common/cmd_ace.c:99-132 | and the same two bits are tested |
| SystemAce.LowByteFirst | u-boot/common/cmd_ace.c:236-250 | a word of the data register holds its first byte below its second |
| SystemAce.ControlBits | u-boot/common/cmd_ace.c:99-132 | requests set and clear bit 1 and bit 7 of the control register and leave the others alone |
| SystemAce.GetCfLock | u-boot/common/cmd_ace.c:99-119 | seen if and only if it is held already or one of twelve polls grants it; the request stays set either way |
| SystemAce.ReleaseCfLock | u-boot/common/cmd_ace.c:121-126 | the request and with it the lock are gone, other control bits stay |
| SystemAce.WaitForCommand | u-boot/common/cmd_ace.c:180-203 | succeeds if and only if the controller gets ready within 2002 polls with the card present until then, and otherwise releases the lock |
| SystemAce.AwaitBuffer | u-boot/common/cmd_ace.c:239-241 | ends, with a full sector buffer |
| SystemAce.ReadBuffer | u-boot/common/cmd_ace.c:244-248 | sixteen words become the next 32 bytes of the card, in order, and nothing else is touched |
| SystemAce.TransferChunk | u-boot/common/cmd_ace.c:211-256 | a chunk of 1 to 256 sectors (a count field of 0 meaning 256) puts exactly these sectors in the buffer |
| SystemAce.TransferAll | u-boot/common/cmd_ace.c:209-261 | all blocks wanted, chunk after chunk, the lock held throughout |
| SystemAce.SystemaceRead | u-boot/common/cmd_ace.c:153-266 | return value, buffer, request and lock for every outcome and every state of the lock on entry; the request is left standing if and only if the lock was never seen, and the lock held if and only if it is granted at the poll after that |
| SystemAce.LockLeftHeld | u-boot/common/cmd_ace.c:163-174 | with a controller that grants at the thirteenth poll the read fails and the lock stays held |
| SystemAce.ChunkImage | u-boot/common/cmd_ace.c:219-220 | one chunk is one stretch of consecutive sectors |
| SystemAce.SectorsInOrderIff | u-boot/common/cmd_ace.c:219-260 | the blocks are sectors start, start + 1, ... if and only if the last chunk begins below 2^24 |
| SystemAce.ImageInOrder | u-boot/common/cmd_ace.c:219-260 | below that every byte of the buffer is the byte of the card at the same distance from the first sector |
| LittleEndian.LowestFirst | qi-usb-lcd/src/phase2.c:193-198 | a word in memory is its four bytes, lowest first |
| Atags.WalkLaid | qi-usb-lcd/include/setup.h:246-250 | walking any list of tags laid out in memory, wherever it stands, finds exactly these tags and stops |
| Atags.Strcpy | qi-usb-lcd/src/phase2.c:229-229 | copies a string and its terminator and nothing else |
| Atags.PutCore | qi-usb-lcd/src/phase2.c:193-198 | the core tag, and where the next begins |
| Atags.PutRevision | qi-usb-lcd/src/phase2.c:201-204 | the revision tag |
| Atags.PutMem | qi-usb-lcd/src/phase2.c:207-211 | the memory tag, with the size before the start as the structure has it |
| Atags.PutInitrd | qi-usb-lcd/src/phase2.c:213-221 | the initial ramdisk tag, with the start before the size |
| Atags.CopyLine | qi-usb-lcd/src/phase2.c:190-243 | the parts of the command line end to end, without leading blanks |
| Atags.LineIs | qi-usb-lcd/src/phase2.c:225-243 | these parts, in their order: the board's options from the first that is no blank, those for the device and those of the file where there are any, and the root file system |
| Atags.FixedReads | qi-usb-lcd/src/phase2.c:193-221 | the fixed tags as the kernel's structures read them, word by word |
| Atags.CmdlineReads | qi-usb-lcd/src/phase2.c:263-271 | the text is what the kernel reads from the command line tag |
| Atags.StripLine | qi-usb-lcd/src/phase2.c:247-250 | the terminator goes behind the last byte that is no newline, of all memory before; bytes before the text are changed if and only if the line is all newlines and a newline stands before it |
| Atags.CutIs | qi-usb-lcd/src/phase2.c:247-250 | where that is, in terms of the line |
| Atags.StrippedIs | qi-usb-lcd/src/phase2.c:247-248 | what stripping leaves does not end in a newline, and only newlines are cut |
| Atags.PutText | qi-usb-lcd/src/phase2.c:225-261 | memory after the text is written, for any line and any memory |
| Atags.TextedClean | qi-usb-lcd/src/phase2.c:247-261 | if the cut has something to stop at, the string is the line without its trailing newlines and the debug options |
| Atags.TextedRunsOver | qi-usb-lcd/src/phase2.c:247-261 | otherwise the newlines stay, or the end of the debug options, written too early, is all there is |
| Atags.TextReachedIff | qi-usb-lcd/src/phase2.c:225-261 | exactly when the kernel gets the text meant for it |
| Atags.OneNewlineStays | qi-usb-lcd/src/phase2.c:247-250 | a command line of one newline for which it does not |
| Atags.SizeFits | qi-usb-lcd/src/phase2.c:264-265 | the rounded size leaves room for the text, its terminator and at least one byte more |
| Atags.HeadCmdline | qi-usb-lcd/src/phase2.c:263-271 | the header does not touch the text, and the next tag begins behind it |
| Atags.WalkedIsLaid | qi-usb-lcd/include/setup.h:246-250 | the other way round: what a walk finds is laid out there, byte for byte |
| Atags.DoParams | qi-usb-lcd/src/phase2.c:180-276 | for every configuration and memory: the kernel's walk visits core, revision, memory, the ramdisk if there is one, and one more tag, the command line, and stops, if and only if the fixed tags are kept; the text is whole whenever the cut has something to stop at; nothing outside is touched |
| Atags.MemoryTagDamaged | qi-usb-lcd/src/phase2.c:247-250 | a line of one newline behind eight newlines, with memory from 0x0a000000: the fixed tags are not kept |
| CircBuf.Circbuf.constructor | u-boot/common/circbuf.c:27-41 | a new buffer is empty |
| CircBuf.Circbuf.Push | u-boot/common/circbuf.c:81-110 | the buffer holds the last `totalsize` bytes of what it held and what is pushed |
| CircBuf.Circbuf.Pop | u-boot/common/circbuf.c:54-79 | the oldest bytes, as many as wanted and there, and the rest stays |
| CircBuf.TailPosition | u-boot/common/circbuf.c:81-107 | tail == (top + size) mod totalsize |
| CircBuf.HeldIsSuffix | u-boot/common/circbuf.c:54-110 | after any run of pushes and pops the contents are the last bytes ever pushed |
| CircBuf.LosslessIff | u-boot/common/circbuf.c:54-110 | over any run, popped and held bytes together are everything pushed, in order, if and only if no push overflowed |
| Firmware.GetSum | fw-utils/mkSmartQ.c:61-67 | the sum of the bytes modulo 2^32 |
| Firmware.GetCheckSum | fw-utils/mkSmartQ.c:69-94 | reading a file 4 MB at a time through one buffer gives its byte sum modulo 2^32 |
| Firmware.FillHeader | fw-utils/mkSmartQ.c:96-125 | the header byte for byte, all but its checksum |
| Firmware.PutStanzas | fw-utils/mkSmartQ.c:114-124 | the records of the sections, each with the running offset |
| Firmware.FillTable | fw-utils/mkSmartQ.c:181-198 | size and checksum of every file given, nothing for skipped and absent ones |
| Firmware.Append | fw-utils/mkSmartQ.c:222-227 | the files end to end behind the header |
| Firmware.Pack | fw-utils/mkSmartQ.c:137-230 | for any arguments: each file given stands byte for byte where its record says, directly behind the one before, with its checksum and its place in the flash; version, date, machine, vendor and count read back; the header passes the extractor's checks exactly on the right machine |
| Firmware.HeaderSum | fw-utils/extract.c:49-57 | the sum over the part of the header it covers |
| Firmware.Extract | fw-utils/extract.c:59-138 | accepts if and only if magic, checksum, machine and vendor are right |
| Firmware.WrongByteRefused | fw-utils/extract.c:73-82 | any one wrong byte in the magic, the checksum or what the checksum covers, outside the size field, makes the header refused |

## Left out

- Hardware and operating system: GPIO, timers and delays, LEDs, LCD, file and process calls are replaced by a trace, a register model or byte sequences; console output is dropped.
- The rest of `usbdcore.c`: the receive completion only adds a length or sets an error; descriptor look-ups are plain table access. The drivers that queue urbs for transmission are not part of the repository's USB core and appear as `Submit`, `QueueUrb` and `FillUrb`.
- Boot selection in `phase2.c` (`do_block_init`, `do_partitions`, `load_uimage`, `load_zimage`, `try_this_kernel`): straight-line dispatch over file systems whose implementation is not part of this model.
- The bump allocator of `utils-phase2.c`: one addition and a comparison.
- The loop of the RAM test is endless; it is modelled up to any number of series. Its messages other than the total are dropped.
- MemoryTest.MemoryTestConst32: the words written must end below 2^32; a pointer that runs past the end of the address space is undefined in C.
- MemoryTest.MemoryTestAds: the same restriction on the range.
- MemoryTest.MemoryTestWalking1: the same restriction on the range.
- MemoryTest.AddressPasses: the same restriction on the range.
- MemoryTestRuns.Loop: the same restriction on the range.
- MemoryTest.Series: the same restriction on the range; with a length of zero its loop over masks never ends.
- Bedbug.AsmPpc: starts from the row of the mnemonic and the words of the line; splitting the line and looking the name up are plain searches.
- Bedbug.AssembleDisassemble: the round trip is at the level of operand values; offset operands print as `d(rA)`, which the assembler reads as one word.
- The simplified mnemonics of the disassembler and its text output, apart from branch addresses.
- FormatScanner.IntArg: a missing or mistyped variable argument is undefined in C and reads as zero here.
- FormatScanner.SkipAtoi: a width or precision beyond the range of `int` is undefined in C and is an unbounded number here.
- FormatScanner.ScanWidth: a star width of -2^31, whose negation is undefined in C, becomes 2^31 here.
- Bedbug.FindNextAddress: reading the instruction never fails.
- TwoWire.Bus: delays, the power-on clocking (`ll_PowerOn`) and `ll_WaitClock`; the level of the data line is what the master drives except where it samples.
- SystemAce.Ace: a card removed in the middle of a transfer would make the source wait for ever; the controller modelled here fills its buffer in the end.
- UrbQueues.Submit: stands for drivers that are not part of `usbdcore.c`; the increment of the queue counter is theirs.
- Atags.DoParams: the room needed is part of the precondition, since the source does not check it. A root file system's append file of 512 bytes without a terminator is not modelled.
- CircBuf.Circbuf.Push: a buffer of size zero must not be pushed to; the source would write past its data.
- Firmware.Pack: files must stay as they are while the program runs, each below 2 GB and the image below 4 GB, which is what its 32-bit fields can say; a file that cannot be opened after `stat` is not modelled.
- Firmware.Extract: the header must lie in memory as far as its size field says.
