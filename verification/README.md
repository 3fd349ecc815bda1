# Verified models of AprPc, its GBA tools and the SeaBIOS build scripts

Dafny models of eight programs, with proofs about every input or every run of each. Where a
program updates arrays, objects or dictionaries in place, so does its model, and the method is
proved against a function whose properties are lemmas; protocols are state machines over
their accesses.

- **Section layout** (`layoutrom.py`): `Sections` is the stacking allocator, `GapFilling` and
  `FixedSections` the greedy filling between fixed sections, `FillOrder` the order it takes gaps and
  sections in, `FillAlignment` the alignment of what is filled in, `Layout` the eight stacked groups,
  `LayoutOrder` which sections get an address, in which order and in which segment, `LayoutSafety` what
  the stored addresses satisfy, `LayoutExamples` inputs on which they do less, `Reachability` the
  worklist that keeps sections, `KeepRules` which relocations it follows.
- **Rewriting 32-bit assembly for x86emu** (`vgafixup.py`): `Machine` is a small x86, `Leal` the
  replacement of one `leal`, `CallRet` the simulation of the whole file at any call depth.
- **FAT12 floppies** (`make_fat12_floppy.py`): `Fat12` packs 12-bit entries, `Floppy` and
  `FloppyBuilder` fill the image, `FloppyReader` is an independent reader written from the FAT
  specification, `FloppyRoundTrip` connects the two, `FloppyBytes` says what stands at which offset.
- **The PC runner** (`PcSystemRunner.cs`, `Pic8259.cs`, `X86State.cs`): `Interrupts` is the entry
  into a handler and IRET, `StackFrames` its bytes, `Nesting` handlers that are interrupted themselves, `EmulatorLoop` the
  loop of the emulator thread over whole runs, `Lifecycle` Start, Pause, Resume and Stop
  interleaved with that thread access by access.
- **Stack analysis** (`checkstack.py`): `CallChains` defines stack use by call chains, `StackUse` is
  the memoised recursion, `CallTotals` the meaning of its names, uses and totals, `FunctionOrder`
  the destructive ordering of the report.
- **Disk geometry** (`block.c`): `Geometry`.
- **The ARM hand assembler** (`gba_handasm.py`): `ArmImmediates` and `ArmCode` hold the encoders, a
  decoder written from the ARM Architecture Reference Manual and the proofs between them; `Cart` is
  the image builder; `ArmMachine` and `RedDemo` execute the sample cart, `RedWords` is the same in numbers.
- **The header patcher** (`RomPatcher.cs`): `RomPatcher`.

`Common`, `Sorting` and `Bytes` are shared. `dafny verify dfyconfig.toml` checks everything.

## What was found

Places where the code does less than the expected property says, each with the condition that decides
it, and with an input where the condition does not name one.

- `main` of `layoutrom.py` assigns `BUILD_MIN_BIOSTABLE = 8192` for large images (lines 655-656) to a
  local variable, so `doLayout` reserves 2048 bytes for every image. The zone has more, 8192 bytes for
  instance, exactly when the flat and init sections happen to leave it (`LayoutSafety.ZoneRoom`);
  `LayoutExamples.SmallZone` has 2048.
- `fitSections` tests whether a section fits at its aligned address and stores it at the unaligned
  one. The filled sections are aligned exactly when no gap counts padding
  (`FillAlignment.AlignedIffNoPadding`). Sizes and ends of fixed sections on a grid suffice
  (`AlignedOnGrid`), and the ends are needed (`BlocksAligned`); `StoredOffAlignment` is an input.
- Relocating low memory keeps the alignment of a low section exactly when the init sections start
  at a multiple of it, and always when they have that alignment themselves
  (`LayoutSafety.LowAlignment`, with upper memory `LowAlignmentUpper`); `LayoutExamples.LowAlignmentLost`
  is an input.
- Truncation toward zero in `setSectionsStart` lets a group end above its limit when the limit is
  below the space the group needs. `Sections.StartBounds` and `LayoutSafety.FitsIffBelow` say exactly
  when; `LayoutExamples.TooLargeOverlaps` is an input that is stored over a fixed section.
- Two fill sections with equal size, alignment and name make the sort compare section objects, which
  raises an exception (lines 105-107): one of the outcomes of `FixedSections.FitSections`, with
  `Comparable` as its condition.
- Stop sets the event before it cancels: a parked thread can begin an iteration that nobody resumed,
  if and only if it is at the wait or just behind it before the cancellation
  (`Lifecycle.StopBeginsIff`); `StopMayRunOneMore` is a run.
- A LARGE drive with more than 255 physical heads keeps them, and only such a heuristic drive has
  more than 255 (`Geometry.HeuristicGeometry`); `LargeKeepsHeads` is an input.
- LBA translation cuts drives off at 1024 cylinders, exactly for four ranges of sizes
  (`Geometry.LbaIsClipped`). Setting a drive up again keeps its geometry but turns the translation
  into that of the host (`Geometry.SetupAgain`).
- `b_imm` accepts targets at no whole number of words and rounds them down; `bne_back` has no range
  check and is the branch it stands for exactly when that branch is in range (`ArmCode.BranchDecodes`,
  `BackIsBranch`, `BackWraps`).
- A `leal` with neither base nor index becomes a line that starts with a `movl` from nothing
  (`Leal.HandleLeal`).

A comment differs from the code in `Cart.build`: it speaks of a power of two, the code only fills up to
256 bytes, and so does the model.

## Model

| member | source | states |
|---|---|---|
| Sections.SetSectionsStart | ref/seabios/scripts/layoutrom.py:49-61 | Every section of the list gets the address and the segment offset the stacking assigns it; start and alignment are returned. |
| Sections.SecondPassRepeats | ref/seabios/scripts/layoutrom.py:52-60 | From an aligned start, the second pass repeats the offsets the first pass counted. |
| Sections.StartBounds | ref/seabios/scripts/layoutrom.py:52-55 | The start is aligned; the group ends by the limit if and only if its space is at most the limit or the difference is a multiple of the alignment; if the space fits, less than the alignment is wasted. |
| Sections.StackedLayout | ref/seabios/scripts/layoutrom.py:49-61 | Every section is aligned, at or above the start, below the limit when the space fits, and before the next section of the list. |
| Sections.PackedTightly | ref/seabios/scripts/layoutrom.py:56-60 | Every section is at the first multiple of its alignment behind the end of the one before it. |
| Sections.HighestStart | ref/seabios/scripts/layoutrom.py:50-55 | A group with room starts at the highest multiple of its alignment from which its last section ends by the limit. |
| Sections.AlignmentOfGroup | ref/seabios/scripts/layoutrom.py:51-52 | The alignment of a group is the largest of its sections' and the one asked for, and one of them. |
| Sections.AlignPosLeast | ref/seabios/scripts/layoutrom.py:38-40 | Aligning up gives the least multiple not below the position. |
| Sections.TruncToIsQuotient | ref/seabios/scripts/layoutrom.py:54 | Clearing low bits of the magnitude is division, truncation toward zero, and multiplication by the alignment. |
| GapFilling.FindFit | ref/seabios/scripts/layoutrom.py:117-128 | Stopping the scan at the first section that is too large still finds the last section that fits. |
| GapFilling.FillGaps | ref/seabios/scripts/layoutrom.py:109-137 | Every placement of the plan is stored in its section, and the bytes used are those of the plan. |
| FixedSections.FitSections | ref/seabios/scripts/layoutrom.py:74-150 | Which of the four errors ends the script - a misaligned fixed section, no fixed section, two fill sections with equal keys, no space; otherwise fixed sections are at the addresses in their names, planned sections at the planned ones, all others are left alone, and the slack is the free room not used. |
| FixedSections.FittedSectionsApart | ref/seabios/scripts/layoutrom.py:74-137 | With fixed sections that do not overlap, no two stored sections overlap. |
| FixedSections.FittedInside | ref/seabios/scripts/layoutrom.py:74-150 | All of them lie between the lowest fixed section and the end of the segment. |
| FixedSections.EachPickIsLargest | ref/seabios/scripts/layoutrom.py:105-137 | Each entry of the whole plan lies in one gap and is, among the sections not placed before it that would fit there, the last by size, alignment and name. |
| FixedSections.UnplacedFitsNowhere | ref/seabios/scripts/layoutrom.py:110-137 | A section that is left over fits in what remains of no gap. |
| FillOrder.SmallestGapFirst | ref/seabios/scripts/layoutrom.py:90-110 | Entries of the plan come gap by gap: from two fixed sections, the one with less space to the next comes first, and of equal ones the lower. |
| FillOrder.LargestFirst | ref/seabios/scripts/layoutrom.py:105-137 | Each entry is, among the sections not placed before it that have an aligned place before the next fixed section, the last by size, then alignment, then name compared character by character. |
| FillOrder.NoPlaceLeft | ref/seabios/scripts/layoutrom.py:116-136 | For a section left over there is no aligned address behind the last section of any gap from which it ends before the next fixed one. |
| FixedSections.SlackNonNegative | ref/seabios/scripts/layoutrom.py:143-148 | With fixed sections that do not overlap, the reported slack is not negative. |
| FillOrder.SlackIs | ref/seabios/scripts/layoutrom.py:109-144 | The bytes counted as used are the sizes of the fixed sections and of the sections placed. |
| FillAlignment.AlignedIffNoPadding | ref/seabios/scripts/layoutrom.py:122-136 | The sections filled in are all aligned if and only if in every gap the free rest starts right behind the bytes placed. |
| FillAlignment.AlignedOnGrid | ref/seabios/scripts/layoutrom.py:110-136 | They are when all sizes and all ends of fixed sections are multiples of the largest alignment. |
| FillAlignment.BlocksAligned | ref/seabios/scripts/layoutrom.py:110-136 | The condition on the ends is needed: enough blocks of 2^k bytes with that alignment are all stored aligned if and only if every gap with room for one starts at a multiple of 2^k. |
| FillAlignment.StoredOffAlignment | ref/seabios/scripts/layoutrom.py:134-135 | Behind a fixed section that ends at 0xe05e, a section aligned to 16 bytes is stored at 0xe05e. |
| Layout.DoLayout | ref/seabios/scripts/layoutrom.py:178-281 | Either the error of `fitSections`, or every group is stored where the stacking of the groups puts it, the fixed and filled sections stay where they were put, and no other section has an address. |
| Layout.GroupsFrom | ref/seabios/scripts/layoutrom.py:183-232 | Each group holds sections of its own category, each once, and none that was filled in. |
| LayoutOrder.StoredIffNamed | ref/seabios/scripts/layoutrom.py:183-276 | A section has an address if and only if it is fixed with an address, or its name starts with one of the prefixes of its category - `.text.`, `.rodata`, `.data16.`, `.data32seg.`, `.data.`, `.bss.` as the category has them - or its category is laid out whatever the names. |
| LayoutOrder.OfferedIff | ref/seabios/scripts/layoutrom.py:183-190 | Offered to the gaps are exactly the 16-bit sections by the name of text, and fixed are those of the fixed category. |
| LayoutOrder.StoredInOrder | ref/seabios/scripts/layoutrom.py:184-237 | In a category text lies below read-only data, that below data, that below zeroed data, and equals in the order of the list. |
| LayoutOrder.GroupsDescend | ref/seabios/scripts/layoutrom.py:190-279 | Code lies above 32-bit segment code, that above f-segment code, f-segment data, flat, init and low sections, and code that is not filled in below every fixed section. |
| LayoutOrder.SegmentAddresses | ref/seabios/scripts/layoutrom.py:80-281 | Segment offsets count from 0xf0000 for fixed sections, 16-bit code, 32-bit segment code and f-segment data, from 0 for the others, and for low sections from the relocated zone. |
| LayoutOrder.GroupStarts | ref/seabios/scripts/layoutrom.py:190-278 | Every group starts at the highest multiple of its alignment, of 16 bytes at least from the f-segment code down, from which it ends by the start of the one above. |
| LayoutOrder.ZoneStarts | ref/seabios/scripts/layoutrom.py:239-263 | Which of the two layouts of flat and init sections is taken, and where the zone lies in each. |
| LayoutOrder.LowNumbers | ref/seabios/scripts/layoutrom.py:258-281 | The start of read-only memory, the end of low memory, the base of its zone - 0x90000, or the next 2 kB above 64 kB below the read-only memory but not below 0xc0000 - and the distance. |
| LayoutSafety.FitsIffBelow | ref/seabios/scripts/layoutrom.py:190-279 | The groups fit, by sizes and alignments, if and only if each of the seven ends at or below the limit it is given. |
| LayoutExamples.TooLargeOverlaps | ref/seabios/scripts/layoutrom.py:52-55 | Two sections: data of the f-segment, twelve bytes larger than the room below a fixed section, is stored from address 0 on over that section, without an error. |
| LayoutSafety.SectionsDisjoint | ref/seabios/scripts/layoutrom.py:178-279 | If fixed sections and groups fit, any two sections that are assigned addresses occupy disjoint ranges, whatever their categories, also when flat and init are laid out a second time. |
| LayoutSafety.ZoneReserved | ref/seabios/scripts/layoutrom.py:239-263 | The f-segment zone has the reserved size and meets no section that stays in place. |
| LayoutSafety.StoredDisjoint | ref/seabios/scripts/layoutrom.py:178-281 | The same on the stored addresses: after `doLayout` any two sections with a `finalloc` occupy disjoint ranges. |
| LayoutSafety.StoredOutsideZone | ref/seabios/scripts/layoutrom.py:239-263 | The zone meets no stored section except low ones, and init ones when they are relocated. |
| LayoutSafety.ZoneRoom | ref/seabios/scripts/layoutrom.py:239-254 | The zone has any given size above 2048 bytes if and only if the flat sections, and the init sections unless relocated, leave that much room above 0xf0000. |
| LayoutExamples.SmallZone | ref/seabios/scripts/layoutrom.py:239-254 | The same three sections leave a zone of exactly 2048 bytes, below which flat and init are laid out again. |
| LayoutExamples.LargeDataFits | ref/seabios/scripts/layoutrom.py:178-279 | All groups of these sections fit, so the premises of the disjointness rows can be met when the second layout happens. |
| LayoutSafety.LowRelocation | ref/seabios/scripts/layoutrom.py:265-281 | The segment offset of a low section is its relocated address less the base of the low zone, and relocated it ends below the end of low memory. |
| LayoutSafety.LowAlignment | ref/seabios/scripts/layoutrom.py:272-281 | Without upper memory, relocation keeps the alignment of a low section, up to 2^17, if and only if the init sections start at a multiple of it; they do for every alignment they have. |
| LayoutSafety.LowAlignmentUpper | ref/seabios/scripts/layoutrom.py:268-281 | With upper memory, if and only if the distance from the init sections to the read-only memory has it; it does for alignments up to 2^16 that both flat and init sections have. |
| LayoutExamples.LowAlignmentLost | ref/seabios/scripts/layoutrom.py:272-281 | Three sections: the low one is stored at a multiple of 32 and relocated to an address that is not. |
| Reachability.CheckKeep | ref/seabios/scripts/layoutrom.py:491-523 | Accepts a relocation and redirects its symbol to exactly what its name stands for, first in its own file and then in the others; otherwise nothing changes. |
| KeepRules.KeptAs | ref/seabios/scripts/layoutrom.py:491-523 | A relocation is kept as what its name means in its own file, else in the 16-bit file, else in the 32-bit segment file, else in the flat file, else not: a plain name means any symbol in a section that is not discarded, but across files no C function; `_cfunc`, file, `_` and `x` mean the C function `x` of that file. |
| KeepRules.StepMeans | ref/seabios/scripts/layoutrom.py:464-488 | Which relocations are followed in the two passes, and which end the second with an error, by the names of the sections. |
| KeepRules.CategoryMeans | ref/seabios/scripts/layoutrom.py:679-691 | The category of a section by the prefix of its name, and otherwise by its file and whether it is needed at run time. |
| Reachability.FindReachable | ref/seabios/scripts/layoutrom.py:464-477 | Ends, with a closed map of chains or with an error that is real; redirecting symbols on the way does not change the graph. |
| Reachability.FoundIffReachable | ref/seabios/scripts/layoutrom.py:464-477 | A section is in the result if and only if accepted relocations lead to it from an anchor, in whatever order the list is worked off. |
| KeepRules.TrailNames | ref/seabios/scripts/layoutrom.py:468-475 | A stored chain has the names of the sections the walk from the anchor comes through, in order. |
| Reachability.FoundIsLeast | ref/seabios/scripts/layoutrom.py:464-477 | The result is the least set with the anchors that is closed under accepted relocations. |
| Reachability.ExitsIffReachableFails | ref/seabios/scripts/layoutrom.py:480-488 | An error names a reachable section with an offending relocation; without an error no reachable section has one. |
| Reachability.RuntimeAvoidsInit | ref/seabios/scripts/layoutrom.py:673-691 | Code kept at run time refers to init sections only by names that say `.init.`, and to none marked `.data.varinit.`. |
| Leal.HandleLeal | ref/seabios/scripts/vgafixup.py:29-71 | An index of `%esp` is refused, a destination of `%esp` becomes `leaw`, operands with neither base nor index a line without a source, everything else the sequence that `EmittedMeansLeal` is about. |
| Leal.EmittedMeansLeal | ref/seabios/scripts/vgafixup.py:39-71 | In every state, whatever arithmetic leaves in FLAGS, the emitted instructions load the address `leal` loads, and change no other register, no flag and no byte but the six below the stack pointer. |
| CallRet.Rewrite | ref/seabios/scripts/vgafixup.py:73-94 | Every line is replaced by its counterpart; the loop gives up if and only if some `leal` cannot be replaced. |
| CallRet.Simulates | ref/seabios/scripts/vgafixup.py:77-89 | As long as calls nest, nothing reads or writes return slots or scratch bytes and `leal` into `%esp` stays in its 64 kB, the new run is at the same line with the same registers, flags and reliable bytes, at any call depth and for any placement of either code below 2^16. |
| CallRet.OriginalRuns | ref/seabios/scripts/vgafixup.py:77-89 | The run `Simulates` compares with takes exactly the steps of the original program; the slots it carries along do not influence it. |
| Fat12.SetFat12Entry | tools/make_fat12_floppy.py:120-132 | The array becomes what `EntryAfter` describes, in bounds for every entry that starts before the last byte. |
| Fat12.EntryBytes | tools/make_fat12_floppy.py:120-132 | An odd entry is the high half of its first byte below the whole next one, an even entry its whole first byte below the low half of the next. |
| Fat12.EntryAfter | tools/make_fat12_floppy.py:120-132 | The entry reads back, every other one is unchanged, also the one that shares a byte, for both parities. |
| Fat12.TableIsMap | tools/make_fat12_floppy.py:120-132 | After any sequence of writes each entry holds the last value written to it. |
| FloppyBuilder.BuildBootSector | tools/make_fat12_floppy.py:50-99 | All 512 bytes of the boot sector, with the boot program and its message as parameters. |
| FloppyBytes.BootBytes | tools/make_fat12_floppy.py:50-99 | The bytes of the boot sector as numbers, offset by offset. |
| FloppyBuilder.BootGeometry | tools/make_fat12_floppy.py:58-67 | A reader finds the geometry of the floppy in it. |
| FloppyBuilder.Build | tools/make_fat12_floppy.py:147-221 | The exit code is that of the first file that does not fit; with code 0 the image has two equal FATs, the root directory and the data, none written over another. |
| FloppyBytes.StartsAre | tools/make_fat12_floppy.py:174-211 | Clusters are counted from 2, and each file takes the least number of 512-byte clusters, at least one. |
| FloppyBytes.ExitCodes | tools/make_fat12_floppy.py:179-184 | 2 if and only if some file does not fit in the 2847 clusters, 3 if and only if not that but there are more than 223 files. |
| FloppyBytes.ImageRegions | tools/make_fat12_floppy.py:150-217 | 1474560 bytes, the boot sector, and two equal FATs from 512 and 5120 that begin F0 FF FF. |
| FloppyBytes.ImageDirectory | tools/make_fat12_floppy.py:162-221 | The 224 entries of 32 bytes from 9728 on are the label, the files in order and free entries, each field at its offset. |
| FloppyBytes.ImageContents | tools/make_fat12_floppy.py:191-195 | The contents of each file stand in its clusters, from 16896 on. |
| FloppyRoundTrip.RoundTrip | tools/make_fat12_floppy.py:147-221 | For every list of files the builder accepts, the independent reader returns the list: names, contents and order (names DOS would list). |
| FloppyRoundTrip.ChainsPartition | tools/make_fat12_floppy.py:173-211 | Each file owns one chain of consecutive clusters, every cluster in use belongs to exactly one file, all later ones are free. |
| FloppyRoundTrip.BuildFloppy | tools/make_fat12_floppy.py:135-226 | The whole program: boot sector and image together read back as the files, or it ends with the exit code. |
| Interrupts.FlagsRoundTrip | src/AprX86.Cli/Cpu/X86State.cs:99-125 | Packing and unpacking FLAGS loses no flag. |
| Interrupts.ReservedBits | src/AprX86.Cli/Cpu/X86State.cs:99-112 | Bits 15 to 12 and bit 1 of FLAGS are set, bits 5 and 3 are not. |
| Interrupts.Bus.DeliverInterrupt | src/AprPc.Cli/PcSystemRunner.cs:552-595 | FLAGS, CS and IP are pushed in this order, IF and TF are clear, CS:IP is the vector, and its count goes up by one. |
| StackFrames.FrameOnStack | src/AprPc.Cli/PcSystemRunner.cs:556-563 | FLAGS stand two bytes below the old stack pointer, CS four, IP six, low byte first, offsets modulo 2^16 and addresses modulo 2^20. |
| StackFrames.FrameIs | src/AprPc.Cli/PcSystemRunner.cs:556-563 | No other byte of memory changes. |
| StackFrames.HandlerStarts | src/AprPc.Cli/PcSystemRunner.cs:565-574 | The handler starts at the offset and the segment its four vector bytes hold, in this order, with IF and TF clear and everything else as before. |
| StackFrames.IretPops | src/AprX86.Cli/Cpu/X86LegacyCpu.cs:623-629 | IRET takes IP, CS and FLAGS from the bytes at the stack pointer upwards. |
| Nesting.Lifo | src/AprPc.Cli/PcSystemRunner.cs:552-595 | In every run with nested handlers that leave live frames alone, the return that undoes an interrupt resumes exactly what it interrupted; every handler starts with IF and TF clear. |
| Nesting.ReturnResumes | src/AprX86.Cli/Cpu/X86LegacyCpu.cs:623-629 | IRET in front of an intact frame restores CS:IP, FLAGS and SP of the interrupted processor. |
| Nesting.DeliverAndReturn | src/AprPc.Cli/PcSystemRunner.cs:552-595 | n deliveries and n returns restore CS:IP, FLAGS and SP, with SP modulo 2^16, whenever n frames fit in the segment. |
| EmulatorLoop.Pic8259.DequeueNextVector | src/AprPc.Cli/Hardware/Pic8259.cs:85-110 | The vector of the line `LowestIs` describes, whose pending bit alone is cleared; nothing changes when no line is ready. |
| EmulatorLoop.LowestIs | src/AprPc.Cli/Hardware/Pic8259.cs:92-101 | It is the lowest line that is pending and not masked, and there is one whenever any line is. |
| EmulatorLoop.Emulator.Iteration | src/AprPc.Cli/PcSystemRunner.cs:400-534 | One pass through the body of the loop changes processor, memory, controller and counter as the step of the state machine does. |
| EmulatorLoop.PassDoes | src/AprPc.Cli/PcSystemRunner.cs:400-534 | If IF is set and a line is ready, the lowest is delivered as interrupt 8 plus its number; otherwise a halted processor waits, and so does one blocked in a trap; otherwise a trap is dispatched or an instruction executed, and counted. |
| EmulatorLoop.EventsDo | src/AprPc.Cli/Hardware/Pic8259.cs:43-78 | Raising a line makes it pending unless it is masked, masking changes its bit, and neither changes anything else. |
| EmulatorLoop.Emulator.RaiseLine | src/AprPc.Cli/Hardware/Pic8259.cs:60-78 | A device that raises a line is the `Assert` event of the state machine: masked lines are ignored, pending ones stay pending. |
| EmulatorLoop.Emulator.MaskLine | src/AprPc.Cli/Hardware/Pic8259.cs:43-51 | A port that masks a line is its `Mask` event: one bit of the mask changes and nothing else. |
| EmulatorLoop.DeliveredProperly | src/AprPc.Cli/PcSystemRunner.cs:400-442 | In any state a vector is delivered only with IF set, from the lowest ready line, whose pending bit it takes; a halted processor resumes only by a delivery and does nothing else meanwhile. |
| EmulatorLoop.EveryRun | src/AprPc.Cli/PcSystemRunner.cs:400-534 | In every run the counter is deliveries plus dispatches plus steps, every edge that made a line pending was delivered exactly once or is still pending, and deliveries are separated. |
| EmulatorLoop.Between | src/AprPc.Cli/PcSystemRunner.cs:436-458 | Between any two deliveries of a separated run lies a step or a dispatch. |
| Lifecycle.EveryRun | src/AprPc.Cli/PcSystemRunner.cs:308-357 | In every interleaving, between any two accesses: outside the operations Running means the event is set and nothing is cancelled, Paused that it is reset, Stopped that the token is cancelled; cancelled implies that the event is set; iterations begun exceed those done by the running one; each operation is in front of an access only in the states it can have reached. |
| Lifecycle.OperationDoes | src/AprPc.Cli/PcSystemRunner.cs:268-338 | Whatever the emulator thread does meanwhile, every operation returns in at most five accesses. Then Pause has led from Running to Paused with the event reset, Resume from Paused to Running with the event set, Stop from Running or Paused to Stopped, cancelled, Start from Idle to Paused with the thread started; from other states they change nothing. |
| Lifecycle.RunningRun | src/AprPc.Cli/PcSystemRunner.cs:317-357 | From the moment Resume has returned until Pause or Stop is called, every fifth access of the emulator thread ends an iteration; it neither waits nor exits. |
| Lifecycle.PausedRun | src/AprPc.Cli/PcSystemRunner.cs:308-315 | After Pause has returned, until Resume or Stop is called, at most the iteration in flight begins and ends, and after four accesses the thread is parked. |
| Lifecycle.StoppingRun | src/AprPc.Cli/PcSystemRunner.cs:328-357 | Once Stop has set the state, at most one more iteration begins, and only if the thread was at the wait or just behind it. |
| Lifecycle.StopBeginsIff | src/AprPc.Cli/PcSystemRunner.cs:331-357 | Then another iteration can begin if and only if the token is not cancelled and the thread is at the wait or just behind it. |
| Lifecycle.CancelledRun | src/AprPc.Cli/PcSystemRunner.cs:333-357 | After the cancellation no iteration begins and at most the running one ends, also when the join timed out and the state is Stopped. |
| Lifecycle.StopTerminates | src/AprPc.Cli/PcSystemRunner.cs:328-357 | Three accesses of the emulator thread after the cancellation, it has exited. |
| Lifecycle.StopMayRunOneMore | src/AprPc.Cli/PcSystemRunner.cs:331-333 | A run in which a parked thread begins an iteration that nobody resumed. |
| CallChains.ResultIsMaximum | ref/seabios/scripts/checkstack.py:54-86 | On an acyclic graph the result is the maximum stack and yield use over all call chains, with ignored callees left out and chains ending at hops; yields are -1 if and only if no chain yields. |
| CallTotals.SpecialFunctions | ref/seabios/scripts/checkstack.py:18-22 | Left out is `panic`, and stacks change at `stack_hop` and `stack_hop_back`, with any suffix behind a dot and no other name. |
| CallTotals.UseAddsUp | ref/seabios/scripts/checkstack.py:70-82 | The stack a chain uses is the sum of the uses at its calls up to the first hop; without a hop, that of all its calls and the own use of its last function. |
| CallTotals.YieldAddsUp | ref/seabios/scripts/checkstack.py:70-86 | The same for a chain that ends where a function yields, with its use there. |
| CallTotals.TotalIsChains | ref/seabios/scripts/checkstack.py:59-69 | On an acyclic graph the total of a function is the number of chains of one or more calls of which each is the first of its name in its function. |
| StackUse.Notes.NoteCall | ref/seabios/scripts/checkstack.py:46-51 | The list holds each pair of callee and depth once, calls are only added, and none is forgotten. |
| StackUse.Analysis.CalcMaxStack | ref/seabios/scripts/checkstack.py:54-86 | Ends on every graph, cyclic or not; keeps all memos honest and changes none; what it adds is final. |
| StackUse.Analysis.CalcAll | ref/seabios/scripts/checkstack.py:198-200 | In whatever order the functions are taken, every memo is honest, and on an acyclic graph the maximum over all call chains. |
| FunctionOrder.Orderer.OrderFuncs | ref/seabios/scripts/checkstack.py:90-105 | The list and the functions still available are those of the recursive order the next rows are about. |
| FunctionOrder.QueueDescends | ref/seabios/scripts/checkstack.py:91-95 | The work list descends by calls, name and address. |
| FunctionOrder.QueueInOrder | ref/seabios/scripts/checkstack.py:91-95 | The same by the totals, the characters of the names and the addresses themselves. |
| FunctionOrder.FirstBlock | ref/seabios/scripts/checkstack.py:97-105 | The list begins with functions the first of the work list calls, directly or not, and then that function. |
| FunctionOrder.EveryFunctionOnce | ref/seabios/scripts/checkstack.py:90-105 | Asked for all addresses, it lists every function exactly once and leaves none. |
| FunctionOrder.CalleesBeforeCallers | ref/seabios/scripts/checkstack.py:97-105 | Without cycles every known callee stands before each of its callers. |
| Geometry.Drive.SetupTranslation | ref/seabios/src/block.c:110-191 | The loop, the switch and the clip leave the translation and the geometry the following rows are about. |
| Geometry.TranslationRules | ref/seabios/src/block.c:72-107 | The translation is 4 for at most 255 logical heads and 1 to 63 sectors; in QEMU, for ATA drives, the pair of bits of the drive in the NVRAM byte of its group of four; otherwise that of the heuristic. |
| Geometry.HeuristicRules | ref/seabios/src/block.c:93-107 | When the heuristic says 0, 1 and 2, by the numbers of the physical geometry. |
| Geometry.LbaRules | ref/seabios/src/block.c:127-148 | Translation 1 has 63 sectors, the least of 16, 32, 64, 128 and 255 heads that will do, and at most 1024 cylinders. |
| Geometry.LargeRules | ref/seabios/src/block.c:162-169 | Cylinders are halved and heads doubled in 16 bits as often as it takes to reach 1024 cylinders or pass 127 heads, and no more often. |
| Geometry.OtherRules | ref/seabios/src/block.c:122-180 | Translation 3 is 2 with 15 heads in place of 16 and 16/15 of the cylinders; 0 and 4 keep the physical and the host's geometry, up to 1024 cylinders. |
| Geometry.CylindersFit | ref/seabios/src/block.c:178-180 | Any drive has at most 1024 logical cylinders. |
| Geometry.HeuristicGeometry | ref/seabios/src/block.c:93-191 | A heuristically translated drive has at most 255 heads unless it is LARGE with more physical ones, exactly then not, and never a larger capacity than its sectors. |
| Geometry.LargeKeepsHeads | ref/seabios/src/block.c:159-170 | A drive that keeps 300 heads. |
| Geometry.NothingGained | ref/seabios/src/block.c:122-191 | No translation of the physical geometry addresses more sectors than it has. |
| Geometry.LbaLoses | ref/seabios/src/block.c:127-148 | Up to 63*255*1024 sectors, LBA addresses no more than there are and loses fewer than 63*1024. |
| Geometry.LargeNeedsNoClip | ref/seabios/src/block.c:159-170 | The loop of a heuristically LARGE drive reaches 1024 cylinders without the final clip. |
| Geometry.LbaIsClipped | ref/seabios/src/block.c:130-148 | Up to the limit of 255 heads, LBA computes more than 1024 cylinders, and loses sectors to the clip, if and only if the tracks are in one of four ranges just below a change of the head count. |
| Geometry.SetupAgain | ref/seabios/src/block.c:79-191 | Setting a drive up again, with the same NVRAM, leaves its geometry alone; the translation becomes the host's exactly when the geometry could have come from the host. |
| ArmImmediates.FindImm12 | tools/gba_handasm.py:50-60 | The nested search returns the encoding with the smallest rotation that rotating back yields. |
| ArmImmediates.Imm12Correct | tools/gba_handasm.py:50-60 | For every integer: what is found decodes to the value modulo 2^32 and has the smallest rotation of all encodings; nothing is found only when none of the 4096 encodings decodes to it. |
| ArmImmediates.TurnedIsRor | tools/gba_handasm.py:54-57 | Turning one bit at a time, as the manual rotates, is the rotation by shifts and masks. |
| ArmCode.MovDecodes | tools/gba_handasm.py:83-85 | Refused if and only if the value cannot be encoded; otherwise the decoder reads MOV with these operands. |
| ArmCode.OrrDecodes | tools/gba_handasm.py:88-90 | The same for ORR. |
| ArmCode.SubsDecodes | tools/gba_handasm.py:118-120 | The same for SUBS. |
| ArmCode.LslDecodes | tools/gba_handasm.py:93-101 | Refused if and only if the shift is not below 32; otherwise ORR of a register shifted left. |
| ArmCode.StrhDecodes | tools/gba_handasm.py:104-107 | A halfword store without offset or write-back. |
| ArmCode.StrDecodes | tools/gba_handasm.py:110-115 | Refused if and only if the increment has no 12 bits; otherwise a post-indexed word store. |
| ArmCode.BranchDecodes | tools/gba_handasm.py:123-129 | Refused if and only if out of range; otherwise the branch goes to the target rounded down to whole words from the branch, so to the target if and only if the distance is a number of words. |
| ArmCode.BackIsBranch | tools/gba_handasm.py:132-145 | Going back is the branch it stands for if and only if that branch is in range; the halt is always a branch to itself. |
| ArmCode.BackWraps | tools/gba_handasm.py:132-140 | Out of range, it goes somewhere else. |
| Cart.Cart.Build | tools/gba_handasm.py:179-194 | All bytes of the image: header, code, and room up to 256 bytes. |
| Cart.ImageBytes | tools/gba_handasm.py:179-194 | The size, the entry branch 2E 00 00 EA, the texts at 0xA0, 0xAC and 0xB0, 0x96 at 0xB2, and zeros wherever no instruction stands. |
| Cart.ImageHolds | tools/gba_handasm.py:191-194 | Instruction i reads back, little-endian, at 0xC0 + 4 i. |
| Cart.ImageStarts | tools/gba_handasm.py:184-185 | The first word decodes to a branch to 0xC0. |
| RedDemo.RedDemo | tools/gba_handasm.py:221-235 | No constant of the listing is refused; the cart holds its twelve words. |
| RedWords.ListedWords | tools/gba_handasm.py:221-235 | The twelve words of the cart as numbers. |
| RedDemo.PatchedCartIsLoaded | tools/gba_handasm.py:221-235 | The image of the listing, patched and inserted, is ready to run. |
| RedDemo.PaintsRedAndHalts | tools/gba_handasm.py:201-235 | From its entry point the cart sets display mode 3, paints all 240 by 160 pixels red, changes no other byte of memory, and halts. |
| RedWords.PaintsTheScreen | tools/gba_handasm.py:201-235 | The same in numbers: every pixel in 240 columns and 160 rows at 0x06000000 is 0x001F, display control is 0x0403, and the machine stops at 0x080000EC. |
| RomPatcher.EnsureValidLogoAndChecksum | src/AprGba.Cli/RomPatcher.cs:31-62 | The cart becomes what the next rows describe, and the answer is true if and only if a byte changed. |
| RomPatcher.CopiesFirstMatch | src/AprGba.Cli/RomPatcher.cs:70-91 | If the BIOS has the prefix anywhere with room behind it, the logo at the first such place is copied. |
| RomPatcher.LeftAlone | src/AprGba.Cli/RomPatcher.cs:33-37 | A cart under 192 bytes, or a BIOS without the six bytes of the logo and room behind them, changes nothing. |
| RomPatcher.PatchedHeader | src/AprGba.Cli/RomPatcher.cs:41-59 | The header sums to zero modulo 256, the logo is the given one, and no other byte changes. |
| RomPatcher.PatchedTwice | src/AprGba.Cli/RomPatcher.cs:31-62 | Patching again changes nothing. |
| RomPatcher.PatchedCart | src/AprGba.Cli/RomPatcher.cs:41-59 | A patched cart image keeps its entry branch, its texts and its instructions. |

## Left out

- Sections.SetSectionsStart: alignments are powers of two, as the object files state them, and true
  division is exact; floating-point quotients beyond 2^53 are not modelled.
- FixedSections.FitSections: the number in a section name is a field, not parsed from hexadecimal;
  after an error the addresses stored so far are not described. That a sort compares neighbours with
  equal keys is taken as given.
- Layout.DoLayout: the printed statistics, and the ends and sizes computed only for them.
- LayoutSafety.StoredDisjoint: holds for groups that fit. That is sufficient, not necessary: a group
  that ends above its limit overlaps nothing if nothing is stored right behind the limit, for
  instance an f-segment section of 0xfe051 bytes below a fixed section at 0xfe05b.
- LayoutSafety.LowRelocation: says nothing about the lower end of the relocated section.
- Reachability.RuntimeAvoidsInit: parsing of the object dumps, linker scripts and cross references
  is not part of this model.
- Leal.HandleLeal: the regular expression is not modelled; operands arrive parsed. Register names
  other than the eight 32-bit ones are left out.
- CallRet.Simulates: calls and jumps go to known lines; calls through pointers, code addresses in
  data, and programs that read bytes below the stack pointer, return slots or their own code are
  outside the premises. Text after `call` that is not a label is left out.
- FloppyRoundTrip.BuildFloppy: directory walking, printing, and the mangling of names to 8.3 are
  left out; a name is eleven bytes of which the first is neither 0 nor 0xE5. Boot program, message
  and time stamp are parameters.
- Interrupts.Bus.DeliverInterrupt: the keyboard trace, the once-a-second reset of the counts and the
  test for a missing bus are left out; the counts are unbounded. Writes reach plain memory.
- EmulatorLoop.Emulator.Iteration: a CPU step and a BIOS dispatch are outside this model and appear
  by their results; a step may set the halted flag. Tracing, the INT 10h workaround, sleeping and a
  runner without processor, BIOS or controller are left out. Lines raised during an iteration count
  as raised before or after it. The counter is unbounded.
- Lifecycle.EveryRun: one controlling thread; two threads calling Pause and Stop at once, Dispose,
  and reorderings by the memory model are left out. An access is one read or write of a shared
  field, the event or the token.
- StackUse.Analysis.CalcAll: on graphs with cycles only honesty is stated, because there the result
  depends on the order; the listing's regular expressions are left out.
- FunctionOrder.CalleesBeforeCallers: nothing is stated about order on graphs with cycles.
- Geometry.Drive.SetupTranslation: cylinders times heads is an `int` in C; geometries whose product
  overflows it have no defined result and are outside the premise.
- ArmCode.MovDecodes: register numbers and conditions are four bits wide, as the callers pass them.
- ArmMachine: only the instructions the assembler emits and the conditions EQ, NE and AL; the
  program counter is no operand, and memory is flat, without the mirrors and wait states of the GBA.
- Other parts of the repository - the JSON-driven CPU framework, the NES and Game Boy front ends, the
  BIOS drivers and the remaining scripts - are not part of this model.
