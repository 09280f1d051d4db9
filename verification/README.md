# Proofs beside the Vector-06C emulator

A Dafny model of the emulator's self-contained machines, with proofs of what they are for. Every
machine that the source changes in place is here a class or a method over arrays and fields, proved
against functions on values; the theorems are about those functions, over all inputs and all runs.

| files | what they model |
|---|---|
| CpmNames, CpmDirectory, CpmFiles, CpmHistory, CpmReading, CpmReturned, CpmOnDisk, CpmImage, CpmTwins | the MicroDOS disk image: names, allocator, directory, reader, and whole histories of saves |
| MemoryMap | banked memory behind its rotated storage order |
| Raster, RasterFrame, PixelFiller, DispatchedFrame, PermutedPixels | the beam loop, the picture it draws, and its fast forms |
| Interrupts, FrameClock, Board | the interrupt latches, the frame loop and its accounting |
| Cpu8080 | the arithmetic of the processor by its tables, its flag byte and its stack |
| Resampling, Resampler | the polyphase resampler |
| BasicWords, BasicMatcher, BasicSpans, BasicFlush, BasicTokenizer, BasicLosses, BasicFile | the BASIC converter, there and back |
| Floppy, FloppyController | the floppy controller and its drives |
| Timer | one counter of the interval timer |
| Ay, AyRuns, AyGenerator | the sound generator, over any steps, and its integer fast path |

`dafny verify dfyconfig.toml` checks the whole project.

## Where the code does not do what it is for

Each of these is a theorem: the exact condition, or the case that fails, is proved.

- A file whose last extent is full (16384 bytes, or any multiple) reads back as nothing, because
  `load_dirent` sets the size only at an extent that is not full (`CpmReading.SavedFilesReadBack`,
  `CpmReading.FullExtentIsLost`).
- `build_available_chain` counts the two reserved clusters as available and subtracts unsigned. A
  request can pass its check and get a chain that is too short (`CpmHistory.OverrunOnEmptyDisk`,
  `CpmDirectory.ChainLongEnough`); saves are specified for chains that are long enough.
- A file name without an extension makes `substr` throw after the check for space.
- The directory keeps of a name what is left without the blanks its stem and extension end in, but the
  set of taken names keeps the blanks. Saved names that differ in them only all read the first of their
  files whose end is found, behind what is found of those before it (`CpmReading.ReadByKey`,
  `CpmReading.FirstOfTwinsIsRead`, `CpmTwins.SaveTwins`); a name that shares its trimmed form with no
  other reads as its own (`CpmReading.SavedFilesReadBack`).
- A load from 64K on clears by storage order, not by address (`MemoryMap.DiskIsClearedByStorage`), and a
  load that reaches address 0x80000 goes on in main memory (`MemoryMap.LoadedCell`).
- `fill4` draws one border colour; in the 512-pixel mode `fill1` draws two (`PixelFiller.BorderColorsAgree`).
  On unseen lines the fast side leaves the latch alone, where `fill1` clears or advances the column
  (`PixelFiller.FastAgreesExactly`); a frame shows only the first (`DispatchedFrame.DispatchedFrameIsDrawn`).
- A palette byte written to port 0x0D, 0x0E or 0x0F reaches no colour before the next OUT, and then the
  one that the beam looks up there; on 0x0C it does at once (`FrameClock.PaletteOutTakesEffect`,
  `FrameClock.HandedByteArrives`).
- An interrupt acknowledged before the first instruction of a frame is counted in that frame without
  moving the raster: such a frame counts 59920 states (`FrameClock.FrameAccounts`).
- A BASIC line whose text starts with LIST comes back with LLIST, unless a keyword longer than five
  letters stands right behind it (`BasicSpans.ComesBackExactly`). An empty line ends the file and
  everything before it is taken twice; an empty program reads back as one line; a line of digits and
  spaces only has its last character for a text (`BasicFile.ThereAndBack`).
- After 1024 bytes a write-sector command keeps BUSY and DRQ up until one byte more is written
  (`Floppy.SectorIsWritten`); a read command given then hands out the byte written last before the
  sector, so a program that reads 1024 bytes back misses the last (`Floppy.VerifyReadIsShifted`).
  LINGER_BEFORE is never initialized; a value above 2 keeps a program that only polls the status from
  ever seeing a byte (`Floppy.FirstByteComes`).
- A timer load value of 0 turns the square wave upside down and keeps mode 0 from ever firing, and in
  mode 3 a load value of 1 lets the counter run away below zero (`Timer.ZeroLoadIsInverted`,
  `Timer.ZeroLoadNeverFires`, `Timer.UnitLoadRunsAway`), and a count of mode 0 can hand the mixer more
  than its output (`Timer.ReturnsOutput`). A latch cuts a pending delay of two counts or
  more short (`Timer.LatchKeepsTime`).
- In a BASIC line a keyword can stay characters although no encoded one touches it, as IF in IFREAD:
  a longer keyword that starts inside takes over, and another from that (`BasicLosses.LostKeyword`,
  `BasicLosses.LostExactly`).
- A quote that ends the tracking of keywords is taken a second time when the last keyword before it ends
  earlier. The string behind it is then scanned as if it were none, as in PRINTA"FOR"
  (`BasicLosses.QuoteTakenTwice`, `BasicLosses.KeywordInString`).

## How the source is stated here

- Bytes are integers below 256; words, wrap-around and unsigned differences are written out. Masks of
  low bits are remainders, shifts are products and quotients; only the permuted pixel register is a
  bit-vector.
- Colours are numbers: `rgb` stands for the conversion of a palette byte to the pixel format. Of the
  ports the raster sees 0 (its control-word side), 2, 3 and 0x0C to 0x0F.
- The board's filler is a state value run by the functions of Raster; PixelFiller is the same filler in
  place. What a program does in a turn (opcode, condition, OUT data, memory) is an arbitrary input, so
  the frame theorems hold for every program.
- `unsigned` in the ring of the resampler wraps at 32 bits; its arithmetic is over the reals.
- Positions in a BASIC line count from its text. The delete loop of `trackwords` is a kept list, a
  match holds its keyword, and a file is a sequence of lines without their line ends.
- The status register of the floppy controller is a record of the bits in use. A command that addresses
  a sector outside the image throws in the source; here the sector has to lie inside.
- The tone bits of the sound generator are a sequence of three booleans.

## Model

| member | source | states |
|---|---|---|
| `CpmReading.SavedFilesReadBack` | src/fsimage.cpp:103-312 | over every sequence of saves on a formatted image, a returned name whose key (stem and extension without the blanks they end in) no other save so far shares reads back, at any later time, as its content padded with 0x1A to 128-byte records, exactly when all its extents found a slot and the last one is not full, and as nothing otherwise |
| `CpmReading.NamesReadTheirKey` | src/fsimage.cpp:103-312 | at any time every returned name, its key shared or not, reads what the key stands for among all files saved so far |
| `CpmReading.FirstOfTwinsIsRead` | src/fsimage.cpp:103-153 | saves that share a key read as the first of them when that one reads back at all: a later one comes back exactly when its padded content is the same |
| `CpmTwins.SaveTwins` | src/fsimage.cpp:103-312 | a history of two saves in place, under STEM-blank.EXT and then STEM.EXT: both names are returned as they are, and reading the second gives the content of the first |
| `CpmTwins.BlankIsLost` | src/fsimage.cpp:10-25 | the two names differ and their keys do not |
| `CpmHistory.DirectoryStaysSound` | src/fsimage.cpp:207-275 | in every reachable state no cluster is entered twice, every entered cluster is at least 2 and in range, and the allocator indexes its table within bounds |
| `CpmHistory.TablesAreSound` | src/fsimage.cpp:242-275 | the same for any state that keeps the history invariant |
| `CpmHistory.HistoryInv` | src/fsimage.cpp:242-312 | the invariant of a history: each remembered file owns its slots, its clusters and its name, apart from all others |
| `CpmHistory.SaveKeepsInv` | src/fsimage.cpp:278-312 | one save, of whatever name, keeps that invariant and adds one file |
| `CpmHistory.OldFileStays` | src/fsimage.cpp:242-312 | a save leaves the entries and clusters of every earlier file as they were |
| `CpmReading.ReadByKey` | src/fsimage.cpp:103-205 | reading any name, saved or not, from a disk with a history: the bytes of the files of its key, in the order of their saves, up to the first whose end is found, and as many as that one is long |
| `CpmReading.FullExtentIsLost` | src/fsimage.cpp:133-153 | a saved file of 16384 bytes that is alone under its key reads back as nothing at any later time |
| `CpmHistory.OverrunOnEmptyDisk` | src/fsimage.cpp:207-240 | on an empty disk of 860160 bytes a request for 389 clusters passes the check but gets 388 |
| `CpmHistory.StoredClustersDiffer` | src/fsimage.cpp:242-275 | two places of the remembered files never hold the same cluster |
| `CpmDirectory.SectorAddress` | src/fsimage.cpp:82-93 | half-cluster k is the kilobyte at 0xA000 + 1024 k, except that a sector that ends at or beyond the end of the image is not found |
| `CpmDirectory.MakeEntryFields` | src/fsimage.h:11-21 | an entry gives its name, extension, extent, record count and eight table words back |
| `CpmDirectory.ChainIsFree` | src/fsimage.cpp:207-240 | an allocated chain is strictly increasing, in range, clear of the directory and of every used cluster |
| `CpmDirectory.ChainLongEnough` | src/fsimage.cpp:207-240 | when the unsigned check lets a request through, the chain is complete exactly when that many clusters are free; eight clusters an entry plus two always leaves enough |
| `CpmDirectory.UsedClustersMembers` | src/fsimage.cpp:212-226 | a cluster counts as used exactly when a live entry has it in its table |
| `CpmDirectory.FreeListAscends` | src/fsimage.cpp:228-238 | the free clusters come in ascending order |
| `CpmNames.TakenRoundsCount` | src/fsimage.cpp:314-344 | while n numbered names are taken the set of taken names has at least n members, so numbering ends within one round more |
| `CpmNames.CandidatesDiffer` | src/fsimage.cpp:330-340 | two numbered rounds never try the same stem |
| `CpmNames.CandidateFits` | src/fsimage.cpp:330-340 | a numbered stem fits eight characters up to seven digits, and does not end in a blank |
| `CpmNames.KeyIsTrimmed` | src/fsimage.cpp:10-25 | the padded fields keep of a short name its upper-case parts without the blanks they end in, and nothing else |
| `CpmNames.SplitJoined` | src/util.cpp:129-151 | splitting STEM.EXT gives both parts back |
| `CpmNames.BaseNamesAreStorable` | src/fsimage.cpp:314-328 | what numbering starts from comes back from its joined name |
| `CpmReturned.NameOfHostFile` | src/fsimage.cpp:314-344 | a host file s.e is called, when that is free, by the first eight characters of s and the first three of e in capitals; else its name ends in a number behind @ and begins like that one; no small letter is left, and the name was free |
| `CpmReturned.KeysAreTrimmedNames` | src/fsimage.cpp:278-344 | over a history the returned names are all different, and two of them are one to the directory exactly when they differ in the blanks they end in alone |
| `CpmReturned.ReturnedIsShort` | src/fsimage.cpp:314-344 | every returned name has at most eight and three characters and no small letter |
| `CpmReturned.HostPathSplits` | src/util.cpp:129-151 | a path splits behind its last separator and before its last dot |
| `CpmOnDisk.SavedOnDisk` | src/fsimage.cpp:242-312 | over every history, at any later time, every returned file stands on the disk byte by byte: its directory entries and its clusters |
| `CpmOnDisk.ExtentOnDisk` | src/fsimage.h:11-21 | an entry byte by byte: user 0, name and extension with blanks, extent number, record count, and eight cluster words low byte first |
| `CpmOnDisk.ByteOnDisk` | src/fsimage.cpp:290-308 | byte x of a file lies at 0xA000 + 2048 times its cluster + x mod 2048, with 0x1A behind the end |
| `CpmNames.DigitsRoundTrip` | src/fsimage.cpp:330-340 | the decimal digits of a number have its value |
| `CpmImage.FilesystemImage.SaveFile` | src/fsimage.cpp:278-312 | saving in place makes exactly the specified disk: directory entries, clusters, taken names, every other byte as before |
| `CpmImage.FilesystemImage.AllocateExtents` | src/fsimage.cpp:242-275 | the directory loop fills the free slots with the extents in order and changes nothing else |
| `CpmImage.FilesystemImage.BuildAvailableChain` | src/fsimage.cpp:207-240 | the loops over tables and clusters return the specified chain, unsigned wrap-around included |
| `CpmImage.FilesystemImage.UniqueCpmFilename` | src/fsimage.cpp:314-344 | the numbering loop ends and returns the first free name |
| `CpmImage.FilesystemImage.WriteContent` | src/fsimage.cpp:290-308 | the data loop fills the clusters of the chain with the content and 0x1A |
| `CpmImage.FilesystemImage.ReadBytes` | src/fsimage.cpp:164-196 | the copy loops return the bytes of the chain up to the wanted size |
| `CpmImage.FilesystemImage.FindEntries` | src/fsimage.cpp:103-121 | finding by name in place returns the specified chain and size |
| `CpmImage.FilesystemImage.LoadEntries` | src/fsimage.cpp:133-153 | tables pile up over full extents until one that is not full sets the size |
| `CpmImage.FilesystemImage.ReadBack` | src/fsimage.cpp:198-205 | reading a file in place is the specified read |
| `CpmImage.UpdateComplete` | src/fsimage.cpp:242-312 | directory loop and data loop together make the whole new image and touch no other byte |
| `CpmImage.WrittenCluster` | src/fsimage.cpp:290-308 | every written cluster holds its stretch of the padded content |
| `MemoryMap.ToBankPermutes` | src/memory.cpp:56-59 | the storage order is a permutation of the 0x50000 cells that stays within 32K blocks |
| `MemoryMap.ReadAfterWrite` | src/memory.cpp:40-54 | a byte written through one window is seen through another exactly when both select the same paged address outside the boot image; every other view is unchanged |
| `MemoryMap.WindowsByBits` | src/memory.cpp:25-54 | the windows by the eight bits of the control byte: stack page, 0xA000 to 0xDFFF, 0x8000 to 0x9FFF, 0xE000 to 0xFFFF, all else main memory |
| `MemoryMap.LoadedCell` | src/memory.cpp:120-138 | after loading from any start, with the store guarded by phys < sizeof(bytes), every paged address holds the last byte whose address, without the bits above 18, it is; else a zero where the memset cleared its cell; else what it held |
| `MemoryMap.ToBankWraps` | src/memory.cpp:56-59 | addresses 0x80000 apart share a cell, and those from 0x50000 up to 0x7FFFF have none |
| `MemoryMap.MainMemoryIsCleared` | src/memory.cpp:122-126 | for a start in main memory the memset clears main memory and nothing else |
| `MemoryMap.DiskIsClearedByStorage` | src/memory.cpp:127-129 | from 64K on it clears exactly the addresses from start on when start is the first, second or last address of its 32K block, and only then |
| `MemoryMap.LoadThenExport` | src/memory.cpp:200-206 | exporting from the start gives the loaded bytes back exactly when each equals the last one that shares its cell; always for loads of up to 512K |
| `MemoryMap.Memory.Write` | src/memory.cpp:103-118 | a write in place changes the one selected cell |
| `MemoryMap.Memory.Read` | src/memory.cpp:61-101 | a read sees the boot image below its size and the cells elsewhere |
| `MemoryMap.Memory.InitFromVector` | src/memory.cpp:120-138 | the in-place clear and the guarded copy loop make the specified cells, for any length |
| `RasterFrame.FrameIsDrawn` | src/filler.cpp:35-226 | any split of a frame into fills draws exactly the closed-form bitmap, screen_width * screen_height words when shown and none when not, and carries the position past its end over |
| `RasterFrame.PictureWords` | src/filler.cpp:61-114 | both words of picture pixel (x, k) have the colour whose index bits 3 to 0 are bit 7 - x mod 8 of the bytes at 0x8000, 0xA000, 0xC000, 0xE000 + 256 (x / 8) + (scroll - k mod 256) |
| `RasterFrame.PictureHalfPixels` | src/filler.cpp:61-114 | in the 512-pixel mode the first word of picture pixel (x, k) has the colour by the planes at 0xE000 (1) and 0xC000 (2), the second that by those at 0xA000 (4) and 0x8000 (8) |
| `RasterFrame.BorderHalfPixels` | src/filler.cpp:148-207 | the two border words are the border colour, in the 512-pixel mode that of its two low bits before that of its two high ones |
| `RasterFrame.WordJoinsPlanes` | src/memory.cpp:56-59 | a fetched word is the four planes of one address, by the rotated storage order |
| `RasterFrame.FetchedOnce` | src/filler.cpp:61-146 | over a whole frame, however it is cut into fills and whether it is shown or not, the steps fetch every one of the 8192 video addresses exactly once |
| `RasterFrame.FetchedAtItsClock` | src/filler.cpp:103-114 | in a frame a step fetches a given video address exactly at one clock, given by address and scroll |
| `DispatchedFrame.DispatchedFrameIsDrawn` | src/filler.cpp:118-146 | a frame drawn through the dispatcher, fast forms included, ends where the slow loop ends with as many words, and draws the formula's bitmap exactly when no fast form draws a shown border of two colours |
| `DispatchedFrame.FillsAlike` | src/filler.cpp:118-146 | along any run of dispatched fills the state is that of the slow loop but for a latch that does not matter, and the words are the same exactly under that condition |
| `RasterFrame.FetchInFrame` | src/filler.cpp:103-114 | in a frame a word is fetched exactly at the picture columns, and from the address of the formula |
| `RasterFrame.ColorInPicture` | src/filler.cpp:82-114 | the shift register gives the index of the formula at every picture place |
| `RasterFrame.TickInFrame` | src/filler.cpp:148-226 | one step keeps row, column, register and flags in step with the beam |
| `RasterFrame.FillInFrame` | src/filler.cpp:148-207 | n steps inside a frame move the beam by 2 n and keep everything drawn so far equal to the formula |
| `RasterFrame.FillEndsFrame` | src/filler.cpp:148-207 | a fill that passes the end of the frame leaves the whole bitmap and draws nothing more |
| `RasterFrame.ShiftedBits` | src/filler.cpp:82-101 | bit j of the plane register read off after j shifts is bit 7 - j of each plane byte |
| `Raster.RunPosition` | src/filler.cpp:148-226 | where n steps bring the beam, and when they raise brk and irq with which irq_clk, in closed form |
| `Raster.TickPosition` | src/filler.cpp:148-226 | one step moves the beam by two clocks and raises irq and brk at their one place each |
| `Raster.WriteTakesEffect` | src/vio.h:192-306 | at every step of a fill, by the bits of the byte: a waiting write has changed nothing before its commit time and border, mode and scroll from it on |
| `Raster.PaletteWriteTakesEffect` | src/vio.h:263-323 | a palette byte on port 0x0C goes at the palette time to the colour the beam is looking up; on 0x0D to 0x0F it is only handed over at the commit time |
| `Raster.HandedByteTakesEffect` | src/vio.h:308-323 | a byte handed over goes at the next palette time to the colour the beam is looking up |
| `PixelFiller.PictureSteps` | src/filler.cpp:229-403 | in the picture, n slow steps are n lookups and the same words, the beam otherwise still |
| `PixelFiller.BorderColorsAgree` | src/filler.cpp:405-428 | the one-colour border of fill4 is that of fill1 exactly when the 512-pixel mode is off or its two border colours are that one |
| `PixelFiller.InvisibleSteps` | src/filler.cpp:118-146 | while the picture is not shown, slow steps move the beam and the latch, whose column the border clears and whose fetching and shifting go on in the picture, and draw nothing |
| `PixelFiller.ColumnsFetched` | src/filler.cpp:103-114 | from an aligned place n lookups fetch (n + 3) / 8 columns |
| `PixelFiller.FastAgreesExactly` | src/filler.cpp:118-146 | an aligned fast form agrees with the slow loop exactly: unseen, when in the vertical border with column 0; seen, when not in a border of two colours |
| `PixelFiller.CountedClocks` | src/filler.cpp:148-207 | afterbrk counts the clocks past the end of the frame, plus two |
| `PixelFiller.AlignedIsUndisturbed` | src/filler.cpp:118-146 | under the conditions of the dispatcher an aligned fill stays clear of line ends, scroll load and interrupt |
| `PixelFiller.PixelFiller.Fill` | src/filler.cpp:118-146 | the dispatcher in place: the slow loop with its commits, or the fast state, and the clocks past the frame |
| `PixelFiller.PixelFiller.Fill1` | src/filler.cpp:148-207 | the loop in place writes exactly the bitmap words of the specified run and returns the clocks past the frame |
| `PixelFiller.PixelFiller.Fill2` | src/filler.cpp:229-312 | sixteen clocks at a time leave the words, register and column of the slow loop; both words of every pixel have its colour |
| `PixelFiller.PixelFiller.Fill3` | src/filler.cpp:314-403 | the same in the 512-pixel mode, the first word of every pixel with the colour of its two low index bits, the second with that of its two high ones |
| `PixelFiller.WordsOfPixels` | src/filler.cpp:178-192 | the words of any row of colour indices, two for each, in either mode |
| `PixelFiller.PixelFiller.Fill4` | src/filler.cpp:405-428 | the fast border writes one colour and clears the column |
| `PixelFiller.PixelFiller.FillFast` | src/filler.cpp:118-146 | each fast form in place: the slow loop's state, but for the latch of an unseen line, which stays, and the vertical border, which is one colour |
| `PixelFiller.PixelFiller.Step` | src/filler.cpp:148-207 | one turn of the loop is one step of the specification |
| `PixelFiller.PixelFiller.NextLine` | src/filler.cpp:209-226 | line, row with its wrap, border and visibility at the end of a line |
| `PixelFiller.PixelFiller.CommitAt` | src/vio.h:299-324 | a pending port write or palette byte takes effect at its clock only |
| `PermutedPixels.GroupedRefinesPlanes` | src/filler.cpp:52-101 | the permuted register gives the same eight pixels as the plane register |
| `PermutedPixels.PermutedIsShifted` | src/filler.cpp:52-101 | for every fetched word the permuted register gives the same eight pixels as the register of the frame: bit 7 - j of each byte |
| `PermutedPixels.ShiftIsShift` | src/filler.cpp:82-101 | the plain 32-bit shift of the word is the shift of its four bytes |
| `PermutedPixels.NinthPixelDiffers` | src/filler.cpp:52-101 | a ninth pixel would differ |
| `Interrupts.EiBetweenAcks` | src/i8080.cpp:1952-1996 | between two acknowledgements there is an EI whose next instruction is neither EI nor DI, in every run |
| `Interrupts.RunsAreSound` | src/board.cpp:104-124 | in every run a request needs INTE, a pending EI keeps IFF down, and INTE up means enabled or about to be |
| `Interrupts.AcksNeverOutnumberPulses` | src/board.cpp:227-253 | acknowledgements and requests held never outnumber the pulses and the requests held at the start |
| `Interrupts.EveryPulseCounts` | src/board.cpp:104-124 | over every run acknowledgements, requests held and requests lost add up to the pulses and the requests held at the start |
| `Interrupts.NothingLost` | src/board.cpp:227-253 | no request is lost exactly when no pulse finds INTE down or another request held and none is taken away by DI or a reset or forgotten while late |
| `Interrupts.PulseInTime` | src/board.cpp:227-253 | after a turn with a pulse in time the request is up exactly when INTE is up after the instruction |
| `Interrupts.LatePulse` | src/board.cpp:241-253 | a late pulse waits for the next turn without a pulse and is latched exactly when INTE is up after the instruction of that |
| `Interrupts.InstructionSetsInte` | src/board.cpp:104-124 | INTE, IFF and the request after an instruction, by whether it is EI, DI or neither and whether an acknowledgement came first |
| `Interrupts.RequestIsServed` | src/board.cpp:111-124 | a latched request is served at once, or right after the first instruction that is neither EI nor DI, however many EI and frames come before it |
| `FrameClock.FrameAccounts` | src/board.cpp:129-172 | a frame ends within 14976 turns with the full bitmap; it counts 59904 states, 16 more exactly when an interrupt was acknowledged before its first instruction, and raster_pixel is 4 times what is carried over |
| `FrameClock.OnePulseAFrame` | src/board.cpp:129-172 | over any number of frames the latches see one pulse a frame and end as the frames do |
| `FrameClock.AcksNeverOutnumberFrames` | src/board.cpp:104-172 | no program gets more interrupts than frames, plus the requests held at the start |
| `FrameClock.EveryFrameCounts` | src/board.cpp:104-172 | over any number of frames of any program every frame has its interrupt acknowledged, still held, or lost in one of the stated ways |
| `FrameClock.LateByPosition` | src/board.cpp:227-253 | a pulse in time or late by the place of the beam at the start of the turn and the cycles of the instruction |
| `FrameClock.ThresholdIsInside` | src/board.cpp:228-244 | for every opcode the threshold is its cycle count, or, for the long instructions, one or three states before its end |
| `FrameClock.OutTakesEffect` | src/board.cpp:200-208 | an OUT to a port of the picture takes effect sixteen clocks before the end of its turn and not earlier, by the bits of its byte |
| `FrameClock.PaletteOutTakesEffect` | src/board.cpp:200-208 | an OUT to port 0x0C colours what the beam looks up thirty-six clocks before its end; on 0x0D to 0x0F the byte is handed over only |
| `FrameClock.HandedByteArrives` | src/board.cpp:200-208 | a palette byte handed over arrives with the next OUT of any port |
| `FrameClock.NextTurnKeepsTime` | src/board.cpp:180-276 | a turn keeps raster position and counted states in step, raises the request at its place and ends the frame with its books balanced |
| `FrameClock.FirstTurnKeepsTime` | src/board.cpp:191-194 | the first turn counts what was carried over and runs its instruction only |
| `FrameClock.TurnMoves` | src/board.cpp:180-208 | a turn moves the raster by its clocks, raises irq exactly when they pass its place, brk exactly when they pass the end |
| `FrameClock.RunCounts` | src/filler.cpp:148-226 | whatever the program does to ports and memory, the bitmap grows by the formula's count |
| `FrameClock.RunCompletes` | src/filler.cpp:148-226 | whatever the program does, the end of the frame finds the bitmap exactly full |
| `FrameClock.TimingIsWhole` | src/i8080.cpp:336-2003 | every instruction takes between one and six whole groups of four states |
| `FrameClock.LinesFollowEvents` | src/board.cpp:111-276 | the latches after a turn are those of its event |
| `FrameClock.FrameFrom` | src/board.cpp:129-172 | the rest of a frame ends it, within the turns that are left |
| `BoardLoop.Board.ExecuteFrame` | src/board.cpp:129-172 | the loop in place runs the specified frame, turn for turn |
| `BoardLoop.Board.SingleStep` | src/board.cpp:180-276 | one step in place: folding, execution, fill, latch and the books |
| `BoardLoop.Board.CheckInterrupt` | src/board.cpp:111-124 | an acknowledgement lowers INTE and the request and costs the states of RST 7 |
| `BoardLoop.Board.Execute` | src/i8080.cpp:1886-1996 | EI, DI and the countdown on the latches, with the cycles of every opcode |
| `BoardLoop.BoardTakesSlowLoop` | src/board.cpp:200-208 | the board never passes a commit time of 0, so its frames are drawn by the slow loop |
| `Cpu8080.AdcChainAdds` | src/i8080.cpp:168-181 | a chain of ADC over byte strings of any length is their sum modulo 256 to the length, with the overflow in the carry |
| `Cpu8080.SbbChainSubtracts` | src/i8080.cpp:196-209 | a chain of SBB is the difference, with the borrow |
| `Cpu8080.DecimalChainAdds` | src/i8080.cpp:568-583 | ADC and DAA over packed decimal strings of any length give packed digits of the sum modulo 100 to the length |
| `Cpu8080.DaaAdds` | src/i8080.cpp:568-583 | ADC and DAA on two bytes of packed digits are the decimal sum with its hundred in the carry |
| `Cpu8080.HalfCarryByTable` | src/i8080.cpp:301-301 | the half carry table gives the true carry out of bit 3 |
| `Cpu8080.HalfBorrowByTable` | src/i8080.cpp:302-302 | the other table gives the true borrow |
| `Cpu8080.ParityByTable` | src/i8080.cpp:282-299 | the parity table is even parity |
| `Cpu8080.BorrowBit` | src/i8080.cpp:183-209 | bit 8 of the wrapped 16-bit difference is the borrow |
| `Cpu8080.Cpu.Adc` | src/i8080.cpp:168-181 | by table and 16-bit sum, A and all flags are those of the true sum |
| `Cpu8080.Cpu.Sbb` | src/i8080.cpp:196-209 | A and all flags are those of the true difference |
| `Cpu8080.Cpu.Cmp` | src/i8080.cpp:210-221 | the flags of the difference, A unchanged |
| `Cpu8080.Cpu.DecimalAdjust` | src/i8080.cpp:568-583 | the method leaves the specified A and flags |
| `Cpu8080.DaaSetsFlags` | src/i8080.cpp:568-583 | DAA of every byte under every flags: the correction by digits and carries, and S, Z, P of the result and H the carry of the correction out of bit 3 |
| `Cpu8080.PackedSumIsZero` | src/i8080.cpp:568-583 | after a packed addition Z is up exactly when the decimal sum ends in two zeros |
| `Cpu8080.SumTells` | src/i8080.cpp:168-181 | after ADC S, Z and P tell of the result and the carry that the sum left the byte |
| `Cpu8080.DifferenceTells` | src/i8080.cpp:183-221 | after a subtraction or comparison Z tells that the operands are the same and the carry that the first is less |
| `Cpu8080.Cpu.AddStrings` | src/i8080.cpp:168-181 | a program's loop over two strings leaves the specified sum and carry |
| `Cpu8080.Cpu.AddDecimals` | src/i8080.cpp:568-583 | the same with DAA after each ADC |
| `Cpu8080.PopAfterPush` | src/hal.cpp:33-42 | a word popped where it was pushed is the word, but for bytes that the boot image hides, wherever SP wraps and the windows lie |
| `Cpu8080.PushedBytes` | src/hal.cpp:33-42 | a pushed word lies below SP with its low byte at the lower address |
| `Cpu8080.Cpu.SaveAndRestore` | src/i8080.cpp:1869-1911 | PUSH PSW and POP PSW around an addition restore A, the flags and SP |
| `Cpu8080.BitsOfByte` | src/i8080.cpp:317-334 | a flag byte and its bits determine each other |
| `Cpu8080.FlagByteWeights` | src/i8080.cpp:317-326 | the flag byte by weights: S 128, Z 64, H 16, P 4, always 2, C 1 |
| `Cpu8080.Cpu.StoreFlags` | src/i8080.cpp:317-326 | the eight assignments make the flag byte, its unused bits fixed |
| `Cpu8080.Cpu.HaltAndReturn` | src/board.cpp:111-124 | an interrupt in a HLT and its return lead past the HLT |
| `Resampling.OutputsAreDecimated` | src/resampler.cpp:128-188 | for every input the outputs are five times the convolution of the zero-stuffed input with the padded filter at every 156th place, rounded down to seven places, and 156 outputs plus the counter make five times the inputs |
| `Resampling.PolyphaseIsConvolution` | src/resampler.cpp:101-126 | a phase filter on the samples so far is the whole convolution at its place |
| `Resampling.ShortcutIsCommutator` | src/resampler.cpp:160-178 | the phase shortcut stops where the naive commutator loop does and leaves the same counter |
| `Resampling.RoundedIsClose` | src/resampler.cpp:175-175 | the rounding takes off less than 1e-7 and keeps what is rounded |
| `Resampling.OutputCount` | src/resampler.cpp:160-178 | n inputs give floor(5 n / 156) outputs |
| `Resampling.TermsAreCausal` | src/resampler.cpp:128-188 | later samples do not change earlier outputs |
| `ResamplerInPlace.Fir.In` | src/resampler.cpp:62-70 | the mirrored ring takes a sample and holds the newest ones in order from its index, unsigned wrap included |
| `ResamplerInPlace.Fir.Out` | src/resampler.cpp:72-79 | the loop over the ring is the dot product of the newest samples |
| `ResamplerInPlace.Resampler.Sample` | src/resampler.cpp:128-202 | feeding, phase choice, counter, rounding, egg and through mode |
| `ResamplerInPlace.Resampler.Stream` | src/sound.cpp:153-161 | a stream through a fresh resampler yields exactly the specified outputs |
| `ResamplerInPlace.CreateFilter` | src/resampler.cpp:101-126 | the bank holds a fresh filter for every phase, with that phase's coefficients |
| `ResamplerInPlace.PickPhase` | src/resampler.cpp:113-121 | the strided copy picks the coefficients of one phase |
| `BasicFile.ThereAndBack` | bas2txt/bas2asc.py:101-141 | for every program whose characters survive: there is an image exactly when its addresses fit 16 bits, and reading it back gives every tried line as its number modulo 65536, a space and its text, LIST misread as LLIST where it is |
| `BasicTokenizer.TokenizeText` | bas2txt/bas2asc.py:236-284 | for every text the loop ends and its codes are those of the function `Codes`: a code for each keyword that the function finds and one for each character between and behind; of a text of surviving characters they expand to the text, or to LLIST and the rest of it exactly when it is misread |
| `BasicSpans.OpenIsLeftmost` | bas2txt/bas2asc.py:236-284 | for a text without quotes that function takes the leftmost keyword, the longest there, goes on to the next longer one that starts inside for as long as there is one, and goes on behind it; after DATA or REM everything is characters |
| `BasicSpans.CodesComeBack` | bas2txt/bas2asc.py:236-284 | the codes of a text of surviving characters expand to the text, or to LLIST and the rest of it |
| `BasicSpans.EncodedInOrder` | bas2txt/bas2asc.py:258-270 | the encoded keywords are keywords, in order and without overlaps, and each is what is found at its place |
| `BasicFlush.FoldSplits` | bas2txt/bas2asc.py:220-234 | what the suppression keeps of a stretch is where the climb from its first keyword ends, and what it keeps behind that |
| `BasicFlush.RunIsGroup` | bas2txt/bas2asc.py:254-274 | the keywords that one flush turns into codes, with what follows it, are those that the function finds from there on |
| `BasicLosses.LostExactly` | bas2txt/bas2asc.py:236-284 | in a text without quotes a keyword is neither encoded nor overlaps one that is exactly when it lies behind DATA or REM, or begins behind the keyword at which the scan began and ends no later than where the climb gets to |
| `BasicLosses.SpansAreClimbs` | bas2txt/bas2asc.py:220-234 | in such a text every encoded keyword is where the climb from the first keyword behind the one before it ends |
| `BasicLosses.LostKeyword` | bas2txt/bas2asc.py:220-234 | of the text IFREAD only READ is encoded: IF overlaps nothing that is |
| `BasicLosses.LostKeywordCodes` | bas2txt/bas2asc.py:261-280 | its codes are those of two characters and READ |
| `BasicLosses.QuoteTakenTwice` | bas2txt/bas2asc.py:246-273 | when a flush comes with a quote, the quote is taken twice exactly when the last keyword of the flush ends before it, and the scan goes on outside of quotes behind it; otherwise it goes on inside |
| `BasicLosses.KeywordInString` | bas2txt/bas2asc.py:246-273 | of the text PRINTA, a quote, FOR and a quote, both PRINT and FOR are encoded |
| `BasicTokenizer.LongestIsAll` | bas2txt/bas2asc.py:204-214 | when a flush comes, what is left for each place is what is found there |
| `BasicTokenizer.TurnTracks` | bas2txt/bas2asc.py:187-200 | one turn outside of quotes keeps every keyword that has started under way at its character or complete, LLIST in a text that starts with LIST, and nothing else |
| `BasicMatcher.SuppressedAccounts` | bas2txt/bas2asc.py:220-234 | the start of every match lies in a kept one, or in one that a longer match inside it beat |
| `BasicSpans.ComesBackExactly` | bas2txt/bas2asc.py:240-252 | a text comes back unchanged exactly when it does not start with LIST or has a longer keyword right behind it |
| `BasicSpans.FirstIsFalse` | bas2txt/bas2asc.py:240-260 | the first encoded keyword is the false LLIST exactly when the text is misread |
| `BasicSpans.ClimbAtList` | bas2txt/bas2asc.py:240-260 | the climb stays at the false LLIST exactly when no keyword longer than five letters stands right behind LIST |
| `BasicTokenizer.TrackKeeps` | bas2txt/bas2asc.py:187-200 | tracking one character keeps every keyword a true prefix of the text, or LLIST one ahead of LIST at its start |
| `BasicTokenizer.Emit` | bas2txt/bas2asc.py:261-271 | a flush emits the characters before and then the codes of the matches that stand one right behind the other, up to a gap or a DATA or REM |
| `BasicTokenizer.Flush` | bas2txt/bas2asc.py:254-274 | a flush moves the end of the codes forward and finds exactly the keywords that the function does |
| `BasicTokenizer.AllIsGathered` | bas2txt/bas2asc.py:253-256 | when nothing is under way, or the text ends, everything found since the scan began is complete, LLIST behind LIST included |
| `BasicTokenizer.QuoteEnds` | bas2txt/bas2asc.py:246-250 | no keyword is under way behind a quote |
| `BasicTokenizer.Turn` | bas2txt/bas2asc.py:244-278 | one turn of the loop, with its flush and its way back, keeps found what the function finds |
| `BasicMatcher.SuppressOverlaps` | bas2txt/bas2asc.py:220-234 | the loop is the specified fold; what is left is in order and does not overlap, and the first match stays exactly when no longer one starts inside it |
| `BasicMatcher.SuppressNonmax` | bas2txt/bas2asc.py:204-214 | one match for each position, no shorter than any other there |
| `BasicMatcher.TrackWords` | bas2txt/bas2asc.py:187-200 | exactly the tracked words that take the character go on or are complete |
| `BasicMatcher.PickKeywords` | bas2txt/bas2asc.py:151-169 | exactly the keywords of the initial letter are added, none while quoted or verbatim |
| `BasicWords.SurvivesExactly` | bas2txt/bas2asc.py:73-96 | a character comes back, and does not end the line, exactly when it is in Chars, below 0x20 but not 0, or above 228 in a byte |
| `BasicWords.WordsAreWellFormed` | bas2txt/bas2asc.py:56-71 | of the 101 keywords only LLIST repeats its first letter |
| `BasicWords.TextComesBack` | bas2txt/bas2asc.py:81-96 | a text of surviving characters comes back from its codes |
| `BasicFile.ThereBackAndThere` | bas2txt/bas2asc.py:286-307 | a program tokenized, read back and tokenized again has the same image, byte for byte, when its lines have text behind their numbers and LIST is not misread in any |
| `BasicFile.ReadRecord` | bas2txt/bas2asc.py:101-141 | by counting zeros the reader takes a record to its end and no further |
| `BasicFile.ReadLayouts` | bas2txt/bas2asc.py:101-141 | a whole image of records reads back line by line; its bytes are bytes exactly when its last address is a word |
| `BasicFile.ReadZeros` | bas2txt/bas2asc.py:110-140 | the zeros at the end stop the reader, but an empty program reads as one line |
| `BasicFile.EnBas` | bas2txt/bas2asc.py:286-307 | the image has a record for every tried line, all or twice those before the first empty one, then zeros: two and at least one more to a multiple of 256; from 0x4301 its links lead through exactly these records |
| `BasicFile.ImageIsLinked` | bas2txt/bas2asc.py:280-307 | the little-endian word at the start of every record is the address behind the zero that ends it, its number follows and then its codes, and the walk from 0x4301 through all records in order ends at a zero word |
| `BasicFile.ReadBas` | bas2txt/bas2asc.py:101-141 | the loop with its early end is the state machine run over all bytes |
| `BasicFile.LineBackIsStable` | bas2txt/bas2asc.py:98-99 | a line that came back comes back as itself |
| `BasicFile.GetLineNumber` | bas2txt/bas2asc.py:172-183 | the number made of the leading digits, spaces skipped, and where the text starts |
| `Floppy.SectorIsRead` | src/fd1793.h:545-646 | under any interleaving of polls with data reads on DRQ a read-sector command delivers the sector's bytes in order, after the byte left in the data register when DRQ was still up, and BUSY is down exactly when all are delivered |
| `Floppy.VerifyReadIsShifted` | src/fd1793.h:715-746 | a sector read right after the 1024th data write delivers the last byte written, then the sector |
| `Floppy.VerifyReadAfterOneMore` | src/fd1793.h:715-746 | after one data write more it delivers the sector as written |
| `Floppy.SectorIsWritten` | src/fd1793.h:499-538 | under any interleaving of polls with data writes the first 1024 bytes fill the addressed sector, more change nothing, and BUSY falls only with the write after the last |
| `Floppy.OtherSectorsStay` | src/fd1793.h:295-309 | a write leaves every other sector as it was |
| `Floppy.SectorsAreDisjoint` | src/fd1793.h:295-309 | distinct track, side and sector 1 to 5 never overlap |
| `Floppy.FirstByteComes` | src/fd1793.h:557-572 | status polls alone bring the first byte after exactly 3 - LINGER_BEFORE of them, and never when that is above 2 |
| `Floppy.PolledStatus` | src/fd1793.h:545-581 | the status that poll k returns while a sector read begins: BUSY from poll -LINGER_BEFORE on, DRQ from poll 2 - LINGER_BEFORE on |
| `Floppy.StatusShown` | src/fd1793.h:545-581 | a status poll of any state returns DRQ and the errors as they are after it, NOT READY exactly without an image, and BUSY unless the linger time was negative |
| `Floppy.SameSectorAsFilesystem` | src/fd1793.h:295-309 | the controller finds a sector where the file system keeps it |
| `Floppy.DataDelivers` | src/fd1793.h:333-352 | a data read on DRQ returns the next byte and readies the one after it |
| `FloppyController.FD1793.Exec` | src/fd1793.h:499-538 | one transfer step in place, only the selected drive touched |
| `FloppyController.FD1793.ReadStatus` | src/fd1793.h:545-581 | a status poll in place, with its lingering |
| `FloppyController.FDisk.Write` | src/fd1793.h:354-384 | one byte of the image changes, at the transfer's place |
| `FloppyController.ReadWholeSector` | src/fd1793.h:545-646 | a polling program gets the whole sector, with DRQ still up the old data byte before it, and ends |
| `Timer.SquareWave` | src/8253.h:155-176 | mode 3 with load value n of at least 2, even or odd: after t counts the output is up exactly when t mod n is below (n + 1) / 2, the counter in 1..n |
| `Timer.ProgrammedPlays` | src/8253.h:187-250 | programmed for mode 0, 2 or 3 from any state, with any word, in binary or BCD, with any counts in between, the counter waits three counts and then fires with the count of its load value, counts it down again and again, or makes its wave |
| `Timer.ProgrammedBytePlays` | src/8253.h:205-214 | the same programmed with one byte only, which is the low or the high one of the load value |
| `Timer.UnitLoadRunsAway` | src/8253.h:155-176 | a load value of 1 turns the output over with every count, and the counter goes down without end |
| `Timer.ZeroLoadIsInverted` | src/8253.h:155-176 | a load value of zero makes the wave of the full period upside down |
| `Timer.RateGenerator` | src/8253.h:136-154 | mode 2 counts from n down to 1 and starts again, with the full count for a load value of zero |
| `Timer.TerminalCount` | src/8253.h:99-119 | mode 0 raises its output with the n-th count, for good |
| `Timer.OneShotRuns` | src/8253.h:123-137 | mode 1 counts its old value down to one and then starts again from one more than the load value; its output stays |
| `Timer.ZeroLoadNeverFires` | src/8253.h:99-119 | mode 0 on a load value of zero never raises its output |
| `Timer.LatchKeepsTime` | src/8253.h:84-88 | a latch and the next count are one count, or the counts that a pending delay would swallow; nothing is lost or gained exactly when at most one is pending |
| `Timer.LatchedReadsBack` | src/8253.h:266-307 | both reads after a latch give the latched value, binary or as packed digits, whatever is counted between, and open the latch again; the value -1 alone is not held |
| `Timer.ShownDigits` | src/8253.h:266-307 | a decimal value below 10000 is read from the digits shown |
| `Timer.BcdRoundTrip` | src/8253.h:246-264 | a number that fits comes back from its packed digits |
| `Timer.PackedRoundTrip` | src/8253.h:246-264 | packed digits come back exactly when all of them are decimal |
| `Timer.ReturnsOutput` | src/8253.h:90-185 | what a count returns is its output, except exactly when mode 0 counts an armed counter that is at zero or below |
| `Timer.TerminalReturns` | src/8253.h:99-119 | mode 0 returns 1 from the n-th count on; with a load value of zero its first count returns 2 and all others 0 |
| `Timer.CounterUnit.Tick` | src/8253.h:90-185 | one count in place, mode by mode, and the value that it returns |
| `Timer.CounterUnit.UnpackDigits` | src/8253.h:255-264 | the shifting loop reads the four packed digits |
| `Timer.CounterUnit.PackDigits` | src/8253.h:246-253 | the dividing loop packs four digits |
| `Ay.RunsStayClose` | psp/src/ay.h:29-139 | over any writes and steps the levels stay in 0..15, the noise register is never zero, and the integer output stays within 1.5 of 4096 times the real one |
| `Ay.EnvelopeShape` | psp/src/ay.h:78-87 | the envelope in closed form: ramp b, step k of every shape, held or alternating |
| `AyRuns.EnvelopeInSteps` | psp/src/ay.h:89-103 | over any steps the envelope takes its next step once every 2 R11 + 512 R12 of them, zero counting as one |
| `AyRuns.ToneInSteps` | psp/src/ay.h:58-61 | over any steps a tone turns over once every R0 + 256 R1 of them, zero counting as one, and is not disturbed by anything else |
| `AyRuns.NoiseInSteps` | psp/src/ay.h:96-100 | over any steps the noise register moves on once every 2 R6 of them, and the bit shifted out last is heard |
| `AyRuns.NoiseRecurrence` | psp/src/ay.h:96-100 | each bit of the noise is the exclusive or of those 17 and 14 shifts before |
| `AyRuns.MixerByBits` | psp/src/ay.h:63-70 | a channel is at its level while no tone and no noise that its two mixer bits let through is low |
| `AyRuns.OneChannelIsHeard` | psp/src/ay.h:63-75 | with one output enabled both outputs are that channel alone: its volume, or the envelope with bit 4 of its register up, and nothing while it is not let through |
| `AyRuns.WrittenShape` | psp/src/ay.h:169-187 | the levels that any byte written to register 13 plays: without CONT one ramp by ATT and then silence, with CONT the shape of the byte |
| `Ay.NoiseIsReversible` | psp/src/ay.h:95-100 | no two states of the noise register lead to the same one |
| `Ay.ChannelsCommute` | psp/src/ay.h:101-102 | the channels may be stepped in any order |
| `Ay.OutputsClose` | psp/src/ay.h:109-139 | the two outputs of one state differ by at most 1.5 |
| `Ay.NoiseStaysUp` | psp/src/ay.h:95-100 | the 17-bit noise register stays non-zero and in range |
| `AyGenerator.AY.Step` | psp/src/ay.h:89-103 | step in place: the specified state and real output |
| `AyGenerator.AY.StepInt` | psp/src/ay.h:109-139 | the integer step in place: the same state and the integer output |
| `AyGenerator.AY.EnvelopeStep` | psp/src/ay.h:78-87 | one envelope step in place |

## Left out

- SDL, OpenGL, sockets, the debugger, scripting, user interface and option parsing: input and output.
- Real files: `mount_local_dir`, flushing and renaming of disk images, decoding of text files.
- Watchpoints, heatmaps, trace logs, statistics and tape: they do not feed back into the machines.
- The other opcodes of the processor: they take part through their cycles only.
- Deletion and renaming of files: the source has none.
- Keyboard, joystick and the remaining ports; the bit packing of palette bytes.
- CpmImage.FilesystemImage.SaveFile: does not model a chain that is too short, because the source then reads past its end; `NoOverrun` is the exact condition.
- CpmImage.FilesystemImage.BuildAvailableChain: requires table entries in range, which every history keeps, because the source indexes a vector with them unchecked.
- MemoryMap.Memory.InitFromVector: requires a start of at most 0x50000, because beyond it the length of the memset wraps; addresses are unbounded, because `tobank` drops every bit above 18.
- MemoryMap.Memory.ExportBytes: requires addresses that have a cell, because the source does not check there.
- RasterFrame.FrameIsDrawn: colours, memory and ports at rest over the frame, because the formula is of one picture; the count of words is proved for every program in `FrameClock.RunCompletes`.
- PixelFiller.PixelFiller.Fill: fewer clocks than a frame in one call, and position, clocks and ports as the fast loops need them on their side.
- FrameClock.FrameAccounts: a debugger or script break in the middle of a frame is not modelled.
- Board::reset in the middle of a frame: only its effect on the latches is modelled.
- Resampling.OutputsAreDecimated: does not model the rounding of floating point; the rounding to seven places is over the reals.
- ResamplerInPlace.Resampler.Stream: through mode stays off; `Sample` covers switching it.
- BasicFile.ThereBackAndThere: stated for lines that come back as they are; a line of digits and spaces only, or with LIST misread, comes back as another line.
- BasicFile.ThereAndBack: characters that do not survive are not followed through a file; `BasicWords.SurvivesExactly` says which those are.
- The floppy commands other than read and write sector; sector numbers above 5, which alias the other side.
- Timer modes 4 and 5 beyond their counts; three counters behind one control word.
- CpmReturned.NameOfHostFile: stated while fewer than ten million names are taken, because a longer number no longer fits eight characters.
- Ay.RunsStayClose: enables other than 0 and 1 are left out, because the bound is per enabled channel.
- The PSP variants of the board and timer: duplicates.
