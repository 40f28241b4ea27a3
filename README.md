# ay2ym in Dafny

A verified model of the core of ay2ym, a converter from AY chiptunes (the
ZXAYEMUL "AY" container) to YM6 register dumps. For each song the converter:

1. reads the song record;
2. builds a 64 KB Z80 memory image: fill bands, the song's data blocks, and a
   call trampoline at address 0;
3. runs the song's code on a Z80 core for `(song + fade) * 70000` T-states;
4. samples the sixteen AY registers once every 70000 T-states;
5. writes a YM6 document: a 34-byte header, three NUL-terminated strings, the
   frames in sequence and `End!`, with the frame count patched in at offset 12.

Modules, one per concern of the source:

- `Bytes` (`bytes.dfy`): the C integer types, the big-endian codec, size_t
  wrap-around, and resolve_rel_pointer.
- `Machine` (`machine.dfy`): the AY2YM context as a class with the memory and
  port hooks of `z80emu/z80user.h` as its methods. It also holds the AY port
  bridge `ay2ym_in`/`ay2ym_out` as pure functions, and proves that the methods
  act exactly as those functions.
- `Loader` (`loader.dfy`): the fill bands, load_blocks, and the two
  interrupt trampolines.
- `GrowBuffer` (`growbuf.dfy`): append_bytes, as a class holding data, size
  and capacity. The allocator is a parameter: malloc or realloc of `n` bytes
  succeeds exactly when `n <= heapLimit`.
- `AyFormat` (`ay_format.dfy`): the container header, the song structure
  table, song records, the points block, NUL-terminated strings, and the
  song-length derivation.
- `Ym` (`ym.dfy`): the YM6 document, the frame-capture loop and emulate_song.
  The Z80 core is a trace of quanta. Each quantum holds:
  - the `elapsed` value one call of `Z80Emulate` returns;
  - the port accesses the core made during that call, in order.

  The accesses go through the model's port methods, so the registers sampled
  and the done flag come from the bridge. A trace that runs out acts as a core
  that returns 0.
- `FileNames` (`filenames.dfy`): create_filename_from_song and
  remove_file_extension.
- `Driver` (`driver.dfy`): parse_song_data and parse_points_data_and_emulate.

The global strings `song_name` and `author` and the static context are
parameters. The output file is the returned byte sequence. A block of
length 0 whose data offset lies within the file copies nothing, and loading
goes on to the next entry, in the code and in the model alike.

## Model

| member | source | states |
|---|---|---|
| Bytes.ReadBe16U | ay2ym.cpp:81-84 | the first byte is the high byte and the second the low byte of the result |
| Bytes.ReadBe16S | ay2ym.cpp:76-79 | the result equals read_be16u of the same bytes modulo 2^16, and is negative exactly when the first byte has its top bit set |
| Bytes.PackU16Be | ay2ym.cpp:71-74 | two bytes whose big-endian value is the input |
| Bytes.PackU32Be | ay2ym.cpp:64-69 | four bytes, most significant first, whose big-endian value is the input |
| Bytes.ReadPackU16 | ay2ym.cpp:71-84 | read_be16u of pack_uint16_be(v) is v |
| Bytes.PackReadU16 | ay2ym.cpp:71-84 | packing the value read at i gives back the two bytes at i |
| Bytes.ReadPackU32 | ay2ym.cpp:64-69 | the four packed bytes read back big-endian give v |
| Bytes.PackReadU32 | ay2ym.cpp:64-69 | packing the big-endian value of four bytes gives back those bytes |
| Bytes.ResolveRelPointer | ay2ym.cpp:87-93 | the definition; what it states is proved in ResolveRelPointerSpec, ResolveEncoded and ResolvedIsEncoded below |
| Bytes.ResolveRelPointerSpec | ay2ym.cpp:87-93 | SIZE_MAX when the field does not fit; otherwise a result exactly when pos + offset lies in [0, size), and the result is then that position |
| Bytes.ResolveEncoded | ay2ym.cpp:87-93 | a field encoding a target inside the file resolves to that target |
| Bytes.ResolvedIsEncoded | ay2ym.cpp:87-93 | every resolved field is the encoding of its target, which lies within a signed 16-bit offset of the field |
| Machine.SystemCall | ay2ym.cpp:13-21 | the definition, reached only through PortIn; PortInEffect states that it sets done exactly for pc 0xFFFF and changes nothing else |
| Machine.PortOut | ay2ym.cpp:45-62 | every write leaves the latch a valid register index |
| Machine.PortIn | ay2ym.cpp:24-43 | every read leaves the latch a valid register index |
| Machine.PortOutEffect | ay2ym.cpp:45-62 | 0xFFFD latches value & 0x0F; 0xBFFD stores into the latched register; a port with low byte 0xFE sets the beeper to bit 4; no other field changes; the done flag is always cleared |
| Machine.PortInEffect | ay2ym.cpp:14-43 | 0xBFFD yields the latched register, low byte 0xFE the beeper, any other port 0xFF; only an unmapped read at pc 0xFFFF changes the state, by setting done |
| Machine.SelectWriteRead | z80emu/z80user.h:54-84 | selecting r, writing v and reading the data port yields v; register r & 15 holds v and every other register is unchanged |
| Machine.ApplyAccesses | z80emu/z80user.h:54-84 | any sequence of port accesses keeps the latch a valid index, so every ay_regs access is in bounds |
| Machine.Ay2Ym.constructor | ay2ym.h:23-33 | the static context starts with zero memory, zero registers, latch 0, beeper 0 and done clear |
| Machine.Ay2Ym.ReadByte | z80emu/z80user.h:21-24 | the byte at address & 0xFFFF |
| Machine.Ay2Ym.ReadWord | z80emu/z80user.h:28-33 | little-endian: low byte at the address, high byte at address + 1 modulo 64 KB, so a word at 0xFFFF wraps to address 0 |
| Machine.Ay2Ym.WriteByte | z80emu/z80user.h:37-40 | exactly one cell changes, and it reads back |
| Machine.Ay2Ym.WriteWord | z80emu/z80user.h:42-47 | the low byte goes to the address and the high byte to address + 1 modulo 64 KB; nothing else changes; the word reads back |
| Machine.Ay2Ym.InputByte | z80emu/z80user.h:54-66 | the value read and the new bridge state are exactly those of ay2ym_in |
| Machine.Ay2Ym.OutputByte | z80emu/z80user.h:68-84 | the new bridge state is exactly that of ay2ym_out |
| Machine.Ay2Ym.ResetForSong | ay2ym.cpp:304-306 | registers zeroed, ay_reg_select and is_done cleared, while addr_latch and beeper keep their values from the previous song |
| Machine.Ay2Ym.RunAccesses | z80emu/z80user.h:54-84 | running a quantum's accesses through the macros gives the state that applying ay2ym_in/ay2ym_out in order gives |
| Loader.BandImage | ay2ym.cpp:523-528 | the image is 64 KB and each byte is the band byte of its address |
| Loader.Fill | ay2ym.cpp:523-525 | memset: the range holds the value and nothing outside it changes |
| Loader.FillBands | ay2ym.cpp:523-528 | the memory becomes the band image |
| Loader.BandLayout | ay2ym.cpp:523-528 | 0xC9 below 0x100 except 0xFB at 0x38, 0xFF from 0x100 to 0x3FFF, 0x00 from 0x4000 |
| Loader.LoadedBlocks | ay2ym.cpp:203-237 | every block loaded passes both bound checks and has a non-zero address |
| Loader.CopyBlock | ay2ym.cpp:222 | the block's range holds the file bytes from its offset; every other byte is unchanged |
| Loader.LoadedBlocksAreTableEntries | ay2ym.cpp:203-236 | block i is the table entry at pos + 6i, which lies inside the file |
| Loader.LoadedBlocksStop | ay2ym.cpp:204-220 | the walk stops only at the end of whole entries, at a zero address, or at an entry that fails a bound check |
| Loader.ApplyBlocks | ay2ym.cpp:203-237 | the blocks copied in order, a 64 KB image; what it states is proved in ApplyBlocksOutside and ApplyBlocksLastCover below, and LoadBlocks performs it in place |
| Loader.ApplyBlocksOutside | ay2ym.cpp:222 | memory that no loaded block covers is unchanged |
| Loader.ApplyBlocksLastCover | ay2ym.cpp:222 | a byte covered last by block i holds the file byte that block i copied there |
| Loader.LoadBlocks | ay2ym.cpp:197-238 | no change without a valid table pointer; otherwise the image is the LoadedBlocks copied in order |
| Loader.CopyInto | ay2ym.cpp:222 | the memcpy of one block changes the memory as CopyBlock says |
| Loader.NegativeOffsetPassesGuard | ay2ym.cpp:209-220 | a block whose data offset lies before the file passes the check as written |
| Loader.BlockGuardAgreesForNonNegativeOffsets | ay2ym.cpp:209-220 | for offsets that stay non-negative, the size_t check as written accepts exactly the loadable blocks |
| Loader.Trampoline | ay2ym.cpp:261-278 | the definition; its layout is proved in TrampolineLayout, and SetupInterruptHandler installs it in memory |
| Loader.TrampolineLayout | ay2ym.cpp:261-278 | intz is 10 bytes and intnz 13; init is little-endian at 2..3 and interrupt at 9..10; both jr displacements land on offset 4 |
| Loader.SetupInterruptHandler | ay2ym.cpp:280-298 | memory starts with the patched trampoline and no byte past it changes |
| GrowBuffer.GrownCapacity | ay2ym.cpp:106-110 | the definition; its bounds are proved in GrownCapacityBounds, and ByteBuffer.Append uses it |
| GrowBuffer.GrownCapacityBounds | ay2ym.cpp:107-110 | the new capacity covers size + length, never shrinks, at least doubles when it grows, stays the same when the data fits, and never exceeds twice the data when it grows |
| GrowBuffer.ByteBuffer.constructor | ay2ym.cpp:333-335 | an empty buffer of the requested capacity |
| GrowBuffer.ByteBuffer.Append | ay2ym.cpp:102-125 | returns -1 exactly when growth is needed and the grown capacity exceeds the heap, leaving the buffer null and empty; otherwise returns 0, the old contents followed by src, and the grown capacity; it always succeeds when the heap holds twice the new size |
| GrowBuffer.ByteBuffer.TerminateUnchecked | ay2ym.cpp:421 | the NUL store as written, in bounds only when the caller guarantees room |
| GrowBuffer.ByteBuffer.Terminate | ay2ym.cpp:421 | the NUL appended through the growth path of append_bytes |
| GrowBuffer.ByteBuffer.Patch | ay2ym.cpp:494-496 | the bytes at the offset are replaced; nothing else changes |
| GrowBuffer.TitleFillsInitialBuffer | ay2ym.cpp:415-421 | a 65502-byte name after the header fills the 64 KB buffer without growing it |
| AyFormat.TakeUntilNul | ay2ym.cpp:96-99 | the longest NUL-free prefix: a prefix of the input, without zero bytes, followed by a NUL when shorter than the input |
| AyFormat.ReadNtString | ay2ym.cpp:96-99 | "(invalid)" for an offset outside the file; otherwise the NUL-free bytes from the offset up to the next NUL |
| AyFormat.ParseHeader | ay2ym.cpp:629-642 | present exactly when the file has at least 20 bytes |
| AyFormat.AuthorAsWritten | ay2ym.cpp:646-653 | the definition (NULL when the author pointer fails its check); HeaderAnchorsAreFieldPositions, AuthorText and AuthorCanStayNull state what it yields |
| AyFormat.AnchoredOffsetIsRelPointer | ay2ym.cpp:646-648 | the size_t check with a fixed anchor equals resolve_rel_pointer at that field |
| AyFormat.HeaderAnchorsAreFieldPositions | ay2ym.cpp:646-658 | the author and misc pointers are the relative pointers of the fields at 12 and 14 |
| AyFormat.AuthorCanStayNull | ay2ym.cpp:648-653 | a 44-byte file leaves the author NULL while its one song has a record and a points block, so it reaches emulate_song |
| AyFormat.AuthorText | ay2ym.cpp:648-653 | the NUL-free author string when the pointer is valid, and "(invalid)" otherwise |
| AyFormat.SongTableOffsetCanWrap | ay2ym.cpp:602-619 | a negative table offset wraps in size_t and passes every check as written |
| AyFormat.SongTable | ay2ym.cpp:602-619 | when accepted, num_songs + 1 entries; their contents are stated in SongTableEntries |
| AyFormat.SongTableInsideFile | ay2ym.cpp:608-619 | an accepted table starts at the relative pointer of field 18, and every entry lies inside the file |
| AyFormat.SongTableEntries | ay2ym.cpp:608-619 | entry i holds the relative pointers of the fields at t + 4i and t + 4i + 2, each present exactly when its target lies inside the file, and then equal to it |
| AyFormat.SongTableGuardAgrees | ay2ym.cpp:603-614 | for non-negative table offsets, the checks as written accept exactly the tables the model accepts |
| AyFormat.ParseSongRecord | ay2ym.cpp:535-553 | present exactly when the record pointer is valid and 14 bytes fit |
| AyFormat.SongRecordPointers | ay2ym.cpp:552-553 | the points and addresses pointers are anchored at their own fields, at offsets 10 and 12 |
| AyFormat.ParsePoints | ay2ym.cpp:510-518 | present exactly when the pointer is valid and 6 bytes fit |
| AyFormat.AddressWordCount | ay2ym.cpp:569-577 | the count never decreases and is at most 15001 |
| AyFormat.AddressWordCountMeaning | ay2ym.cpp:569-577 | every counted word is inside the file and non-zero; below the cap, the next word is zero or missing |
| AyFormat.DerivedSongLength | ay2ym.cpp:565-596 | the definition; its cases are proved in DerivedSongLengthCases, and DeriveSongLength computes it with the loop |
| AyFormat.DerivedSongLengthCases | ay2ym.cpp:565-596 | never zero; a declared length is kept; 15000 without a valid pointer; otherwise the count when at least 100 and 15000 below that; the UINT16_MAX clamp is unreachable |
| AyFormat.CountAddressWords | ay2ym.cpp:569-577 | the loop's count is the word count AddressWordCount defines |
| AyFormat.DeriveSongLength | ay2ym.cpp:565-596 | the length passed on is the derived length |
| Ym.YmHeader | ay2ym.cpp:344-413 | the header is its nine fields one after the other, 34 bytes |
| Ym.YmHeaderFields | ay2ym.cpp:344-413 | "YM6!LeOnArD!", the frame count at offset 12, attributes 8, 0 digidrums, clock 1773400, 50 Hz, loop frame 0 and extra size 0, all big-endian |
| Ym.HeaderIsFields | ay2ym.cpp:344-413 | the nine fields appended one by one, in order |
| Ym.PatchFrameCount | ay2ym.cpp:494-496 | writing the frame count over the placeholder at 12 gives the final document |
| Ym.FlattenLength | ay2ym.cpp:469-471 | sixteen bytes per frame |
| Ym.FlattenAt | ay2ym.cpp:469-471 | register r of frame k sits at byte 16k + r |
| Ym.StringsLayout | ay2ym.cpp:415-438 | the title, the author and the comment, each followed by its NUL |
| Ym.YmDocument | ay2ym.cpp:344-496 | the definition; DocumentParts and YmDocumentLayout give its layout, and RenderSong produces it |
| Ym.DocumentParts | ay2ym.cpp:344-492 | the document is the header, the strings, the tone data and "End!", in that order |
| Ym.YmDocumentLayout | ay2ym.cpp:344-492 | the document's length, header, three NULs, frame k register r at 16k + r past the strings, and "End!" last |
| Ym.CaptureFrom | ay2ym.cpp:451-476 | the captured frames extend those already captured and each has sixteen bytes; the bridge state stays valid; the port accesses of the quantum that returns no cycles still reach the bridge |
| Ym.SongCapture | ay2ym.cpp:451-476 | the capture of a whole song from frame 0; CaptureBounds, CaptureStops, SongFramesAreFloor and FramesAreRegisterSnapshots state its properties, and CaptureFrames computes it |
| Ym.CaptureBounds | ay2ym.cpp:451-476 | frame_number * 70000 <= cycles, and cycles overshoot the budget by less than one int-sized quantum |
| Ym.CaptureStops | ay2ym.cpp:451-453 | the loop ends only on the budget, the done flag, or a quantum that returns no cycles |
| Ym.OneFramePerThreshold | ay2ym.cpp:455-475 | when no quantum exceeds a frame, each threshold crossed adds exactly one frame |
| Ym.SongFramesAreFloor | ay2ym.cpp:451-476 | under the same condition, the frame count is cycles / 70000 |
| Ym.FramesAreRegisterSnapshots | ay2ym.cpp:455-472 | every frame is the register file the bridge left after some quantum of the trace |
| Ym.CaptureStep | ay2ym.cpp:451-476 | one turn of the loop moves the capture one quantum on |
| Ym.ToneGrowthFails | ay2ym.cpp:458-467 | a failed tone-buffer realloc implies the heap is below 1024 bytes or below 32 bytes per frame of the song |
| Ym.CaptureQuantum | ay2ym.cpp:454-476 | the rest of one turn after the core returned some cycles: cycles advanced, sixteen registers appended when the threshold is reached; the buffer still holds 16 bytes per frame and the loop still leads to the same capture |
| Ym.CaptureFrames | ay2ym.cpp:441-476 | on success, the frame count, the tone bytes, the cycles and the bridge state are those of the song's capture, including the accesses of a last quantum that returns no cycles; with enough heap for the frames it succeeds |
| Ym.SongFrameBound | ay2ym.cpp:315-317 | the frame count of a song fits the int counter and the 32-bit header field |
| Ym.FlattenPrefixLength | ay2ym.cpp:344-413 | the parts appended so far are never longer than all the parts |
| Ym.AppendParts | ay2ym.cpp:344-413 | the parts appended in order; a heap of twice the final size guarantees success |
| Ym.AppendText | ay2ym.cpp:415-438 | a string and its NUL appended; a heap of twice the final size guarantees success |
| Ym.AppendPreamble | ay2ym.cpp:344-438 | the header with a zero frame count, then the three strings; a heap of twice the final size guarantees success |
| Ym.AppendFrames | ay2ym.cpp:480-492 | the tone data and "End!" complete the document; a heap of twice the document guarantees success |
| Ym.DocumentHeapBound | ay2ym.cpp:333-492 | a heap of twice the document covers the preamble, the tone buffer and the finished document |
| Ym.FinishSong | ay2ym.cpp:441-496 | on success, the output is the document of the song's capture with its frame count; enough heap for the tone buffer and twice the document guarantees success |
| Ym.RenderSong | ay2ym.cpp:333-496 | on success, the output is the YM6 document of the song's captured frames, frame count included; a heap of 64 KB and twice the document guarantees success |
| Ym.EmulateSong | ay2ym.cpp:300-496 | the trampoline is installed over memory; from the reset bridge, the output is the document of the song's capture, and it is produced whenever the heap holds 64 KB and twice the document |
| FileNames.LastDot | ay2ym.cpp:145-146 | the index of a dot with no dot after it, or none when there is no dot |
| FileNames.RemoveFileExtension | ay2ym.cpp:144-162 | the definition, on a NUL-free name; RemoveFileExtensionSpec, RemoveExtensionOfJoin and RemoveExtensionWithoutDot state what it keeps |
| FileNames.RemoveFileExtensionSpec | ay2ym.cpp:144-162 | the result is a prefix of the name: all of it when there is no dot or the last dot is at index 0, otherwise the part before the last dot; None exactly when the allocation fails |
| FileNames.RemoveExtensionOfJoin | ay2ym.cpp:144-162 | base + "." + ext with a dot-free ext and a non-empty base yields base |
| FileNames.RemoveExtensionWithoutDot | ay2ym.cpp:148-150 | a name without dots is kept whole |
| FileNames.CreateFilenameFromSong | ay2ym.cpp:127-142 | the definition, on NUL-free names; FilenameFromSongSpec, FilenameDeterminesSong and FilenameExtensionIsYm state its layout, injectivity and extension |
| FileNames.FilenameFromSongSpec | ay2ym.cpp:127-142 | input, " - ", song and ".ym", in a buffer of exactly that length plus the NUL, so snprintf never truncates |
| FileNames.FilenameDeterminesSong | ay2ym.cpp:127-142 | for one input file, different songs give different names |
| FileNames.FilenameExtensionIsYm | ay2ym.cpp:127-162 | removing the extension of an output name removes ".ym" |
| Driver.ParsePointsDataAndEmulate | ay2ym.cpp:510-532 | nothing happens without a valid points block; otherwise the memory is the trampoline over the loaded image and the output is the song's document, produced whenever the heap holds 64 KB and twice the document |
| Driver.ParseSongData | ay2ym.cpp:535-598 | nothing happens without a record that fits; otherwise the output is the document of a song run for the derived, non-zero length, produced whenever there is a points block and the heap holds 64 KB and twice the document |

## Left out

- The Z80 instruction engine: Z80Emulate, Z80Reset, and the Z80Interrupt call made when a frame threshold is reached. The core is an abstract trace of cycle counts and port accesses.
- The core's own memory writes between port accesses.
- setup_cpu: the stack pointer and hi_reg/lo_reg only seed the CPU registers, which are not modelled.
- File I/O and process plumbing: main, fopen, fseek, fwrite, fclose and free.
- The model does not pass the file name that create_filename_from_song builds on to fopen; the output is returned as bytes.
- append_bytes closes the output file on failure and emulate_song then closes it a second time. Closing is not modelled.
- The tone buffer is not freed when a later append fails. Freeing is not modelled.
- All printf output, dump_memory_range, dump_relative_pointer, and the floating-point seconds in log lines.
- parse_song_structure_table's loop over the songs and main's driving of it. The table itself is modelled by SongTable.
- The misc string is only printed, so it is not modelled.
- Strings are read with read_ntstring up to the next NUL. A string that runs off the end of the file is modelled as stopping at the end of the file; the source reads past the buffer.
- Ym.CaptureQuantum: the tone buffer grows through the append_bytes rule, growing to the larger of the doubled capacity and size + 16, where the source simply doubles it. The two agree because the capacity is always at least 1024.
- Ym.RenderSong: success is guaranteed for a heap of 64 KB and twice the document. That is a sufficient bound, not the exact set of heaps on which every allocation fits. The same holds for Ym.EmulateSong and the two Driver methods.
- Ym.EmulateSong: the allocator model lets each allocation succeed when it fits the heap on its own, so memory already held by the other buffer is not counted against the bound.

## Findings

| source | as written | input that shows it | evidently intended | confidence | as-written member | corrected member |
|---|---|---|---|---|---|---|
| ay2ym.cpp:209-215 | `offset_abs` is size_t, so a negative relative offset wraps, and `offset_abs + length` wraps back below the size | entry at 100 with offset -200, length 200, in a 300-byte file | reject blocks whose data starts before the file | not executed | Loader.NegativeOffsetPassesGuard | Loader.LoadedBlocks |
| ay2ym.cpp:602-614 | the table offset `18 + rel` (line 660) is size_t, so a negative offset wraps past both checks | a 20-byte file, one song, table offset -20 | resolve the table offset like every other relative pointer | not executed | AyFormat.SongTableOffsetCanWrap | AyFormat.SongTable |
| ay2ym.cpp:421 | the three terminating NULs are stored without a capacity check | a 65502-byte song name | append each NUL through append_bytes | not executed | GrowBuffer.TitleFillsInitialBuffer | GrowBuffer.ByteBuffer.Terminate |
| ay2ym.cpp:648-653 | the global author stays NULL when the author pointer is invalid, and emulate_song passes it to strlen | a 44-byte file with author offset 0x7FFF at byte 12, a one-song table at 20, a song record at 24 and a points block at 38 | a placeholder text for an unreadable author | not executed | AyFormat.AuthorCanStayNull | AyFormat.AuthorText |
