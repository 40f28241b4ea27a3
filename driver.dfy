/** The per-song glue: parse_song_data reads the song record and derives the
    song length, and parse_points_data_and_emulate builds the memory image
    and runs emulate_song. The song name and the author (globals in the
    source) are parameters, and so is the trace standing for the Z80 core. */
module Driver {
  import opened Bytes
  import opened Machine
  import Loader
  import opened AyFormat
  import opened Ym

  /** The image after the fill bands and the blocks of the address table
      (when its pointer is valid), before the trampoline goes in. */
  ghost function LoadedImage(file: seq<byte>, addresses: Option<nat>): (img: seq<byte>)
    ensures |img| == MemorySize
  {
    if addresses.None? then Loader.BandImage()
    else Loader.ApplyBlocks(Loader.BandImage(), file, Loader.LoadedBlocks(file, addresses.value))
  }

  /** The capture of a song run for the given song and fade lengths from a
      freshly reset bridge; its frame count fits the header field. */
  ghost function SongRun(trace: seq<Quantum>, songLength: u16, fadeLength: u16, latch: byte, beeper: byte)
    : (c: Capture)
    requires latch < RegisterCount
    ensures |c.frames| < 0x8000_0000
  {
    var s := PortState(ZeroRegisters(), latch, beeper, false);
    SongFrameBound(trace, songLength, fadeLength, s);
    SongCapture(trace, (songLength + fadeLength) * IntTstates, s)
  }

  /** parse_points_data_and_emulate: without a points block in the file
      nothing happens; otherwise the memory becomes the trampoline over the
      loaded image and, when the output could be built, it is the YM6
      document of the captured frames; it is built whenever the heap holds
      the 64 KB start and twice the document. The stack pointer and the
      hi/lo register values only seed the CPU, which is not part of this
      model. */
  method ParsePointsDataAndEmulate(m: Ay2Ym, file: seq<byte>, points: Option<nat>, addresses: Option<nat>,
                                   songLength: u16, fadeLength: u16, title: seq<byte>, author: seq<byte>,
                                   trace: seq<Quantum>, heapLimit: nat)
    returns (ym: Option<seq<byte>>)
    requires m.Valid() && 0 !in title && 0 !in author
    modifies m, m.memory, m.ayRegs
    ensures m.Valid() && m.memory == old(m.memory) && m.ayRegs == old(m.ayRegs)
    ensures ParsePoints(file, points).None? ==>
      ym.None? && m.memory[..] == old(m.memory[..]) && m.View() == old(m.View())
    ensures ParsePoints(file, points).Some? ==>
      var p := ParsePoints(file, points).value;
      var t := Loader.Trampoline(p.init, p.interrupt);
      m.memory[..] == t + LoadedImage(file, addresses)[|t|..]
    ensures var c := SongRun(trace, songLength, fadeLength, old(m.addrLatch), old(m.beeper));
      ym.Some? ==>
        ParsePoints(file, points).Some? && m.View() == c.state &&
        ym.value == YmDocument(|c.frames|, title, author, Flatten(c.frames))
    ensures var c := SongRun(trace, songLength, fadeLength, old(m.addrLatch), old(m.beeper));
      ParsePoints(file, points).Some? && InitialYmCapacity <= heapLimit &&
      2 * |YmDocument(|c.frames|, title, author, Flatten(c.frames))| <= heapLimit ==>
        ym.Some?
  {
    var pts := ParsePoints(file, points);
    if pts.None? {
      return None;
    }
    Loader.FillBands(m.memory);
    Loader.LoadBlocks(m.memory, file, addresses);
    assert m.memory[..] == LoadedImage(file, addresses);
    ghost var loaded := m.memory[..];
    ym := EmulateSong(m, pts.value.init, songLength, fadeLength, pts.value.interrupt, title, author, trace, heapLimit);
    ghost var t := Loader.Trampoline(pts.value.init, pts.value.interrupt);
    assert m.memory[..] == m.memory[..|t|] + m.memory[|t|..];
    assert m.memory[|t|..] == loaded[|t|..];
  }

  /** parse_song_data: a record that does not fit gives nothing; otherwise
      the song length is derived when the record declares none, and the
      points are run with it; with a points block and enough heap the
      document is built. */
  method ParseSongData(m: Ay2Ym, file: seq<byte>, songData: Option<nat>, title: seq<byte>, author: seq<byte>,
                       trace: seq<Quantum>, heapLimit: nat)
    returns (ym: Option<seq<byte>>)
    requires m.Valid() && 0 !in title && 0 !in author
    modifies m, m.memory, m.ayRegs
    ensures m.Valid() && m.memory == old(m.memory) && m.ayRegs == old(m.ayRegs)
    ensures ParseSongRecord(file, songData).None? ==>
      ym.None? && m.memory[..] == old(m.memory[..]) && m.View() == old(m.View())
    ensures ym.Some? ==>
      var r := ParseSongRecord(file, songData).value;
      var length := DerivedSongLength(file, r.songLength, r.addresses);
      var c := SongRun(trace, length, r.fadeLength, old(m.addrLatch), old(m.beeper));
      ParseSongRecord(file, songData).Some? && length != 0 && m.View() == c.state &&
      ym.value == YmDocument(|c.frames|, title, author, Flatten(c.frames))
    ensures ParseSongRecord(file, songData).Some? ==>
      var r := ParseSongRecord(file, songData).value;
      var length := DerivedSongLength(file, r.songLength, r.addresses);
      var c := SongRun(trace, length, r.fadeLength, old(m.addrLatch), old(m.beeper));
      ParsePoints(file, r.points).Some? && InitialYmCapacity <= heapLimit &&
      2 * |YmDocument(|c.frames|, title, author, Flatten(c.frames))| <= heapLimit ==>
        ym.Some?
  {
    var record := ParseSongRecord(file, songData);
    if record.None? {
      return None;
    }
    var r := record.value;
    var songLength := DeriveSongLength(file, r.songLength, r.addresses);
    DerivedSongLengthCases(file, r.songLength, r.addresses);
    ym := ParsePointsDataAndEmulate(m, file, r.points, r.addresses, songLength, r.fadeLength,
                                    title, author, trace, heapLimit);
  }
}
