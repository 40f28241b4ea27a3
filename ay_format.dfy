/** Decoding of the AY container: the header, the song structure table, the
    14-byte song records, the points block, NUL-terminated strings and the
    derivation of a song length the record leaves at zero. */
module AyFormat {
  import opened Bytes

  const HeaderSize: int := 20
  /** Placeholder text the source uses for a string it cannot locate. */
  const InvalidText: string := "(invalid)"

  // ---------------------------------------------------------------------
  // NUL-terminated strings

  /** The bytes of `s` up to its first NUL; all of `s` when it has none. */
  function TakeUntilNul(s: seq<byte>): (r: seq<byte>)
    ensures r <= s
    ensures forall i | 0 <= i < |r| :: r[i] != 0
    ensures |r| < |s| ==> s[|r|] == 0
  {
    if s == [] || s[0] == 0 then [] else [s[0]] + TakeUntilNul(s[1..])
  }

  /** read_ntstring: the string at `offset`, or the placeholder when the
      offset is outside the file. */
  function ReadNtString(file: seq<byte>, offset: nat): (r: seq<byte>)
    ensures forall i | 0 <= i < |r| :: r[i] != 0
    ensures offset < |file| ==> offset + |r| <= |file| && r == file[offset..offset + |r|]
    ensures offset < |file| && offset + |r| < |file| ==> file[offset + |r|] == 0
    ensures offset >= |file| ==> r == Ascii(InvalidText)
  {
    if offset >= |file| then Ascii(InvalidText) else TakeUntilNul(file[offset..])
  }

  // ---------------------------------------------------------------------
  // Header

  datatype AyHeader = AyHeader(
    fileVersion: byte, playerVersion: byte,
    specialPlayerRel: i16, authorRel: i16, miscRel: i16,
    numSongs: byte, firstSong: byte, songStructuresRel: i16)

  /** The fixed fields of parse_ay_file; a file shorter than 20 bytes is
      rejected as a whole. */
  function ParseHeader(file: seq<byte>): (h: Option<AyHeader>)
    ensures h.Some? <==> |file| >= HeaderSize
  {
    if |file| < HeaderSize then None
    else Some(AyHeader(file[8], file[9], ReadBe16S(file, 10), ReadBe16S(file, 12),
                       ReadBe16S(file, 14), file[16], file[17], ReadBe16S(file, 18)))
  }

  /** p_author_abs and p_misc_abs: a fixed anchor plus the signed offset,
      converted to size_t, accepted when below the file size. */
  function AnchoredOffset(file: seq<byte>, anchor: nat, rel: i16): Option<nat>
  {
    var p := SizeT(anchor + rel);
    if p < |file| then Some(p) else None
  }

  function AuthorOffset(file: seq<byte>, h: AyHeader): Option<nat>
  {
    AnchoredOffset(file, 12, h.authorRel)
  }

  function MiscOffset(file: seq<byte>, h: AyHeader): Option<nat>
  {
    AnchoredOffset(file, 14, h.miscRel)
  }

  /** The size_t check of a fixed-anchor pointer matches resolve_rel_pointer
      at that field: a negative target wraps to a value no file reaches. */
  lemma AnchoredOffsetIsRelPointer(file: seq<byte>, anchor: nat)
    requires anchor + 2 <= |file| && |file| < SizeModulus / 2 && anchor < 0x8000
    ensures AnchoredOffset(file, anchor, ReadBe16S(file, anchor)) == ResolveRelPointer(file, anchor)
  {
    var rel := ReadBe16S(file, anchor);
    if anchor + rel < 0 {
      assert SizeT(anchor + rel) == anchor + rel + SizeModulus;
    } else {
      assert SizeT(anchor + rel) == anchor + rel;
    }
  }

  /** The header's author and misc pointers, though written with the fixed
      anchors 12 and 14, are the relative pointers of the fields at 12 and 14. */
  lemma HeaderAnchorsAreFieldPositions(file: seq<byte>)
    requires HeaderSize <= |file| < SizeModulus / 2
    ensures AuthorOffset(file, ParseHeader(file).value) == ResolveRelPointer(file, 12)
    ensures MiscOffset(file, ParseHeader(file).value) == ResolveRelPointer(file, 14)
  {
    AnchoredOffsetIsRelPointer(file, 12);
    AnchoredOffsetIsRelPointer(file, 14);
  }

  /** The global `author` as written: NULL until a valid author pointer is
      found, and emulate_song passes it to strlen unchecked. */
  function AuthorAsWritten(file: seq<byte>, h: AyHeader): Option<seq<byte>>
  {
    match AuthorOffset(file, h)
    case Some(p) => Some(ReadNtString(file, p))
    case None => None
  }

  /** A 44-byte file whose author offset (0x7FFF at byte 12) points past its
      end, with one song: the table at 20 (offset 2 at byte 18), whose entry
      names the empty string at 20 and points at the record at 24 (offset 2
      at byte 22); the record's points field at 34 points at the six zero
      bytes at 38 (offset 4). */
  function AuthorNullFile(): seq<byte>
  {
    [0, 0, 0, 0, 0, 0, 0, 0, 0, 0, 0, 0, 0x7F, 0xFF, 0, 0, 0, 0, 0, 2,   // header
     0, 0, 0, 2,                                                         // song table
     0, 0, 0, 0, 0, 0, 0, 0, 0, 0, 0, 4, 0, 0,                           // song record
     0, 0, 0, 0, 0, 0]                                                   // points
  }

  /** The header of that file: the author pointer is invalid, there is one
      song, and the table sits at 20. */
  lemma AuthorNullFileHeader()
    ensures var file := AuthorNullFile();
      ParseHeader(file).Some? && AuthorAsWritten(file, ParseHeader(file).value).None? &&
      ParseHeader(file).value.numSongs == 0 && ResolveRelPointer(file, 18) == Some(20)
  {
    var file := AuthorNullFile();
    assert |file| == 44;
    assert file[12] == 0x7F && file[13] == 0xFF && file[16] == 0 && file[18] == 0 && file[19] == 2;
    var h := ParseHeader(file).value;
    assert h.authorRel == 0x7FFF && h.numSongs == 0;
    assert AuthorOffset(file, h) == None;
  }

  /** The song table of that file: one entry, naming the string at 20 and
      pointing at the record at 24. */
  lemma AuthorNullFileTable()
    ensures SongTable(AuthorNullFile(), ParseHeader(AuthorNullFile()).value) == Some([SongEntry(Some(20), Some(24))])
  {
    AuthorNullFileHeader();
    OneSongTable(AuthorNullFile(), ParseHeader(AuthorNullFile()).value, 20);
    AuthorNullFileEntry();
  }

  /** The two pointers of that file's table entry. */
  lemma AuthorNullFileEntry()
    ensures ResolveRelPointer(AuthorNullFile(), 20) == Some(20)
    ensures ResolveRelPointer(AuthorNullFile(), 22) == Some(24)
  {
    var file := AuthorNullFile();
    assert |file| == 44 && file[20] == 0 && file[21] == 0 && file[22] == 0 && file[23] == 2;
  }

  /** A table of one song that fits in the file is its one entry. */
  lemma OneSongTable(file: seq<byte>, h: AyHeader, t: nat)
    requires ResolveRelPointer(file, 18) == Some(t) && h.numSongs == 0 && t + 4 <= |file|
    ensures SongTable(file, h) == Some([SongEntry(ResolveRelPointer(file, t), ResolveRelPointer(file, t + 2))])
  {
    var entries := SongTable(file, h).value;
    assert |entries| == 1;
    assert entries[0] == SongEntry(ResolveRelPointer(file, t + 4 * 0), ResolveRelPointer(file, t + 4 * 0 + 2));
    assert entries == [entries[0]];
  }

  /** The song record of that file and its points block. */
  lemma AuthorNullFileSong()
    ensures var file := AuthorNullFile();
      ParseSongRecord(file, Some(24)).Some? &&
      ParsePoints(file, ParseSongRecord(file, Some(24)).value.points) == Some(Points(0, 0, 0))
  {
    var file := AuthorNullFile();
    assert |file| == 44;
    assert file[34] == 0 && file[35] == 4;
    assert file[38] == 0 && file[39] == 0 && file[40] == 0 && file[41] == 0 && file[42] == 0 && file[43] == 0;
    var r := ParseSongRecord(file, Some(24)).value;
    assert r.points == ResolveRelPointer(file, 34) == Some(38);
    assert ParsePoints(file, Some(38)) == Some(Points(0, 0, 0));
  }

  /** That file leaves the author NULL, yet its one song has a record and a
      points block, so it is emulated and the NULL author reaches strlen. */
  lemma AuthorCanStayNull()
    ensures var file := AuthorNullFile();
      ParseHeader(file).Some? && AuthorAsWritten(file, ParseHeader(file).value).None? &&
      SongTable(file, ParseHeader(file).value) == Some([SongEntry(Some(20), Some(24))]) &&
      ParseSongRecord(file, Some(24)).Some? &&
      ParsePoints(file, ParseSongRecord(file, Some(24)).value.points) == Some(Points(0, 0, 0))
  {
    AuthorNullFileHeader();
    AuthorNullFileTable();
    AuthorNullFileSong();
  }

  /** The author text: the string at the author pointer, or the placeholder
      used for unreadable song names when the pointer is invalid. */
  function AuthorText(file: seq<byte>, h: AyHeader): (r: seq<byte>)
    ensures forall i | 0 <= i < |r| :: r[i] != 0
    ensures AuthorAsWritten(file, h).Some? ==> r == AuthorAsWritten(file, h).value
    ensures AuthorAsWritten(file, h).None? ==> r == Ascii(InvalidText)
  {
    match AuthorAsWritten(file, h)
    case Some(s) => s
    case None => Ascii(InvalidText)
  }

  // ---------------------------------------------------------------------
  // Song structure table

  /** One entry of the song structure table: the song's name and record. */
  datatype SongEntry = SongEntry(name: Option<nat>, data: Option<nat>)

  /** p_song_structures_abs as written: 18 plus the offset, as size_t. */
  function SongTableOffsetAsWritten(h: AyHeader): nat
  {
    SizeT(18 + h.songStructuresRel)
  }

  /** The checks of parse_song_structure_table as written, in size_t. */
  predicate SongTableGuardAsWritten(tableOffset: nat, numSongs: nat, size: nat)
  {
    tableOffset != SizeMax && !(SizeT(tableOffset + 4 * (numSongs + 1)) > size)
  }

  /** The first check of resolve_rel_pointer as written, in size_t. */
  predicate PointerGuardAsWritten(pos: nat, size: nat)
  {
    !(SizeT(pos + 2) > size)
  }

  /** With a table offset of -20 in a 20-byte file of one song, the table
      position wraps to 2^64 - 2: both checks pass and the first entry is read
      from two bytes before the file. */
  lemma SongTableOffsetCanWrap()
    ensures var tableOffset := SizeT(18 + (-20));
      tableOffset == SizeModulus - 2 &&
      SongTableGuardAsWritten(tableOffset, 0, HeaderSize) &&
      PointerGuardAsWritten(tableOffset, HeaderSize) &&
      tableOffset >= HeaderSize
  {
  }

  /** The song structure table, with its position resolved like every other
      relative pointer: absent when the position or the numSongs + 1 entries
      of four bytes do not fit in the file; each entry's two pointers are
      anchored at their own field positions. */
  function SongTable(file: seq<byte>, h: AyHeader): (entries: Option<seq<SongEntry>>)
    ensures entries.Some? ==> |entries.value| == h.numSongs + 1
  {
    match ResolveRelPointer(file, 18)
    case None => None
    case Some(t) =>
      if t + 4 * (h.numSongs + 1) > |file| then None
      else Some(seq(h.numSongs + 1, i requires 0 <= i <= h.numSongs =>
        SongEntry(ResolveRelPointer(file, t + 4 * i), ResolveRelPointer(file, t + 4 * i + 2))))
  }

  /** Every field of an accepted table lies inside the file, and the table
      offset is the relative pointer of the field at 18. */
  lemma SongTableInsideFile(file: seq<byte>, h: AyHeader)
    requires SongTable(file, h).Some?
    ensures ResolveRelPointer(file, 18).Some?
    ensures var t := ResolveRelPointer(file, 18).value;
      t == 18 + ReadBe16S(file, 18) &&
      forall i | 0 <= i <= h.numSongs :: 0 <= t + 4 * i && t + 4 * i + 4 <= |file|
  {
  }

  /** Entry i of an accepted table holds the two relative pointers of the
      four bytes at t + 4i: the name field at t + 4i and the data field at
      t + 4i + 2, each present exactly when its target lies inside the file. */
  lemma SongTableEntries(file: seq<byte>, h: AyHeader)
    requires SongTable(file, h).Some?
    ensures ResolveRelPointer(file, 18).Some?
    ensures var t := ResolveRelPointer(file, 18).value;
      forall i | 0 <= i <= h.numSongs ::
        t + 4 * i + 4 <= |file| &&
        var e := SongTable(file, h).value[i];
        (e.name.Some? <==> 0 <= t + 4 * i + ReadBe16S(file, t + 4 * i) < |file|) &&
        (e.name.Some? ==> e.name.value == t + 4 * i + ReadBe16S(file, t + 4 * i)) &&
        (e.data.Some? <==> 0 <= t + 4 * i + 2 + ReadBe16S(file, t + 4 * i + 2) < |file|) &&
        (e.data.Some? ==> e.data.value == t + 4 * i + 2 + ReadBe16S(file, t + 4 * i + 2))
  {
  }

  /** Where the table offset does not go below the file start, the checks as
      written accept exactly the tables SongTable accepts. */
  lemma SongTableGuardAgrees(file: seq<byte>)
    requires HeaderSize <= |file| < SizeModulus / 2
    requires 0 <= 18 + ReadBe16S(file, 18)
    ensures var h := ParseHeader(file).value;
      SongTableGuardAsWritten(SongTableOffsetAsWritten(h), h.numSongs, |file|) <==> SongTable(file, h).Some?
  {
  }

  // ---------------------------------------------------------------------
  // Song records

  datatype SongRecord = SongRecord(
    aChan: byte, bChan: byte, cChan: byte, noise: byte,
    songLength: u16, fadeLength: u16, hiReg: byte, loReg: byte,
    points: Option<nat>, addresses: Option<nat>)

  /** The 14-byte record parse_song_data reads; absent when the record
      pointer is invalid or the record does not fit. */
  function ParseSongRecord(file: seq<byte>, offset: Option<nat>): (r: Option<SongRecord>)
    ensures r.Some? <==> offset.Some? && offset.value + 14 <= |file|
  {
    if offset.None? || offset.value + 14 > |file| then None
    else
      var o := offset.value;
      Some(SongRecord(file[o], file[o + 1], file[o + 2], file[o + 3],
                      ReadBe16U(file, o + 4), ReadBe16U(file, o + 6), file[o + 8], file[o + 9],
                      ResolveRelPointer(file, o + 10), ResolveRelPointer(file, o + 12)))
  }

  /** The record's two pointers are anchored at their own field positions. */
  lemma SongRecordPointers(file: seq<byte>, offset: nat)
    requires offset + 14 <= |file|
    ensures var r := ParseSongRecord(file, Some(offset)).value;
      (r.points.Some? <==> 0 <= offset + 10 + ReadBe16S(file, offset + 10) < |file|) &&
      (r.points.Some? ==> r.points.value == offset + 10 + ReadBe16S(file, offset + 10)) &&
      (r.addresses.Some? <==> 0 <= offset + 12 + ReadBe16S(file, offset + 12) < |file|) &&
      (r.addresses.Some? ==> r.addresses.value == offset + 12 + ReadBe16S(file, offset + 12))
  {
  }

  datatype Points = Points(stack: u16, init: u16, interrupt: u16)

  /** The points block of parse_points_data_and_emulate. */
  function ParsePoints(file: seq<byte>, p: Option<nat>): (r: Option<Points>)
    ensures r.Some? <==> p.Some? && p.value + 6 <= |file|
  {
    if p.None? || p.value + 6 > |file| then None
    else Some(Points(ReadBe16U(file, p.value), ReadBe16U(file, p.value + 2), ReadBe16U(file, p.value + 4)))
  }

  // ---------------------------------------------------------------------
  // Song length derivation

  const MaxWordCount: int := 15000
  const MinDerivedLength: int := 100
  const DefaultSongLength: u16 := 15000

  /** The counting loop of parse_song_data from `count` on: words are read
      while a whole word lies before the end of the file, counting stops at a
      zero word, and the count is abandoned once it passes 15000. */
  function AddressWordCount(file: seq<byte>, p: nat, count: nat): (c: nat)
    requires count <= MaxWordCount
    ensures count <= c <= MaxWordCount + 1
    decreases MaxWordCount - count
  {
    if p + 2 * count + 1 >= |file| then count
    else if ReadBe16U(file, p + 2 * count) == 0 then count
    else if count + 1 > MaxWordCount then count + 1
    else AddressWordCount(file, p, count + 1)
  }

  /** What the count means: every counted word is inside the file and
      non-zero, and below the cap the next word is zero or missing. */
  lemma {:induction false} AddressWordCountMeaning(file: seq<byte>, p: nat, count: nat)
    requires count <= MaxWordCount
    ensures var c := AddressWordCount(file, p, count);
      (forall k | count <= k < c :: p + 2 * k + 2 <= |file| && ReadBe16U(file, p + 2 * k) != 0) &&
      (c <= MaxWordCount ==> p + 2 * c + 2 > |file| || ReadBe16U(file, p + 2 * c) == 0)
    decreases MaxWordCount - count
  {
    var c := AddressWordCount(file, p, count);
    if p + 2 * count + 1 < |file| && ReadBe16U(file, p + 2 * count) != 0 && count + 1 <= MaxWordCount {
      assert c == AddressWordCount(file, p, count + 1);
      AddressWordCountMeaning(file, p, count + 1);
      assert p + 2 * count + 2 <= |file| && ReadBe16U(file, p + 2 * count) != 0;
    } else if p + 2 * count + 1 < |file| && ReadBe16U(file, p + 2 * count) != 0 {
      assert c == count + 1 > MaxWordCount;
    } else {
      assert c == count;
    }
  }

  /** The conversion to uint16_t with the UINT16_MAX clamp. */
  function Saturate16(c: nat): u16
  {
    if c > 0xFFFF then 0xFFFF else c
  }

  /** The song length parse_song_data passes on. */
  function DerivedSongLength(file: seq<byte>, declared: u16, addresses: Option<nat>): u16
  {
    if declared != 0 then declared
    else if addresses.None? then DefaultSongLength
    else
      var c := AddressWordCount(file, addresses.value, 0);
      if c >= MinDerivedLength then Saturate16(c) else DefaultSongLength
  }

  /** The derived length is never zero: a declared length is kept, a count of
      at least 100 words is adopted as is (the UINT16_MAX clamp never fires,
      since the count is at most 15001), and otherwise the length is 15000. */
  lemma DerivedSongLengthCases(file: seq<byte>, declared: u16, addresses: Option<nat>)
    ensures DerivedSongLength(file, declared, addresses) != 0
    ensures declared != 0 ==> DerivedSongLength(file, declared, addresses) == declared
    ensures declared == 0 && addresses.None? ==> DerivedSongLength(file, declared, addresses) == 15000
    ensures declared == 0 && addresses.Some? ==>
      var c := AddressWordCount(file, addresses.value, 0);
      DerivedSongLength(file, declared, addresses) == (if c >= 100 then c else 15000)
    ensures declared == 0 ==> 100 <= DerivedSongLength(file, declared, addresses) <= 15001
  {
  }

  /** The counting loop of parse_song_data. */
  method CountAddressWords(file: seq<byte>, p: nat) returns (count: nat)
    ensures count == AddressWordCount(file, p, 0)
  {
    count := 0;
    while p + 2 * count + 1 < |file|
      invariant count <= MaxWordCount
      invariant AddressWordCount(file, p, count) == AddressWordCount(file, p, 0)
      decreases |file| - 2 * count
    {
      var addr := ReadBe16U(file, p + 2 * count);
      if addr == 0 {
        assert AddressWordCount(file, p, count) == count;
        return;
      }
      count := count + 1;
      if count > MaxWordCount {
        assert AddressWordCount(file, p, count - 1) == count;
        return;
      }
      assert AddressWordCount(file, p, count - 1) == AddressWordCount(file, p, count);
    }
    assert AddressWordCount(file, p, count) == count;
  }

  /** The derivation as parse_song_data runs it. */
  method DeriveSongLength(file: seq<byte>, declared: u16, addresses: Option<nat>) returns (length: u16)
    ensures length == DerivedSongLength(file, declared, addresses)
  {
    length := declared;
    if length == 0 {
      if addresses.Some? {
        var count := CountAddressWords(file, addresses.value);
        if count >= MinDerivedLength {
          length := Saturate16(count);
        } else {
          length := DefaultSongLength;
        }
      } else {
        length := DefaultSongLength;
      }
    }
  }
}
