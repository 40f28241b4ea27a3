/** The two string helpers that name the output file. Strings are the bytes
    of a C string before its terminating NUL; None stands for a NULL pointer.
    The allocator is a parameter, as in GrowBuffer: malloc (or strdup) of n
    bytes succeeds exactly when n <= heapLimit. */
module FileNames {
  import opened Bytes

  const Dot: byte := 0x2E
  const Separator: seq<byte> := [0x20, 0x2D, 0x20]  // " - "
  const YmSuffix: seq<byte> := [0x2E, 0x79, 0x6D]   // ".ym"

  /** strrchr(s, '.'): the index of the last dot, if there is one. */
  function LastDot(s: seq<byte>): (r: Option<nat>)
    ensures r.Some? ==> r.value < |s| && s[r.value] == Dot
    ensures r.Some? ==> forall j | r.value < j < |s| :: s[j] != Dot
    ensures r.None? ==> forall j | 0 <= j < |s| :: s[j] != Dot
    decreases |s|
  {
    if s == [] then None
    else if s[|s| - 1] == Dot then Some(|s| - 1)
    else LastDot(s[..|s| - 1])
  }

  /** remove_file_extension: the name up to its last dot; the whole name
      when it has no dot or its last dot is the first character. None
      when the copy cannot be allocated. */
  function RemoveFileExtension(name: seq<byte>, heapLimit: nat): (r: Option<seq<byte>>)
    requires 0 !in name
  {
    var dot := LastDot(name);
    if dot.None? || dot.value == 0 then
      if |name| + 1 <= heapLimit then Some(name) else None
    else
      if dot.value + 1 <= heapLimit then Some(name[..dot.value]) else None
  }

  /** What remove_file_extension keeps: a prefix of the name that either is
      the whole name (no dot, or a leading dot only) or stops right before
      the last dot, which is not the first character. */
  lemma RemoveFileExtensionSpec(name: seq<byte>, heapLimit: nat)
    requires 0 !in name
    ensures var r := RemoveFileExtension(name, heapLimit);
      r.Some? ==> |r.value| <= |name| && r.value == name[..|r.value|]
    ensures var r := RemoveFileExtension(name, heapLimit);
      r.Some? && |r.value| < |name| ==>
        0 < |r.value| && name[|r.value|] == Dot &&
        forall j | |r.value| < j < |name| :: name[j] != Dot
    ensures var r := RemoveFileExtension(name, heapLimit);
      r.Some? && |r.value| == |name| ==>
        forall j | 0 < j < |name| :: name[j] != Dot
    ensures RemoveFileExtension(name, heapLimit).None? <==>
      heapLimit < (if LastDot(name).None? || LastDot(name).value == 0 then |name| + 1 else LastDot(name).value + 1)
  {
  }

  /** A name with a non-empty base and a dot-free extension loses exactly
      the extension. */
  lemma {:induction false} RemoveExtensionOfJoin(base: seq<byte>, ext: seq<byte>, heapLimit: nat)
    requires 0 !in base && 0 !in ext
    requires base != [] && Dot !in ext && |base| + 1 <= heapLimit
    ensures RemoveFileExtension(base + [Dot] + ext, heapLimit) == Some(base)
  {
    var name := base + [Dot] + ext;
    assert name[|base|] == Dot;
    forall j | |base| < j < |name|
      ensures name[j] != Dot
    {
      assert name[j] == ext[j - |base| - 1];
    }
    assert LastDot(name) == Some(|base|);
    assert name[..|base|] == base;
  }

  /** A name without dots is kept whole. */
  lemma RemoveExtensionWithoutDot(name: seq<byte>, heapLimit: nat)
    requires 0 !in name
    requires Dot !in name && |name| + 1 <= heapLimit
    ensures RemoveFileExtension(name, heapLimit) == Some(name)
  {
    forall j | 0 <= j < |name|
      ensures name[j] != Dot
    {
      assert name[j] in name;
    }
  }

  /** create_filename_from_song: "<input> - <song>.ym", or None for a NULL
      argument or a failed malloc of the exact length plus the NUL. */
  function CreateFilenameFromSong(input: Option<seq<byte>>, song: Option<seq<byte>>, heapLimit: nat)
    : (r: Option<seq<byte>>)
    requires input.Some? ==> 0 !in input.value
    requires song.Some? ==> 0 !in song.value
  {
    if input.None? || song.None? then None
    else if |input.value| + 3 + |song.value| + 3 + 1 > heapLimit then None
    else Some(input.value + Separator + song.value + YmSuffix)
  }

  /** The buffer is sized so that snprintf never truncates: the formatted
      name plus its NUL is exactly the allocation; the song name sits
      between the separator and the suffix and can be read back. */
  lemma FilenameFromSongSpec(input: seq<byte>, song: seq<byte>, heapLimit: nat)
    requires 0 !in input && 0 !in song
    ensures var r := CreateFilenameFromSong(Some(input), Some(song), heapLimit);
      r.Some? <==> |input| + |song| + 7 <= heapLimit
    ensures var r := CreateFilenameFromSong(Some(input), Some(song), heapLimit);
      r.Some? ==>
        |r.value| + 1 == |input| + 3 + |song| + 3 + 1 &&
        r.value[..|input|] == input &&
        r.value[|input|..|input| + 3] == Separator &&
        r.value[|input| + 3..|r.value| - 3] == song &&
        r.value[|r.value| - 3..] == YmSuffix
  {
  }

  /** For one input file, different songs get different file names. */
  lemma FilenameDeterminesSong(input: seq<byte>, song1: seq<byte>, song2: seq<byte>, heapLimit: nat)
    requires 0 !in input && 0 !in song1 && 0 !in song2
    requires CreateFilenameFromSong(Some(input), Some(song1), heapLimit).Some?
    requires CreateFilenameFromSong(Some(input), Some(song1), heapLimit) ==
             CreateFilenameFromSong(Some(input), Some(song2), heapLimit)
    ensures song1 == song2
  {
    FilenameFromSongSpec(input, song1, heapLimit);
    FilenameFromSongSpec(input, song2, heapLimit);
  }

  /** The output name drops the ".ym" suffix again as its extension:
      remove_file_extension undoes the suffix. */
  lemma FilenameExtensionIsYm(input: seq<byte>, song: seq<byte>, heapLimit: nat)
    requires 0 !in input && 0 !in song
    requires |input| + |song| + 7 <= heapLimit
    ensures var r := CreateFilenameFromSong(Some(input), Some(song), heapLimit);
      r.Some? && RemoveFileExtension(r.value, heapLimit) == Some(input + Separator + song)
  {
    var base := input + Separator + song;
    assert CreateFilenameFromSong(Some(input), Some(song), heapLimit).value == base + [Dot] + [0x79, 0x6D];
    RemoveExtensionOfJoin(base, [0x79, 0x6D], heapLimit);
  }
}
