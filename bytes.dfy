/** Byte-level vocabulary of the converter: the bounded integer types of the C
    source, C's wrapping size_t arithmetic, the big-endian field codec and the
    signed 16-bit relative pointers of the AY container. */
module Bytes {

  datatype Option<T> = None | Some(value: T)

  type byte = b: int | 0 <= b < 0x100
  type u16 = w: int | 0 <= w < 0x1_0000
  type u32 = w: int | 0 <= w < 0x1_0000_0000
  type i16 = w: int | -0x8000 <= w < 0x8000
  type i32 = w: int | -0x8000_0000 <= w < 0x8000_0000

  /** The Z80 address space: 64 KB. */
  const MemorySize: int := 0x1_0000

  /** size_t is 64 bits wide; its arithmetic wraps modulo 2^64. */
  const SizeModulus: int := 0x1_0000_0000_0000_0000
  const SizeMax: int := SizeModulus - 1

  /** The size_t value of a mathematical integer (a C conversion to size_t). */
  function SizeT(x: int): nat
  {
    x % SizeModulus
  }

  lemma ConcatAssoc<T>(a: seq<T>, b: seq<T>, c: seq<T>)
    ensures a + b + c == a + (b + c)
  {
  }

  /** The bytes of an ASCII literal of the source (each character's code
      taken modulo 256; every literal of the source is plain ASCII). */
  function Ascii(s: string): (r: seq<byte>)
    ensures |r| == |s|
    ensures forall i | 0 <= i < |s| :: r[i] == s[i] as int % 0x100
  {
    seq(|s|, i requires 0 <= i < |s| => s[i] as int % 0x100)
  }

  /** read_be16u: the two bytes at `i`, most significant first. */
  function ReadBe16U(s: seq<byte>, i: nat): (w: u16)
    requires i + 2 <= |s|
    ensures w / 0x100 == s[i] && w % 0x100 == s[i + 1]
  {
    s[i] as int * 0x100 + s[i + 1]
  }

  /** read_be16s: the two's-complement reading of the same two bytes. */
  function ReadBe16S(s: seq<byte>, i: nat): (r: i16)
    requires i + 2 <= |s|
    ensures (r - ReadBe16U(s, i)) % 0x1_0000 == 0
    ensures r < 0 <==> s[i] >= 0x80
  {
    var u := ReadBe16U(s, i);
    if u < 0x8000 then u else u - 0x1_0000
  }

  /** pack_uint16_be: most significant byte first. */
  function PackU16Be(v: u16): (out: seq<byte>)
    ensures |out| == 2
    ensures out[0] as int * 0x100 + out[1] == v
  {
    [v / 0x100, v % 0x100]
  }

  /** pack_uint32_be: most significant byte first. */
  function PackU32Be(v: u32): (out: seq<byte>)
    ensures |out| == 4
    ensures out[0] as int * 0x100_0000 + out[1] as int * 0x1_0000 + out[2] as int * 0x100 + out[3] == v
  {
    var out := [v / 0x100_0000, (v / 0x1_0000) % 0x100, (v / 0x100) % 0x100, v % 0x100];
    ByteDecomposition(v);
    out
  }

  lemma ByteDecomposition(v: u32)
    ensures v == (v / 0x100_0000) * 0x100_0000 + ((v / 0x1_0000) % 0x100) * 0x1_0000
                 + ((v / 0x100) % 0x100) * 0x100 + v % 0x100
  {
    var q1 := v / 0x100;
    var q2 := q1 / 0x100;
    var q3 := q2 / 0x100;
    assert v == q1 * 0x100 + v % 0x100;
    assert q1 == q2 * 0x100 + q1 % 0x100;
    assert q2 == q3 * 0x100 + q2 % 0x100;
    assert q2 == v / 0x1_0000;
    assert q3 == v / 0x100_0000;
  }

  /** The value of four big-endian bytes: the reading that PackU32Be inverts. */
  function ReadBe32(s: seq<byte>, i: nat): u32
    requires i + 4 <= |s|
  {
    s[i] as int * 0x100_0000 + s[i + 1] as int * 0x1_0000 + s[i + 2] as int * 0x100 + s[i + 3]
  }

  lemma ReadPackU16(v: u16)
    ensures ReadBe16U(PackU16Be(v), 0) == v
  {
  }

  /** Packing a value that was read reproduces the two bytes read. */
  lemma PackReadU16(s: seq<byte>, i: nat)
    requires i + 2 <= |s|
    ensures PackU16Be(ReadBe16U(s, i)) == s[i..i + 2]
  {
  }

  lemma ReadPackU32(v: u32)
    ensures ReadBe32(PackU32Be(v), 0) == v
  {
  }

  lemma PackReadU32(s: seq<byte>, i: nat)
    requires i + 4 <= |s|
    ensures PackU32Be(ReadBe32(s, i)) == s[i..i + 4]
  {
    var v := ReadBe32(s, i);
    assert v / 0x100_0000 == s[i];
    assert v / 0x100 == s[i] as int * 0x1_0000 + s[i + 1] as int * 0x100 + s[i + 2];
    assert v / 0x1_0000 == s[i] as int * 0x100 + s[i + 1];
  }

  /** resolve_rel_pointer: the field at `pos` holds a signed offset relative
      to `pos`; SIZE_MAX (here None) when the field does not fit in the file
      or the target falls outside [0, |file|). */
  function ResolveRelPointer(file: seq<byte>, pos: nat): (r: Option<nat>)
  {
    if pos + 2 > |file| then None
    else
      var target := pos + ReadBe16S(file, pos);
      if 0 <= target < |file| then Some(target) else None
  }

  /** The two bytes that make the field at `pos` point at `target`: the
      encoding that ResolveRelPointer decodes. */
  function EncodeRelPointer(pos: nat, target: nat): (field: seq<byte>)
    requires -0x8000 <= target - pos < 0x8000
    ensures |field| == 2
  {
    PackU16Be((target - pos) % 0x1_0000)
  }

  /** The contract of resolve_rel_pointer, both directions, case by case: a
      reading aid for the definition. Its independent partner is the encoder
      EncodeRelPointer, with the round trips ResolveEncoded and
      ResolvedIsEncoded below. */
  lemma ResolveRelPointerSpec(file: seq<byte>, pos: nat)
    ensures pos + 2 > |file| ==> ResolveRelPointer(file, pos) == None
    ensures pos + 2 <= |file| ==>
      (ResolveRelPointer(file, pos).Some? <==> 0 <= pos + ReadBe16S(file, pos) < |file|)
    ensures ResolveRelPointer(file, pos).Some? ==>
      ResolveRelPointer(file, pos).value == pos + ReadBe16S(file, pos) < |file|
  {
  }

  /** A field written by EncodeRelPointer resolves to its target. */
  lemma ResolveEncoded(file: seq<byte>, pos: nat, target: nat)
    requires pos + 2 <= |file| && target < |file|
    requires -0x8000 <= target - pos < 0x8000
    requires file[pos..pos + 2] == EncodeRelPointer(pos, target)
    ensures ResolveRelPointer(file, pos) == Some(target)
  {
    var field := EncodeRelPointer(pos, target);
    assert file[pos] == field[0] && file[pos + 1] == field[1];
    assert ReadBe16U(file, pos) == (target - pos) % 0x1_0000;
  }

  /** Every resolved field is the encoding of its target. */
  lemma ResolvedIsEncoded(file: seq<byte>, pos: nat)
    requires ResolveRelPointer(file, pos).Some?
    ensures -0x8000 <= ResolveRelPointer(file, pos).value - pos < 0x8000
    ensures file[pos..pos + 2] == EncodeRelPointer(pos, ResolveRelPointer(file, pos).value)
  {
    var target := ResolveRelPointer(file, pos).value;
    var u := ReadBe16U(file, pos);
    assert (target - pos) % 0x1_0000 == u;
    PackReadU16(file, pos);
  }
}
