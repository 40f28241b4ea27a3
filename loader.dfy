/** Construction of the 64 KB memory image for one song: the three fill bands
    with EI at 0x38, the blocks of the song's address table, and the trampoline
    at address 0 that calls the song's init (and interrupt) routine. */
module Loader {
  import opened Bytes


  /** The byte at address `a` after the fill of parse_points_data_and_emulate:
      RET below 0x100 except EI at 0x38, RST 38h up to 0x3FFF, zero above. */
  function BandByte(a: nat): byte
  {
    if a == 0x38 then 0xFB
    else if a < 0x100 then 0xC9
    else if a < 0x4000 then 0xFF
    else 0x00
  }

  /** The fill as a whole image. */
  function BandImage(): (img: seq<byte>)
    ensures |img| == MemorySize
    ensures forall a | 0 <= a < MemorySize :: img[a] == BandByte(a)
  {
    seq(MemorySize, a requires 0 <= a => BandByte(a))
  }

  /** memset over [start, start + count). */
  method Fill(mem: array<byte>, start: nat, count: nat, value: byte)
    requires start + count <= mem.Length
    modifies mem
    ensures forall a | start <= a < start + count :: mem[a] == value
    ensures forall a | 0 <= a < mem.Length && !(start <= a < start + count) :: mem[a] == old(mem[a])
  {
    forall a | start <= a < start + count {
      mem[a] := value;
    }
  }

  /** The three memsets and the EI poke. */
  method FillBands(mem: array<byte>)
    requires mem.Length == MemorySize
    modifies mem
    ensures mem[..] == BandImage()
  {
    Fill(mem, 0x0000, 0x0100, 0xC9);
    Fill(mem, 0x0100, 0x3F00, 0xFF);
    Fill(mem, 0x4000, 0xC000, 0x00);
    mem[0x0038] := 0xFB;
    assert forall a | 0 <= a < MemorySize :: mem[a] == BandByte(a);
  }

  /** The fill, stated band by band: a case-by-case reading aid for
      BandImage. Its independent partner is the method FillBands, which
      fills the memory array with three Fill calls and the EI poke, and proves it
      equal to BandImage. */
  lemma BandLayout(a: nat)
    requires a < MemorySize
    ensures BandImage()[a] == 0xFB <==> a == 0x38
    ensures a < 0x100 && a != 0x38 ==> BandImage()[a] == 0xC9
    ensures 0x100 <= a < 0x4000 ==> BandImage()[a] == 0xFF
    ensures 0x4000 <= a ==> BandImage()[a] == 0x00
  {
  }

  // ---------------------------------------------------------------------
  // The address table

  /** One 6-byte entry of the address table: load address, length and the
      absolute position of the data (the relative offset is anchored at the
      offset field itself, pos + 4). */
  datatype Block = Block(addr: u16, length: u16, offset: int)

  function EntryAt(file: seq<byte>, pos: nat): Block
    requires pos + 6 <= |file|
  {
    Block(ReadBe16U(file, pos), ReadBe16U(file, pos + 2), pos + 4 + ReadBe16S(file, pos + 4))
  }

  /** The bound checks of load_blocks, with the offset kept non-negative (see
      BlockGuardAsWritten for the check as the source writes it). */
  predicate Loadable(b: Block, size: nat)
  {
    0 <= b.offset && b.offset + b.length <= size && b.addr + b.length <= MemorySize
  }

  /** The blocks load_blocks copies, in order, from the table at `pos`: whole
      entries are read while they fit in the file, and the walk stops at the
      first entry whose address is 0 or whose block fails a bound check. */
  function LoadedBlocks(file: seq<byte>, pos: nat): (bs: seq<Block>)
    ensures forall i | 0 <= i < |bs| :: Loadable(bs[i], |file|) && bs[i].addr != 0
    decreases |file| - pos
  {
    if pos + 6 > |file| then []
    else
      var b := EntryAt(file, pos);
      if b.addr == 0 || !Loadable(b, |file|) then []
      else [b] + LoadedBlocks(file, pos + 6)
  }

  /** memcpy of one block into the image. */
  function CopyBlock(mem: seq<byte>, file: seq<byte>, b: Block): (r: seq<byte>)
    requires |mem| == MemorySize && Loadable(b, |file|)
    ensures |r| == MemorySize
    ensures forall a | 0 <= a < MemorySize ::
      r[a] == if b.addr <= a < b.addr + b.length then file[b.offset + a - b.addr] else mem[a]
  {
    mem[..b.addr] + file[b.offset..b.offset + b.length] + mem[b.addr + b.length..]
  }

  /** The blocks copied one after the other. */
  function ApplyBlocks(mem: seq<byte>, file: seq<byte>, bs: seq<Block>): (r: seq<byte>)
    requires |mem| == MemorySize
    requires forall i | 0 <= i < |bs| :: Loadable(bs[i], |file|)
    ensures |r| == MemorySize
    decreases |bs|
  {
    if bs == [] then mem else ApplyBlocks(CopyBlock(mem, file, bs[0]), file, bs[1..])
  }

  /** The blocks are the table's entries in order, one every six bytes. */
  lemma {:induction false} LoadedBlocksAreTableEntries(file: seq<byte>, pos: nat, i: nat)
    requires i < |LoadedBlocks(file, pos)|
    ensures pos + 6 * i + 6 <= |file|
    ensures LoadedBlocks(file, pos)[i] == EntryAt(file, pos + 6 * i)
    decreases |file| - pos
  {
    if i > 0 {
      LoadedBlocksAreTableEntries(file, pos + 6, i - 1);
    }
  }

  /** The walk ends exactly where the table runs out of whole entries, reaches
      a zero address, or reaches an entry that fails a bound check. */
  lemma {:induction false} LoadedBlocksStop(file: seq<byte>, pos: nat)
    ensures var stop := pos + 6 * |LoadedBlocks(file, pos)|;
      stop + 6 > |file| || EntryAt(file, stop).addr == 0 || !Loadable(EntryAt(file, stop), |file|)
    decreases |file| - pos
  {
    if pos + 6 <= |file| {
      var b := EntryAt(file, pos);
      if b.addr != 0 && Loadable(b, |file|) {
        LoadedBlocksStop(file, pos + 6);
      }
    }
  }

  /** A byte that no copied block covers keeps its value. */
  lemma {:induction false} ApplyBlocksOutside(mem: seq<byte>, file: seq<byte>, bs: seq<Block>, a: nat)
    requires |mem| == MemorySize && a < MemorySize
    requires forall i | 0 <= i < |bs| :: Loadable(bs[i], |file|)
    requires forall i | 0 <= i < |bs| :: !(bs[i].addr <= a < bs[i].addr + bs[i].length)
    ensures ApplyBlocks(mem, file, bs)[a] == mem[a]
    decreases |bs|
  {
    if bs != [] {
      var m' := CopyBlock(mem, file, bs[0]);
      assert m'[a] == mem[a];
      ApplyBlocksOutside(m', file, bs[1..], a);
    }
  }

  /** A byte covered by block i and by no later block holds the file byte
      that block i copied there. */
  lemma {:induction false} ApplyBlocksLastCover(mem: seq<byte>, file: seq<byte>, bs: seq<Block>, i: nat, a: nat)
    requires |mem| == MemorySize && a < MemorySize && i < |bs|
    requires forall j | 0 <= j < |bs| :: Loadable(bs[j], |file|)
    requires bs[i].addr <= a < bs[i].addr + bs[i].length
    requires forall j | i < j < |bs| :: !(bs[j].addr <= a < bs[j].addr + bs[j].length)
    ensures ApplyBlocks(mem, file, bs)[a] == file[bs[i].offset + a - bs[i].addr]
    decreases |bs|
  {
    var m' := CopyBlock(mem, file, bs[0]);
    if i == 0 {
      ApplyBlocksOutside(m', file, bs[1..], a);
    } else {
      ApplyBlocksLastCover(m', file, bs[1..], i - 1, a);
    }
  }

  /** load_blocks: nothing happens without a valid table pointer; otherwise
      the image becomes the blocks of LoadedBlocks copied in order. */
  method LoadBlocks(mem: array<byte>, file: seq<byte>, table: Option<nat>)
    requires mem.Length == MemorySize
    modifies mem
    ensures table.None? ==> mem[..] == old(mem[..])
    ensures table.Some? ==> mem[..] == ApplyBlocks(old(mem[..]), file, LoadedBlocks(file, table.value))
  {
    if table.None? {
      return;
    }
    var pos := table.value;
    ghost var start := mem[..];
    while pos + 6 <= |file|
      invariant ApplyBlocks(mem[..], file, LoadedBlocks(file, pos))
             == ApplyBlocks(start, file, LoadedBlocks(file, table.value))
      decreases |file| - pos
    {
      var addr := ReadBe16U(file, pos);
      if addr == 0 {
        break;
      }
      var length := ReadBe16U(file, pos + 2);
      var offsetAbs := pos + 4 + ReadBe16S(file, pos + 4);
      if offsetAbs < 0 || offsetAbs + length > |file| {
        break;
      }
      if addr + length > MemorySize {
        break;
      }
      var b := Block(addr, length, offsetAbs);
      assert LoadedBlocks(file, pos) == [b] + LoadedBlocks(file, pos + 6);
      CopyInto(mem, file, b);
      pos := pos + 6;
    }
  }

  /** The memcpy of one block. */
  method CopyInto(mem: array<byte>, file: seq<byte>, b: Block)
    requires mem.Length == MemorySize && Loadable(b, |file|)
    modifies mem
    ensures mem[..] == CopyBlock(old(mem[..]), file, b)
  {
    forall k | 0 <= k < b.length {
      mem[b.addr + k] := file[b.offset + k];
    }
  }

  /** The offset check of load_blocks as written: offset_abs is size_t, so a
      negative relative offset wraps to a huge value, and offset_abs + length
      wraps back below the file size. */
  predicate BlockGuardAsWritten(pos: nat, rel: i16, length: u16, addr: u16, size: nat)
  {
    var offsetAbs := SizeT(pos + 4 + rel);
    !(SizeT(offsetAbs + length) > size) && !(addr + length > MemorySize)
  }

  /** An entry at file position 100 whose data offset points 96 bytes before
      the start of a 300-byte file, with a 200-byte block, passes the check as
      written: memcpy would read before the file buffer. */
  lemma NegativeOffsetPassesGuard()
    ensures BlockGuardAsWritten(100, -200, 200, 0x8000, 300)
    ensures 100 + 4 + (-200) < 0
  {
  }

  /** For a data offset that does not leave the file on the low side, the
      check as written and Loadable agree. */
  lemma BlockGuardAgreesForNonNegativeOffsets(pos: nat, rel: i16, length: u16, addr: u16, size: nat)
    requires size < SizeModulus / 2 && pos < SizeModulus / 2
    requires 0 <= pos + 4 + rel
    ensures BlockGuardAsWritten(pos, rel, length, addr, size) <==>
      Loadable(Block(addr, length, pos + 4 + rel), size)
  {
  }

  // ---------------------------------------------------------------------
  // The trampoline

  /** intz: di; call init; loop: im 2; ei; halt; jr loop. */
  const Intz: seq<byte> := [0xF3, 0xCD, 0x00, 0x00, 0xED, 0x5E, 0xFB, 0x76, 0x18, 0xFA]
  /** intnz: di; call init; loop: im 1; ei; halt; call interrupt; jr loop. */
  const Intnz: seq<byte> := [0xF3, 0xCD, 0x00, 0x00, 0xED, 0x56, 0xFB, 0x76, 0xCD, 0x00, 0x00, 0x18, 0xF7]

  /** The trampoline setup_interrupt_handler leaves at address 0. */
  function Trampoline(init: u16, interrupt: u16): seq<byte>
  {
    if interrupt == 0 then Intz[2 := init % 0x100][3 := init / 0x100]
    else Intnz[2 := init % 0x100][3 := init / 0x100][9 := interrupt % 0x100][10 := interrupt / 0x100]
  }

  /** The signed displacement byte of a Z80 relative jump. */
  function Displacement(d: byte): int
  {
    if d < 0x80 then d else d - 0x100
  }

  /** Both trampolines call init (little-endian operand at 2..3), the second
      also calls the interrupt routine (operand at 9..10), and each ends in a
      relative jump that lands on offset 4, the `im` instruction. */
  lemma TrampolineLayout(init: u16, interrupt: u16)
    ensures var t := Trampoline(init, interrupt);
      |t| == (if interrupt == 0 then 10 else 13) &&
      t[0] == 0xF3 && t[1] == 0xCD &&
      t[2] as int + t[3] as int * 0x100 == init &&
      t[4] == 0xED && t[6] == 0xFB && t[7] == 0x76 &&
      (interrupt != 0 ==> t[8] == 0xCD && t[9] as int + t[10] as int * 0x100 == interrupt) &&
      t[|t| - 2] == 0x18 && |t| + Displacement(t[|t| - 1]) == 4
  {
  }

  /** setup_interrupt_handler: the trampoline is copied to address 0 and the
      call targets patched; no byte past it changes. */
  method SetupInterruptHandler(mem: array<byte>, init: u16, interrupt: u16)
    requires mem.Length == MemorySize
    modifies mem
    ensures var t := Trampoline(init, interrupt);
      mem[..|t|] == t && mem[|t|..] == old(mem[|t|..])
  {
    if interrupt == 0 {
      forall k | 0 <= k < |Intz| {
        mem[k] := Intz[k];
      }
      mem[2] := init % 0x100;
      mem[3] := init / 0x100;
    } else {
      forall k | 0 <= k < |Intnz| {
        mem[k] := Intnz[k];
      }
      mem[2] := init % 0x100;
      mem[3] := init / 0x100;
      mem[9] := interrupt % 0x100;
      mem[10] := interrupt / 0x100;
    }
  }
}
