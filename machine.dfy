/** The emulated machine seen from the Z80 core: the AY2YM context (64 KB of
    memory, the sixteen AY registers, the register latch, the beeper bit and the
    done flag), the memory hooks of z80user.h and the AY port bridge.

    The bridge is written twice in the source, once as the functions ay2ym_in
    and ay2ym_out and once as the port macros the core actually expands. Here
    the functions are pure functions over PortState, and the macros are methods
    of the context class proved to act exactly as those functions. */
module Machine {
  import opened Bytes

  const RegisterCount: int := 16

  /** Port written to select an AY register, and the AY data port. */
  const SelectPort: u16 := 0xFFFD
  const DataPort: u16 := 0xBFFD
  /** Any port whose low byte is 0xFE reaches the beeper. */
  const BeeperPortLow: byte := 0xFE
  /** Program counter at which an access to an unmapped port ends the song. */
  const ExitPc: u16 := 0xFFFF

  /** The part of the context that the port bridge reads and writes. */
  datatype PortState = PortState(regs: seq<byte>, latch: byte, beeper: byte, done: bool)
  {
    predicate Valid()
    {
      |regs| == RegisterCount && latch < RegisterCount
    }
  }

  /** The state of a freshly zeroed context. */
  function ZeroRegisters(): (regs: seq<byte>)
    ensures |regs| == RegisterCount
  {
    seq(RegisterCount, _ => 0)
  }

  /** Bit 4 of a byte, as 0 or 1. */
  function Bit4(v: byte): (b: byte)
    ensures b == 0 || b == 1
  {
    if (v / 0x10) % 2 == 1 then 1 else 0
  }

  /** SystemCall: an unmapped port access with the program counter at 0xFFFF
      marks the song done; otherwise nothing changes. */
  function SystemCall(s: PortState, pc: u16): PortState
  {
    if pc == ExitPc then s.(done := true) else s
  }

  /** ay2ym_out: a write to a port. */
  function PortOut(s: PortState, port: u16, value: byte): (t: PortState)
    requires s.Valid()
    ensures t.Valid()
  {
    var s' :=
      if port == SelectPort then s.(latch := value % 0x10)
      else if port == DataPort then s.(regs := s.regs[s.latch := value])
      else if port % 0x100 == BeeperPortLow then s.(beeper := Bit4(value))
      else s;
    s'.(done := false)
  }

  /** ay2ym_in: a read from a port, giving the byte read and the new state. */
  function PortIn(s: PortState, port: u16, pc: u16): (r: (byte, PortState))
    requires s.Valid()
    ensures r.1.Valid()
  {
    if port == DataPort then (s.regs[s.latch], s)
    else if port % 0x100 == BeeperPortLow then (s.beeper, s)
    else (0xFF, SystemCall(s, pc))
  }

  /** What every write does, port by port: the latch stays a valid register
      index, the done flag is cleared, and each port touches only its own part
      of the state. A case-by-case reading aid for PortOut; its independent
      partners are SelectWriteRead below and the contract of
      Ay2Ym.OutputByte, which ties the in-place bridge to PortOut. */
  lemma PortOutEffect(s: PortState, port: u16, value: byte)
    requires s.Valid()
    ensures PortOut(s, port, value).latch < RegisterCount
    ensures !PortOut(s, port, value).done
    ensures port == SelectPort ==>
      PortOut(s, port, value) == s.(latch := value % 0x10, done := false)
    ensures port == DataPort ==>
      PortOut(s, port, value) == s.(regs := s.regs[s.latch := value], done := false)
    ensures port != SelectPort && port != DataPort && port % 0x100 == BeeperPortLow ==>
      PortOut(s, port, value) == s.(beeper := Bit4(value), done := false)
    ensures port != SelectPort && port != DataPort && port % 0x100 != BeeperPortLow ==>
      PortOut(s, port, value) == s.(done := false)
  {
  }

  /** What every read does: the data port yields the latched register, the
      beeper ports the beeper bit, any other port 0xFF; only an unmapped port
      read at program counter 0xFFFF changes the state, by setting done.
      A case-by-case reading aid for PortIn; its independent partners are
      SelectWriteRead below and the contract of Ay2Ym.InputByte. */
  lemma PortInEffect(s: PortState, port: u16, pc: u16)
    requires s.Valid()
    ensures port == DataPort ==> PortIn(s, port, pc) == (s.regs[s.latch], s)
    ensures port != DataPort && port % 0x100 == BeeperPortLow ==> PortIn(s, port, pc) == (s.beeper, s)
    ensures port != DataPort && port % 0x100 != BeeperPortLow ==>
      PortIn(s, port, pc).0 == 0xFF &&
      PortIn(s, port, pc).1 == s.(done := s.done || pc == ExitPc)
  {
  }

  /** Selecting register r and writing v to it makes a data-port read return
      v, whatever the state before, and the other registers keep their values. */
  lemma SelectWriteRead(s: PortState, r: byte, v: byte, pc: u16)
    requires s.Valid()
    ensures var t := PortOut(PortOut(s, SelectPort, r), DataPort, v);
      PortIn(t, DataPort, pc).0 == v &&
      t.regs[r % 0x10] == v &&
      forall k | 0 <= k < RegisterCount && k != r % 0x10 :: t.regs[k] == s.regs[k]
  {
  }

  /** Applying a quantum's worth of port accesses, in order. */
  datatype PortAccess = Out(port: u16, value: byte) | In(port: u16, pc: u16)

  function ApplyAccesses(s: PortState, io: seq<PortAccess>): (t: PortState)
    requires s.Valid()
    ensures t.Valid()
    decreases |io|
  {
    if io == [] then s
    else
      var s' := match io[0]
        case Out(port, value) => PortOut(s, port, value)
        case In(port, pc) => PortIn(s, port, pc).1;
      ApplyAccesses(s', io[1..])
  }

  /** The AY2YM context. memory and ay_regs are fixed-size C arrays; the
      fields of the CPU state are owned by the core and are not modelled. */
  class Ay2Ym {
    var memory: array<byte>
    var ayRegSelect: byte
    var ayRegs: array<byte>
    var beeper: byte
    var isDone: bool
    var addrLatch: byte

    ghost predicate Valid()
      reads this
    {
      memory.Length == MemorySize && ayRegs.Length == RegisterCount && addrLatch < RegisterCount
    }

    function View(): (s: PortState)
      reads this, ayRegs
      requires Valid()
      ensures s.Valid()
    {
      PortState(ayRegs[..], addrLatch, beeper, isDone)
    }

    /** The static context starts zeroed. */
    constructor ()
      ensures Valid() && fresh(memory) && fresh(ayRegs)
      ensures forall a | 0 <= a < MemorySize :: memory[a] == 0
      ensures View() == PortState(ZeroRegisters(), 0, 0, false) && ayRegSelect == 0
    {
      memory := new byte[MemorySize](_ => 0);
      ayRegs := new byte[RegisterCount](_ => 0);
      ayRegSelect, beeper, isDone, addrLatch := 0, 0, false, 0;
    }

    /** Z80_READ_BYTE: the address is taken modulo 64 KB. */
    function ReadByte(address: nat): (x: byte)
      reads this, memory
      requires Valid()
      ensures x == memory[address % MemorySize]
    {
      memory[address % MemorySize]
    }

    /** Z80_READ_WORD: little-endian; the high byte comes from the next
        address modulo 64 KB, so a word at 0xFFFF wraps to address 0. */
    function ReadWord(address: nat): (w: u16)
      reads this, memory
      requires Valid()
      ensures w % 0x100 == ReadByte(address) && w / 0x100 == ReadByte(address + 1)
    {
      memory[address % MemorySize] + memory[(address + 1) % MemorySize] as int * 0x100
    }

    /** Z80_WRITE_BYTE: exactly one cell changes. */
    method WriteByte(address: nat, x: byte)
      requires Valid()
      modifies memory
      ensures memory[..] == old(memory[..])[address % MemorySize := x]
      ensures ReadByte(address) == x
    {
      memory[address % MemorySize] := x;
    }

    /** Z80_WRITE_WORD: low byte at the address, high byte at the next address
        modulo 64 KB; nothing else changes and the word reads back. */
    method WriteWord(address: nat, x: u16)
      requires Valid()
      modifies memory
      ensures memory[..] == old(memory[..])[address % MemorySize := x % 0x100][(address + 1) % MemorySize := x / 0x100]
      ensures ReadWord(address) == x
    {
      memory[address % MemorySize] := x % 0x100;
      memory[(address + 1) % MemorySize] := x / 0x100;
    }

    /** Z80_INPUT_BYTE. */
    method InputByte(port: u16, pc: u16) returns (x: byte)
      requires Valid()
      modifies this
      ensures Valid() && memory == old(memory) && ayRegs == old(ayRegs)
      ensures ayRegSelect == old(ayRegSelect)
      ensures (x, View()) == PortIn(old(View()), port, pc)
    {
      if port == DataPort {
        x := ayRegs[addrLatch];
      } else if port % 0x100 == BeeperPortLow {
        x := beeper;
      } else {
        if pc == ExitPc {
          isDone := true;
        }
        x := 0xFF;
      }
    }

    /** Z80_OUTPUT_BYTE. */
    method OutputByte(port: u16, x: byte)
      requires Valid()
      modifies this, ayRegs
      ensures Valid() && memory == old(memory) && ayRegs == old(ayRegs)
      ensures ayRegSelect == old(ayRegSelect)
      ensures View() == PortOut(old(View()), port, x)
    {
      if port == SelectPort {
        addrLatch := x % 0x10;
      } else if port == DataPort {
        ayRegs[addrLatch] := x;
      } else if port % 0x100 == BeeperPortLow {
        beeper := Bit4(x);
      }
      isDone := false;
    }

    /** The per-song reset at the start of emulate_song: the registers are
        zeroed and ay_reg_select and is_done cleared, but addr_latch (the
        field the bridge actually uses) keeps its value from the last song. */
    method ResetForSong()
      requires Valid()
      modifies this, ayRegs
      ensures Valid() && memory == old(memory) && ayRegs == old(ayRegs)
      ensures ayRegSelect == 0
      ensures View() == PortState(ZeroRegisters(), old(addrLatch), old(beeper), false)
    {
      forall k | 0 <= k < RegisterCount {
        ayRegs[k] := 0;
      }
      ayRegSelect := 0;
      isDone := false;
    }

    /** The port accesses of one quantum of CPU execution, through the macros. */
    method RunAccesses(io: seq<PortAccess>)
      requires Valid()
      modifies this, ayRegs
      ensures Valid() && memory == old(memory) && ayRegs == old(ayRegs)
      ensures ayRegSelect == old(ayRegSelect)
      ensures View() == ApplyAccesses(old(View()), io)
    {
      var i := 0;
      while i < |io|
        invariant 0 <= i <= |io|
        invariant Valid() && memory == old(memory) && ayRegs == old(ayRegs)
        invariant ayRegSelect == old(ayRegSelect)
        invariant ApplyAccesses(View(), io[i..]) == ApplyAccesses(old(View()), io)
      {
        assert io[i..][1..] == io[i + 1..];
        match io[i] {
          case Out(port, value) =>
            OutputByte(port, value);
          case In(port, pc) =>
            var _ := InputByte(port, pc);
        }
        i := i + 1;
      }
    }
  }
}
