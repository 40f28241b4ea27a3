/** emulate_song: the frame-capture loop driven by the Z80 core and the YM6
    register dump it writes (sequential layout, 16 bytes per frame).

    The core is a trace of quanta: each quantum is the `elapsed` value one
    call of Z80Emulate returns together with the port accesses the core made
    during it, in order. The accesses go through the machine's port macros, so
    the registers sampled and the done flag are those the bridge produces. A
    trace that runs out acts as a core that returns 0. */
module Ym {
  import opened Bytes
  import opened Machine
  import Loader
  import opened GrowBuffer

  const YmClock: u32 := 1773400
  const FrameRate: u16 := 50
  const FrameCountOffset: int := 12
  /** Song attributes: sequential (non-interleaved) frames, AY-3-8910. */
  const SongAttributes: u32 := 0x08
  /** T-states per frame: the 3.5 MHz clock over 50 frames a second. */
  const IntTstates: int := 70000
  const HeaderLength: int := 34
  const InitialYmCapacity: int := 0x1_0000
  const InitialToneCapacity: int := 1024
  const Comment: string := "Converted by Negative Charge(@negativecharge.bsky.social)"

  // ---------------------------------------------------------------------
  // The YM6 document

  /** The fields of the header in the order emulate_song appends them:
      "YM6!", "LeOnArD!", the frame count, the attributes, the two-byte
      digidrum count, the clock, the rate, the loop frame and the size of the
      extra data. */
  function HeaderFields(frameCount: u32): seq<seq<byte>>
  {
    [Ascii("YM6!"), Ascii("LeOnArD!"), PackU32Be(frameCount), PackU32Be(SongAttributes),
     PackU32Be(0)[..2], PackU32Be(YmClock), PackU16Be(FrameRate), PackU32Be(0), PackU16Be(0)]
  }

  /** The 34 header bytes emulate_song appends, with `frameCount` in the
      frame-count field. */
  function YmHeader(frameCount: u32): (h: seq<byte>)
    ensures |h| == HeaderLength
  {
    HeaderIsFields(frameCount);
    Flatten(HeaderFields(frameCount))
  }

  /** The frames, one after the other. */
  function Flatten(frames: seq<seq<byte>>): (r: seq<byte>)
    decreases |frames|
  {
    if frames == [] then [] else Flatten(frames[..|frames| - 1]) + frames[|frames| - 1]
  }

  /** A string followed by its terminating NUL. */
  function CString(s: seq<byte>): seq<byte>
  {
    s + [0]
  }

  /** The song name, the author and the comment, each NUL-terminated. */
  function Strings(title: seq<byte>, author: seq<byte>): seq<byte>
  {
    CString(title) + CString(author) + CString(Ascii(Comment))
  }

  /** What follows the header: the strings, the frames and the end marker. */
  function DocumentBody(title: seq<byte>, author: seq<byte>, tones: seq<byte>): seq<byte>
  {
    Strings(title, author) + tones + Ascii("End!")
  }

  /** The bytes of a whole YM6 file. */
  function YmDocument(frameCount: u32, title: seq<byte>, author: seq<byte>, tones: seq<byte>): seq<byte>
  {
    YmHeader(frameCount) + DocumentBody(title, author, tones)
  }

  /** The header fields at their offsets, all big-endian: the check string,
      the frame count at offset 12, attributes 8, no digidrums, the 1773400 Hz
      master clock, 50 Hz, loop frame 0 and no extra data. */
  lemma YmHeaderFields(frameCount: u32)
    ensures var h := YmHeader(frameCount);
      h[..12] == Ascii("YM6!LeOnArD!") &&
      ReadBe32(h, FrameCountOffset) == frameCount &&
      ReadBe32(h, 16) == 8 &&
      ReadBe16U(h, 20) == 0 &&
      ReadBe32(h, 22) == 1773400 &&
      ReadBe16U(h, 26) == 50 &&
      ReadBe32(h, 28) == 0 &&
      ReadBe16U(h, 32) == 0
  {
    var h := YmHeader(frameCount);
    HeaderIsFields(frameCount);
    ReadPackU32(frameCount);
    ReadPackU32(SongAttributes);
    ReadPackU32(YmClock);
    ReadPackU32(0);
    assert h[12..16] == PackU32Be(frameCount);
    assert h[16..20] == PackU32Be(SongAttributes);
    assert h[22..26] == PackU32Be(YmClock);
    assert h[28..32] == PackU32Be(0);
    assert h[..12] == Ascii("YM6!LeOnArD!");
  }

  /** Writing the frame count over the placeholder at offset 12 yields the
      final document. */
  lemma PatchFrameCount(frameCount: u32, title: seq<byte>, author: seq<byte>, tones: seq<byte>)
    ensures var d := YmDocument(0, title, author, tones);
      d[..FrameCountOffset] + PackU32Be(frameCount) + d[FrameCountOffset + 4..] ==
      YmDocument(frameCount, title, author, tones)
  {
    HeaderIsFields(0);
    HeaderIsFields(frameCount);
  }

  lemma {:induction false} FlattenLength(frames: seq<seq<byte>>)
    requires forall k | 0 <= k < |frames| :: |frames[k]| == RegisterCount
    ensures |Flatten(frames)| == RegisterCount * |frames|
    decreases |frames|
  {
    if frames != [] {
      FlattenLength(frames[..|frames| - 1]);
    }
  }

  /** A prefix of the parts flattens to no more bytes than all of them. */
  lemma {:induction false} FlattenPrefixLength(parts: seq<seq<byte>>, n: nat)
    requires n <= |parts|
    ensures |Flatten(parts[..n])| <= |Flatten(parts)|
    decreases |parts| - n
  {
    if n < |parts| {
      FlattenPrefixStep(parts, n);
      FlattenPrefixLength(parts, n + 1);
    } else {
      assert parts[..n] == parts;
    }
  }

  /** One more part of the prefix adds that part at the end. */
  lemma FlattenPrefixStep(parts: seq<seq<byte>>, n: nat)
    requires n < |parts|
    ensures Flatten(parts[..n + 1]) == Flatten(parts[..n]) + parts[n]
  {
    assert parts[..n + 1][..n] == parts[..n];
  }

  /** Register r of frame k sits at byte 16 * k + r of the flattened frames. */
  lemma {:induction false} FlattenAt(frames: seq<seq<byte>>, k: nat, r: nat)
    requires forall j | 0 <= j < |frames| :: |frames[j]| == RegisterCount
    requires k < |frames| && r < RegisterCount
    ensures |Flatten(frames)| == RegisterCount * |frames|
    ensures Flatten(frames)[RegisterCount * k + r] == frames[k][r]
    decreases |frames|
  {
    FlattenLength(frames);
    var init := frames[..|frames| - 1];
    FlattenLength(init);
    if k < |frames| - 1 {
      FlattenAt(init, k, r);
    }
  }

  /** The three strings with their terminators, at their offsets. */
  lemma StringsLayout(title: seq<byte>, author: seq<byte>)
    ensures var s := Strings(title, author);
      |s| == |title| + |author| + |Comment| + 3 &&
      s[..|title|] == title && s[|title|] == 0 &&
      s[|title| + 1..|title| + 1 + |author|] == author && s[|title| + 1 + |author|] == 0 &&
      s[|s| - 1] == 0
  {
    var s := Strings(title, author);
    assert s == title + [0] + (author + [0]) + (Ascii(Comment) + [0]);
    assert s[|title| + 1..][..|author|] == author;
  }

  /** The document cut into its four parts: header, strings, frames and
      end marker, one after the other. */
  lemma DocumentParts(frameCount: u32, title: seq<byte>, author: seq<byte>, tones: seq<byte>)
    ensures var d := YmDocument(frameCount, title, author, tones);
      var n := HeaderLength + |Strings(title, author)|;
      |d| == n + |tones| + 4 &&
      d[..HeaderLength] == YmHeader(frameCount) &&
      d[HeaderLength..n] == Strings(title, author) &&
      d[n..n + |tones|] == tones &&
      d[n + |tones|..] == Ascii("End!")
  {
    var d := YmDocument(frameCount, title, author, tones);
    var strings := Strings(title, author);
    ConcatAssoc(strings, tones, Ascii("End!"));
    ConcatAssoc(YmHeader(frameCount), strings, tones + Ascii("End!"));
    assert d == YmHeader(frameCount) + strings + (tones + Ascii("End!"));
  }

  /** The layout of the document: the header, the three NUL-terminated
      strings, frame k's register r at 16 * k + r past the strings, and "End!"
      last. */
  lemma YmDocumentLayout(frameCount: u32, title: seq<byte>, author: seq<byte>, frames: seq<seq<byte>>, k: nat, r: nat)
    requires forall j | 0 <= j < |frames| :: |frames[j]| == RegisterCount
    requires k < |frames| && r < RegisterCount
    ensures var d := YmDocument(frameCount, title, author, Flatten(frames));
      var body := HeaderLength + |title| + |author| + |Comment| + 3;
      |d| == body + RegisterCount * |frames| + 4 &&
      d[..HeaderLength] == YmHeader(frameCount) &&
      d[HeaderLength + |title|] == 0 &&
      d[HeaderLength + |title| + 1 + |author|] == 0 &&
      d[body - 1] == 0 &&
      d[body + RegisterCount * k + r] == frames[k][r] &&
      d[|d| - 4..] == Ascii("End!")
  {
    FlattenAt(frames, k, r);
    StringsLayout(title, author);
    DocumentParts(frameCount, title, author, Flatten(frames));
    var d := YmDocument(frameCount, title, author, Flatten(frames));
    var s := Strings(title, author);
    var body := HeaderLength + |s|;
    assert d[HeaderLength + |title|] == d[HeaderLength..body][|title|];
    assert d[HeaderLength + |title| + 1 + |author|] == d[HeaderLength..body][|title| + 1 + |author|];
    assert d[body - 1] == d[HeaderLength..body][|s| - 1];
    assert d[body + RegisterCount * k + r] == d[body..body + RegisterCount * |frames|][RegisterCount * k + r];
  }

  // ---------------------------------------------------------------------
  // The capture loop

  datatype Quantum = Quantum(elapsed: i32, io: seq<PortAccess>)

  /** Where the loop stops: the frames captured, the cycles counted, the
      number of quanta the core ran and the bridge state left behind. */
  datatype Capture = Capture(frames: seq<seq<byte>>, cycles: nat, steps: nat, state: PortState)

  predicate FramesWellFormed(frames: seq<seq<byte>>)
  {
    forall k | 0 <= k < |frames| :: |frames[k]| == RegisterCount
  }

  /** The loop of emulate_song from quantum i on, with the threshold of the
      next frame at (|frames| + 1) * 70000: it runs while cycles are below the
      budget and the done flag is clear; each quantum's port accesses reach
      the bridge, and then a quantum that returns no cycles ends the loop,
      while one that reaches the threshold appends the sixteen registers. */
  function CaptureFrom(trace: seq<Quantum>, i: nat, total: nat, cycles: nat,
                       frames: seq<seq<byte>>, s: PortState): (c: Capture)
    requires i <= |trace| && s.Valid() && FramesWellFormed(frames)
    ensures c.state.Valid() && FramesWellFormed(c.frames)
    ensures i <= c.steps <= |trace|
    ensures |frames| <= |c.frames| && c.frames[..|frames|] == frames
    decreases |trace| - i
  {
    if cycles >= total || s.done || i == |trace| then Capture(frames, cycles, i, s)
    else
      var s' := ApplyAccesses(s, trace[i].io);
      if trace[i].elapsed <= 0 then Capture(frames, cycles, i + 1, s')
      else
        var cycles' := cycles + trace[i].elapsed;
        if cycles' >= (|frames| + 1) * IntTstates then
          CaptureFrom(trace, i + 1, total, cycles', frames + [s'.regs], s')
        else
          CaptureFrom(trace, i + 1, total, cycles', frames, s')
  }

  /** The loop as emulate_song starts it: no cycles, no frames. */
  function SongCapture(trace: seq<Quantum>, total: nat, s: PortState): Capture
    requires s.Valid()
  {
    CaptureFrom(trace, 0, total, 0, [], s)
  }

  /** The frame thresholds only move forward: every captured frame was paid
      for by 70000 cycles, and the loop overshoots its budget by less than one
      quantum's int-sized return value. */
  lemma {:induction false} CaptureBounds(trace: seq<Quantum>, i: nat, total: nat, cycles: nat,
                                         frames: seq<seq<byte>>, s: PortState)
    requires i <= |trace| && s.Valid() && FramesWellFormed(frames)
    requires |frames| * IntTstates <= cycles < total + 0x8000_0000
    ensures var c := CaptureFrom(trace, i, total, cycles, frames, s);
      |c.frames| * IntTstates <= c.cycles < total + 0x8000_0000
    decreases |trace| - i
  {
    if cycles < total && !s.done && i < |trace| && trace[i].elapsed > 0 {
      var s' := ApplyAccesses(s, trace[i].io);
      var cycles' := cycles + trace[i].elapsed;
      if cycles' >= (|frames| + 1) * IntTstates {
        CaptureBounds(trace, i + 1, total, cycles', frames + [s'.regs], s');
      } else {
        CaptureBounds(trace, i + 1, total, cycles', frames, s');
      }
    }
  }

  /** The loop ends only for one of its three reasons: the budget is spent,
      the done flag is set, or the core returns no cycles (the last quantum
      run, or the trace running out). */
  lemma {:induction false} CaptureStops(trace: seq<Quantum>, i: nat, total: nat, cycles: nat,
                                        frames: seq<seq<byte>>, s: PortState)
    requires i <= |trace| && s.Valid() && FramesWellFormed(frames)
    ensures var c := CaptureFrom(trace, i, total, cycles, frames, s);
      c.cycles >= total || c.state.done || c.steps == |trace| ||
      (i < c.steps && trace[c.steps - 1].elapsed <= 0)
    decreases |trace| - i
  {
    if cycles < total && !s.done && i < |trace| && trace[i].elapsed > 0 {
      var s' := ApplyAccesses(s, trace[i].io);
      var cycles' := cycles + trace[i].elapsed;
      if cycles' >= (|frames| + 1) * IntTstates {
        CaptureStops(trace, i + 1, total, cycles', frames + [s'.regs], s');
      } else {
        CaptureStops(trace, i + 1, total, cycles', frames, s');
      }
    }
  }

  /** When no quantum runs for more than one frame's worth of cycles, the
      loop never skips a frame: the frames captured are the thresholds
      crossed. */
  lemma {:induction false} OneFramePerThreshold(trace: seq<Quantum>, i: nat, total: nat, cycles: nat,
                                                frames: seq<seq<byte>>, s: PortState)
    requires i <= |trace| && s.Valid() && FramesWellFormed(frames)
    requires forall k | 0 <= k < |trace| :: trace[k].elapsed <= IntTstates
    requires |frames| * IntTstates <= cycles < (|frames| + 1) * IntTstates
    ensures var c := CaptureFrom(trace, i, total, cycles, frames, s);
      |c.frames| * IntTstates <= c.cycles < (|c.frames| + 1) * IntTstates
    decreases |trace| - i
  {
    if cycles < total && !s.done && i < |trace| && trace[i].elapsed > 0 {
      var s' := ApplyAccesses(s, trace[i].io);
      var cycles' := cycles + trace[i].elapsed;
      if cycles' >= (|frames| + 1) * IntTstates {
        OneFramePerThreshold(trace, i + 1, total, cycles', frames + [s'.regs], s');
      } else {
        OneFramePerThreshold(trace, i + 1, total, cycles', frames, s');
      }
    }
  }

  lemma FloorOfFrames(n: nat, cycles: nat)
    requires n * IntTstates <= cycles < (n + 1) * IntTstates
    ensures n == cycles / IntTstates
  {
    var q, r := cycles / IntTstates, cycles % IntTstates;
    assert cycles == q * IntTstates + r && 0 <= r < IntTstates;
  }

  /** A song whose quanta each stay within one frame ends with exactly
      cycles / 70000 frames. */
  lemma SongFramesAreFloor(trace: seq<Quantum>, total: nat, s: PortState)
    requires s.Valid()
    requires forall k | 0 <= k < |trace| :: trace[k].elapsed <= IntTstates
    ensures var c := SongCapture(trace, total, s);
      |c.frames| == c.cycles / IntTstates
  {
    OneFramePerThreshold(trace, 0, total, 0, [], s);
    var c := SongCapture(trace, total, s);
    FloorOfFrames(|c.frames|, c.cycles);
  }

  /** The bridge state after the port accesses of quanta i until j. */
  function ApplyAccessesThrough(trace: seq<Quantum>, i: nat, j: nat, s: PortState): (t: PortState)
    requires i <= j <= |trace| && s.Valid()
    ensures t.Valid()
    decreases j - i
  {
    if i == j then s else ApplyAccessesThrough(trace, i + 1, j, ApplyAccesses(s, trace[i].io))
  }

  /** Each captured frame is the register file as the bridge left it after
      the quantum that crossed the frame's threshold. */
  lemma {:induction false} FramesAreRegisterSnapshots(trace: seq<Quantum>, i: nat, total: nat, cycles: nat,
                                                      frames: seq<seq<byte>>, s: PortState, k: nat)
    requires i <= |trace| && s.Valid() && FramesWellFormed(frames)
    requires |frames| <= k < |CaptureFrom(trace, i, total, cycles, frames, s).frames|
    ensures exists j | i < j <= |trace| ::
      CaptureFrom(trace, i, total, cycles, frames, s).frames[k] == ApplyAccessesThrough(trace, i, j, s).regs
    decreases |trace| - i
  {
    var c := CaptureFrom(trace, i, total, cycles, frames, s);
    var s' := ApplyAccesses(s, trace[i].io);
    var cycles' := cycles + trace[i].elapsed;
    assert ApplyAccessesThrough(trace, i, i + 1, s) == s';
    var frames' := if cycles' >= (|frames| + 1) * IntTstates then frames + [s'.regs] else frames;
    assert c == CaptureFrom(trace, i + 1, total, cycles', frames', s');
    if k < |frames'| {
      assert c.frames[k] == frames'[k] == ApplyAccessesThrough(trace, i, i + 1, s).regs;
    } else {
      FramesAreRegisterSnapshots(trace, i + 1, total, cycles', frames', s', k);
      var j :| i + 1 < j <= |trace| && c.frames[k] == ApplyAccessesThrough(trace, i + 1, j, s').regs;
      assert ApplyAccessesThrough(trace, i, j, s) == ApplyAccessesThrough(trace, i + 1, j, s');
    }
  }

  /** One turn of the loop: a quantum that runs for some cycles, before the
      budget is spent and with the done flag clear. */
  lemma CaptureStep(trace: seq<Quantum>, i: nat, total: nat, cycles: nat,
                    frames: seq<seq<byte>>, s: PortState,
                    cycles': nat, frames': seq<seq<byte>>, s': PortState)
    requires i < |trace| && s.Valid() && FramesWellFormed(frames)
    requires cycles < total && !s.done && trace[i].elapsed > 0
    requires s' == ApplyAccesses(s, trace[i].io) && cycles' == cycles + trace[i].elapsed
    requires frames' == if cycles' >= (|frames| + 1) * IntTstates then frames + [s'.regs] else frames
    ensures CaptureFrom(trace, i, total, cycles, frames, s) ==
      CaptureFrom(trace, i + 1, total, cycles', frames', s')
  {
  }

  /** A failed realloc of the tone buffer means the frames of the song do not
      fit in half the heap: the doubled capacity is at most twice the frames
      recorded so far, or the initial 1024 bytes doubled. */
  lemma ToneGrowthFails(size: nat, frameNumber: nat, capacity: nat, frames: nat, heapLimit: nat)
    requires size == RegisterCount * frameNumber <= capacity
    requires capacity == InitialToneCapacity || capacity <= 2 * size
    requires size + RegisterCount > capacity
    requires GrownCapacity(size, capacity, RegisterCount) > heapLimit
    requires frameNumber + 1 <= frames
    ensures InitialToneCapacity > heapLimit || 32 * frames > heapLimit
  {
  }

  /** The tone buffer's shape while frames are captured: sixteen bytes per
      frame, and a capacity that is still the initial 1024 bytes or at most
      twice what it holds. */
  ghost predicate ToneBufferHolds(toneBuffer: ByteBuffer, frames: seq<seq<byte>>)
    reads toneBuffer, toneBuffer.Repr
  {
    toneBuffer.Valid() && FramesWellFormed(frames) &&
    InitialToneCapacity <= toneBuffer.capacity &&
    toneBuffer.size == RegisterCount * |frames| &&
    (toneBuffer.capacity == InitialToneCapacity || toneBuffer.capacity <= 2 * toneBuffer.size) &&
    toneBuffer.Contents() == Flatten(frames)
  }

  /** The rest of one turn of the loop of emulate_song, once the core has
      run quantum i (its port accesses took the bridge from `s` to its
      current state) and returned some cycles: when the cycle count reaches
      the next frame threshold the sixteen registers are appended to the tone
      buffer and the threshold moves on by one frame. The loop's state
      afterwards still leads to the same capture. ok is false when that
      append cannot grow the buffer. */
  method CaptureQuantum(m: Ay2Ym, toneBuffer: ByteBuffer, trace: seq<Quantum>, i: nat, total: nat,
                        cycles: nat, frameNumber: nat, nextFrame: nat, ghost frames: seq<seq<byte>>,
                        ghost s: PortState, heapLimit: nat)
    returns (ok: bool, cycles': nat, frameNumber': nat, nextFrame': nat, ghost frames': seq<seq<byte>>)
    requires m.Valid() && ToneBufferHolds(toneBuffer, frames) && {m, m.ayRegs} !! toneBuffer.Repr
    requires i < |trace| && trace[i].elapsed > 0 && cycles < total
    requires s.Valid() && !s.done && m.View() == ApplyAccesses(s, trace[i].io)
    requires frameNumber == |frames| && nextFrame == (frameNumber + 1) * IntTstates
    modifies toneBuffer.Repr
    ensures fresh(toneBuffer.Repr - old(toneBuffer.Repr)) && toneBuffer.Valid()
    ensures ok ==> ToneBufferHolds(toneBuffer, frames')
    ensures ok ==> frameNumber' == |frames'| && nextFrame' == (frameNumber' + 1) * IntTstates
    ensures FramesWellFormed(frames')
    ensures CaptureFrom(trace, i, total, cycles, frames, s) ==
      CaptureFrom(trace, i + 1, total, cycles', frames', m.View())
    ensures !ok ==> |frames'| == |frames| + 1
    ensures !ok ==> InitialToneCapacity > heapLimit || 32 * |frames'| > heapLimit
  {
    cycles' := cycles + trace[i].elapsed;
    frames', frameNumber', nextFrame' := frames, frameNumber, nextFrame;
    ok := true;
    if cycles' >= nextFrame {
      frames' := frames + [m.View().regs];
      ghost var size, capacity := toneBuffer.size, toneBuffer.capacity;
      var status := toneBuffer.Append(m.ayRegs[..], heapLimit);
      if status != 0 {
        ToneGrowthFails(size, |frames|, capacity, |frames'|, heapLimit);
        ok := false;
      } else {
        assert frames'[..|frames|] == frames;
        frameNumber' := frameNumber + 1;
        nextFrame' := nextFrame + IntTstates;
      }
    }
    CaptureStep(trace, i, total, cycles, frames, s, cycles', frames', m.View());
  }

  /** The loop of emulate_song over the machine. The tone buffer starts at
      1024 bytes; when a frame's sixteen bytes do not fit, its capacity
      doubles, which is what append_bytes does for a capacity of at least 16,
      so the buffer is a ByteBuffer. Each turn runs the core for one quantum,
      whose port accesses go through the bridge before its cycle count is
      looked at. ok is false when an allocation fails. */
  method CaptureFrames(m: Ay2Ym, trace: seq<Quantum>, total: nat, heapLimit: nat)
    returns (ok: bool, frameNumber: nat, tones: seq<byte>, cycles: nat)
    requires m.Valid()
    modifies m, m.ayRegs
    ensures m.Valid() && m.memory == old(m.memory) && m.ayRegs == old(m.ayRegs)
    ensures var c := SongCapture(trace, total, old(m.View()));
      ok ==> frameNumber == |c.frames| && tones == Flatten(c.frames) && cycles == c.cycles && m.View() == c.state
    ensures var c := SongCapture(trace, total, old(m.View()));
      InitialToneCapacity <= heapLimit && 32 * |c.frames| <= heapLimit ==> ok
  {
    ghost var final := SongCapture(trace, total, m.View());
    if InitialToneCapacity > heapLimit {
      return false, 0, [], 0;
    }
    var toneBuffer := new ByteBuffer(InitialToneCapacity);
    cycles := 0;
    var nextFrame := IntTstates;
    frameNumber := 0;
    var i := 0;
    ghost var frames: seq<seq<byte>> := [];
    while cycles < total && !m.isDone
      invariant m.Valid() && m.memory == old(m.memory) && m.ayRegs == old(m.ayRegs)
      invariant fresh(toneBuffer.Repr) && ToneBufferHolds(toneBuffer, frames)
      invariant 0 <= i <= |trace|
      invariant frameNumber == |frames| && nextFrame == (frameNumber + 1) * IntTstates
      invariant CaptureFrom(trace, i, total, cycles, frames, m.View()) == final
      decreases |trace| - i
    {
      if i == |trace| {
        break;
      }
      ghost var s := m.View();
      m.RunAccesses(trace[i].io);
      if trace[i].elapsed <= 0 {
        assert final == Capture(frames, cycles, i + 1, m.View());
        break;
      }
      var recorded;
      recorded, cycles, frameNumber, nextFrame, frames :=
        CaptureQuantum(m, toneBuffer, trace, i, total, cycles, frameNumber, nextFrame, frames, s, heapLimit);
      if !recorded {
        return false, 0, [], 0;
      }
      i := i + 1;
    }
    assert final.frames == frames && final.cycles == cycles && final.state == m.View();
    tones := toneBuffer.Contents();
    ok := true;
  }

  /** The capture loop runs at most 2 * 65535 frames' worth of cycles, so
      the frame count fits the 32-bit header field (and the int counter). */
  lemma SongFrameBound(trace: seq<Quantum>, songLength: u16, fadeLength: u16, s: PortState)
    requires s.Valid()
    ensures |SongCapture(trace, (songLength + fadeLength) * IntTstates, s).frames| < 0x8000_0000
  {
    CaptureBounds(trace, 0, (songLength + fadeLength) * IntTstates, 0, [], s);
  }

  /** The header is its nine fields one after the other. */
  lemma HeaderIsFields(frameCount: u32)
    ensures var f := HeaderFields(frameCount);
      Flatten(f) == f[0] + f[1] + f[2] + f[3] + f[4] + f[5] + f[6] + f[7] + f[8]
  {
    var f := HeaderFields(frameCount);
    assert Flatten(f[..1]) == f[0] by { assert f[..1][..0] == f[..0]; }
    assert Flatten(f[..2]) == f[0] + f[1] by { assert f[..2][..1] == f[..1]; }
    assert Flatten(f[..3]) == f[0] + f[1] + f[2] by { assert f[..3][..2] == f[..2]; }
    assert Flatten(f[..4]) == f[0] + f[1] + f[2] + f[3] by { assert f[..4][..3] == f[..3]; }
    assert Flatten(f[..5]) == f[0] + f[1] + f[2] + f[3] + f[4] by { assert f[..5][..4] == f[..4]; }
    assert Flatten(f[..6]) == f[0] + f[1] + f[2] + f[3] + f[4] + f[5] by { assert f[..6][..5] == f[..5]; }
    assert Flatten(f[..7]) == f[0] + f[1] + f[2] + f[3] + f[4] + f[5] + f[6] by { assert f[..7][..6] == f[..6]; }
    assert Flatten(f[..8]) == f[0] + f[1] + f[2] + f[3] + f[4] + f[5] + f[6] + f[7] by { assert f[..8][..7] == f[..7]; }
    assert Flatten(f[..9]) == f[0] + f[1] + f[2] + f[3] + f[4] + f[5] + f[6] + f[7] + f[8] by { assert f[..9][..8] == f[..8]; }
    assert f[..9] == f;
  }

  /** A run of append_bytes calls, in order, stopping at the first that
      fails (the header fields of emulate_song, each followed by the same
      early return). A heap of twice the final size is always enough. */
  method AppendParts(buf: ByteBuffer, parts: seq<seq<byte>>, heapLimit: nat) returns (status: int)
    requires buf.Valid()
    modifies buf.Repr
    ensures buf.Valid() && fresh(buf.Repr - old(buf.Repr))
    ensures status == 0 || status == -1
    ensures status == 0 ==> buf.Contents() == old(buf.Contents()) + Flatten(parts)
    ensures 2 * (old(buf.size) + |Flatten(parts)|) <= heapLimit ==> status == 0
  {
    ghost var start := buf.Contents();
    status := 0;
    var i := 0;
    while i < |parts|
      invariant 0 <= i <= |parts|
      invariant buf.Valid() && fresh(buf.Repr - old(buf.Repr))
      invariant buf.Contents() == start + Flatten(parts[..i])
      invariant status == 0
    {
      FlattenPrefixStep(parts, i);
      FlattenPrefixLength(parts, i + 1);
      status := buf.Append(parts[i], heapLimit);
      if status != 0 {
        return;
      }
      ConcatAssoc(start, Flatten(parts[..i]), parts[i]);
      i := i + 1;
    }
    assert parts[..|parts|] == parts;
  }


  /** append_bytes of a string followed by its terminating NUL, which here
      goes through append_bytes as well (see TerminateUnchecked for the store
      as written). */
  method AppendText(buf: ByteBuffer, text: seq<byte>, heapLimit: nat) returns (status: int)
    requires buf.Valid()
    modifies buf.Repr
    ensures buf.Valid() && fresh(buf.Repr - old(buf.Repr))
    ensures status == 0 || status == -1
    ensures status == 0 ==> buf.Contents() == old(buf.Contents()) + CString(text)
    ensures 2 * (old(buf.size) + |text| + 1) <= heapLimit ==> status == 0
  {
    status := buf.Append(text, heapLimit);
    if status != 0 {
      return;
    }
    status := buf.Terminate(heapLimit);
  }

  /** The first part of the document emulate_song builds: the header with
      the frame count still 0, then the song name, the author and the
      comment, each followed by its NUL. */
  method AppendPreamble(buf: ByteBuffer, title: seq<byte>, author: seq<byte>, heapLimit: nat)
    returns (status: int)
    requires buf.Valid()
    modifies buf.Repr
    ensures buf.Valid() && fresh(buf.Repr - old(buf.Repr))
    ensures status == 0 || status == -1
    ensures status == 0 ==> buf.Contents() == old(buf.Contents()) + YmHeader(0) + Strings(title, author)
    ensures 2 * (old(buf.size) + HeaderLength + |Strings(title, author)|) <= heapLimit ==> status == 0
  {
    ghost var start := buf.Contents();
    assert |Flatten(HeaderFields(0))| == |YmHeader(0)| == HeaderLength;
    status := AppendParts(buf, HeaderFields(0), heapLimit);
    if status != 0 {
      return;
    }
    ghost var header := start + YmHeader(0);
    status := AppendText(buf, title, heapLimit);
    if status != 0 {
      return;
    }
    status := AppendText(buf, author, heapLimit);
    if status != 0 {
      return;
    }
    ConcatAssoc(header, CString(title), CString(author));
    status := AppendText(buf, Ascii(Comment), heapLimit);
    if status != 0 {
      return;
    }
    ConcatAssoc(header, CString(title) + CString(author), CString(Ascii(Comment)));
  }

  /** The tone data and the end marker appended after the strings. */
  method AppendFrames(buf: ByteBuffer, title: seq<byte>, author: seq<byte>, tones: seq<byte>, heapLimit: nat)
    returns (status: int)
    requires buf.Valid() && buf.Contents() == YmHeader(0) + Strings(title, author)
    modifies buf.Repr
    ensures buf.Valid() && fresh(buf.Repr - old(buf.Repr))
    ensures status == 0 ==> buf.Contents() == YmDocument(0, title, author, tones)
    ensures 2 * |YmDocument(0, title, author, tones)| <= heapLimit ==> status == 0
  {
    status := buf.Append(tones, heapLimit);
    if status != 0 {
      return;
    }
    status := buf.Append(Ascii("End!"), heapLimit);
    if status != 0 {
      return;
    }
    ConcatAssoc(YmHeader(0), Strings(title, author), tones);
    ConcatAssoc(YmHeader(0), Strings(title, author) + tones, Ascii("End!"));
  }

  /** The output half of emulate_song, once the CPU is set up: the document
      is built in a 64 KB buffer that grows as needed, the frames are
      captured, and the frame count is patched in. None when an allocation
      fails, which cannot happen when the heap holds the 64 KB start and
      twice the finished document. The song name and the author are C
      strings, measured with strlen, so neither holds a NUL. */
  method RenderSong(m: Ay2Ym, title: seq<byte>, author: seq<byte>, trace: seq<Quantum>,
                    total: nat, heapLimit: nat)
    returns (ym: Option<seq<byte>>)
    requires m.Valid() && 0 !in title && 0 !in author
    requires |SongCapture(trace, total, m.View()).frames| < 0x8000_0000
    modifies m, m.ayRegs
    ensures m.Valid() && m.memory == old(m.memory) && m.ayRegs == old(m.ayRegs)
    ensures var c := SongCapture(trace, total, old(m.View()));
      ym.Some? ==>
        m.View() == c.state && ym.value == YmDocument(|c.frames|, title, author, Flatten(c.frames))
    ensures var c := SongCapture(trace, total, old(m.View()));
      InitialYmCapacity <= heapLimit && 2 * |YmDocument(|c.frames|, title, author, Flatten(c.frames))| <= heapLimit ==>
        ym.Some?
  {
    ghost var c := SongCapture(trace, total, m.View());
    if 2 * |YmDocument(|c.frames|, title, author, Flatten(c.frames))| <= heapLimit {
      DocumentHeapBound(|c.frames|, title, author, c.frames, heapLimit);
    }
    if InitialYmCapacity > heapLimit {
      return None;
    }
    var buf := new ByteBuffer(InitialYmCapacity);
    var status := AppendPreamble(buf, title, author, heapLimit);
    if status != 0 {
      return None;
    }
    ym := FinishSong(m, buf, title, author, trace, total, heapLimit);
  }

  /** The second half of emulate_song, once the header and the strings are
      in the buffer: the capture loop, then the tone data, the end marker and
      the frame count patched in. */
  method FinishSong(m: Ay2Ym, buf: ByteBuffer, title: seq<byte>, author: seq<byte>, trace: seq<Quantum>,
                    total: nat, heapLimit: nat)
    returns (ym: Option<seq<byte>>)
    requires m.Valid() && buf.Valid() && {m, m.ayRegs} !! buf.Repr
    requires buf.Contents() == YmHeader(0) + Strings(title, author)
    requires |SongCapture(trace, total, m.View()).frames| < 0x8000_0000
    modifies m, m.ayRegs, buf.Repr
    ensures m.Valid() && m.memory == old(m.memory) && m.ayRegs == old(m.ayRegs)
    ensures var c := SongCapture(trace, total, old(m.View()));
      ym.Some? ==>
        m.View() == c.state && ym.value == YmDocument(|c.frames|, title, author, Flatten(c.frames))
    ensures var c := SongCapture(trace, total, old(m.View()));
      InitialToneCapacity <= heapLimit && 32 * |c.frames| <= heapLimit &&
      2 * |YmDocument(0, title, author, Flatten(c.frames))| <= heapLimit ==>
        ym.Some?
  {
    var ok, frameNumber, tones, cycles := CaptureFrames(m, trace, total, heapLimit);
    if !ok {
      return None;
    }
    var status := AppendFrames(buf, title, author, tones, heapLimit);
    if status != 0 {
      return None;
    }
    PatchFrameCount(frameNumber, title, author, tones);
    buf.Patch(FrameCountOffset, PackU32Be(frameNumber));
    ym := Some(buf.Contents());
  }

  /** What a heap that holds twice the document guarantees for each
      allocation of emulate_song: the preamble, the tone buffer and the
      finished document with its frame count still 0. */
  lemma DocumentHeapBound(frameCount: u32, title: seq<byte>, author: seq<byte>, frames: seq<seq<byte>>,
                          heapLimit: nat)
    requires FramesWellFormed(frames)
    requires 2 * |YmDocument(frameCount, title, author, Flatten(frames))| <= heapLimit
    ensures 2 * (HeaderLength + |Strings(title, author)|) <= heapLimit
    ensures 32 * |frames| <= heapLimit
    ensures 2 * |YmDocument(0, title, author, Flatten(frames))| <= heapLimit
  {
    FlattenLength(frames);
  }

  /** emulate_song: reset the bridge for the song, install the trampoline,
      then render the song. The CPU's registers (stack, hi_reg, lo_reg) are
      owned by the core and are not modelled. */
  method EmulateSong(m: Ay2Ym, init: u16, songLength: u16, fadeLength: u16, interrupt: u16,
                     title: seq<byte>, author: seq<byte>, trace: seq<Quantum>, heapLimit: nat)
    returns (ym: Option<seq<byte>>)
    requires m.Valid() && 0 !in title && 0 !in author
    modifies m, m.memory, m.ayRegs
    ensures m.Valid() && m.memory == old(m.memory) && m.ayRegs == old(m.ayRegs)
    ensures var t := Loader.Trampoline(init, interrupt);
      m.memory[..|t|] == t && m.memory[|t|..] == old(m.memory[|t|..])
    ensures var c := SongCapture(trace, (songLength + fadeLength) * IntTstates,
                                 PortState(ZeroRegisters(), old(m.addrLatch), old(m.beeper), false));
      ym.Some? ==>
        m.View() == c.state && |c.frames| < 0x8000_0000 &&
        ym.value == YmDocument(|c.frames|, title, author, Flatten(c.frames))
    ensures var c := SongCapture(trace, (songLength + fadeLength) * IntTstates,
                                 PortState(ZeroRegisters(), old(m.addrLatch), old(m.beeper), false));
      |c.frames| < 0x8000_0000 &&
      (InitialYmCapacity <= heapLimit && 2 * |YmDocument(|c.frames|, title, author, Flatten(c.frames))| <= heapLimit ==>
        ym.Some?)
  {
    m.ResetForSong();
    Loader.SetupInterruptHandler(m.memory, init, interrupt);
    var total := (songLength + fadeLength) * IntTstates;
    SongFrameBound(trace, songLength, fadeLength, m.View());
    ym := RenderSong(m, title, author, trace, total, heapLimit);
  }
}
