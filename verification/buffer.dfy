/** The bounded PCM buffer between the fill loop and the output device
    (src/libboxten/buffer.cpp). The mutex, the condition variable and the
    underrun callback itself are not modelled: `needFill` records the flag the
    fill loop waits on, and `Cut` reports whether the underrun handler ran. */
module PcmBuffer {
  import opened Pcm
  import Arith

  /** `BUFFER_LIMIT`: the capacity in frames that `free_frame` measures against. */
  const BUFFER_LIMIT: nat := PCMPACKET_PERIOD * 32

  /** The queued units, the `need_fill_buffer` flag, and whether an underrun
      handler has been installed. */
  datatype Buffer = Buffer(data: Packet, needFill: bool, hasUnderrunHandler: bool)

  /** A fresh buffer: nothing queued, `need_fill_buffer` initially true. */
  const Initial: Buffer := Buffer([], true, false)

  /** Every unit has a format whose frame size is defined. */
  predicate AllKnown(units: Packet) {
    forall i :: 0 <= i < |units| ==> Known(units[i].format)
  }

  /** Total frames held by a sequence of units. */
  function FramesOf(units: Packet): nat
    requires AllKnown(units)
  {
    if |units| == 0 then 0 else Frames(units[0]) + FramesOf(units[1..])
  }

  /** The raw bytes of a sequence of units, in order. */
  function BytesOf(units: Packet): seq<Byte> {
    if |units| == 0 then [] else units[0].pcm + BytesOf(units[1..])
  }

  function Min(a: nat, b: nat): nat {
    if a <= b then a else b
  }

  lemma {:induction false} FramesOfAppend(a: Packet, b: Packet)
    requires AllKnown(a) && AllKnown(b)
    ensures AllKnown(a + b)
    ensures FramesOf(a + b) == FramesOf(a) + FramesOf(b)
  {
    if |a| > 0 {
      assert (a + b)[1..] == a[1..] + b;
      FramesOfAppend(a[1..], b);
    } else {
      assert a + b == b;
    }
  }

  lemma {:induction false} BytesOfAppend(a: Packet, b: Packet)
    ensures BytesOf(a + b) == BytesOf(a) + BytesOf(b)
  {
    if |a| > 0 {
      assert (a + b)[1..] == a[1..] + b;
      BytesOfAppend(a[1..], b);
    } else {
      assert a + b == b;
    }
  }

  /** `Buffer::filled_frame`: sums `get_frames` over the queued units, front
      to back. */
  method FilledFrame(b: Buffer) returns (filled: nat)
    requires AllKnown(b.data)
    ensures filled == FramesOf(b.data)
  {
    filled := 0;
    var i := 0;
    while i < |b.data|
      invariant 0 <= i <= |b.data|
      invariant filled == FramesOf(b.data[..i])
    {
      FramesOfAppend(b.data[..i], [b.data[i]]);
      assert b.data[..i + 1] == b.data[..i] + [b.data[i]];
      filled := filled + Frames(b.data[i]);
      i := i + 1;
    }
    assert b.data[..i] == b.data;
  }

  /** `Buffer::free_frame`: room left below the limit, clamped at zero. */
  function FreeFrame(b: Buffer): (r: nat)
    requires AllKnown(b.data)
    ensures FramesOf(b.data) <= BUFFER_LIMIT ==> FramesOf(b.data) + r == BUFFER_LIMIT
    ensures FramesOf(b.data) >= BUFFER_LIMIT <==> r == 0
    ensures r <= BUFFER_LIMIT
  {
    var filled := FramesOf(b.data);
    if BUFFER_LIMIT < filled then 0 else BUFFER_LIMIT - filled
  }

  /** `Buffer::clear`: drops every unit and signals that a refill is needed. */
  function Clear(b: Buffer): (r: Buffer)
    ensures r.data == [] && r.needFill
    ensures r.hasUnderrunHandler == b.hasUnderrunHandler
  {
    b.(data := [], needFill := true)
  }

  /** `Buffer::append(PCMPacketUnit&)`: copies one unit to the back. There is
      no capacity check and the refill flag is left alone. */
  function AppendUnit(b: Buffer, u: Unit): (r: Buffer)
    ensures |r.data| == |b.data| + 1
    ensures r.data[..|b.data|] == b.data
    ensures r.data[|b.data|] == u
    ensures r.needFill == b.needFill && r.hasUnderrunHandler == b.hasUnderrunHandler
  {
    b.(data := b.data + [u])
  }

  /** `Buffer::append(PCMPacket&)`: appends the units one at a time, in order. */
  function AppendPacket(b: Buffer, p: Packet): (r: Buffer)
    ensures r.data == b.data + p
    ensures r.needFill == b.needFill && r.hasUnderrunHandler == b.hasUnderrunHandler
    decreases |p|
  {
    if |p| == 0 then
      assert b.data + p == b.data;
      b
    else
      var r := AppendPacket(AppendUnit(b, p[0]), p[1..]);
      assert b.data + [p[0]] + p[1..] == b.data + p;
      r
  }

  /** Appending a unit of a known format keeps the buffer measurable and
      raises the filled count by that unit's frames. */
  lemma AppendUnitFrames(b: Buffer, u: Unit)
    requires AllKnown(b.data) && Known(u.format)
    ensures AllKnown(AppendUnit(b, u).data)
    ensures FramesOf(AppendUnit(b, u).data) == FramesOf(b.data) + Frames(u)
  {
    FramesOfAppend(b.data, [u]);
  }

  /** Byte offset at which a split unit is cut: `channels * to_cut * bytewidth`. */
  function SplitLimit(u: Unit, k: nat): nat {
    u.format.channels * k * Bytewidth(u.format)
  }

  /** The piece a split returns: the first `k` frames, ranging over
      `[start, start + k]`. */
  function Head(u: Unit, k: nat): Unit
    requires Known(u.format) && k < Frames(u)
  {
    SplitLimitFits(u, k);
    Unit(u.format, u.start, u.start + k, u.pcm[..SplitLimit(u, k)])
  }

  /** What stays queued after a split: the remaining bytes, starting at
      `start + k` and keeping the old end. */
  function Tail(u: Unit, k: nat): Unit
    requires Known(u.format) && k < Frames(u)
  {
    SplitLimitFits(u, k);
    Unit(u.format, u.start + k, u.end, u.pcm[SplitLimit(u, k)..])
  }

  lemma SplitLimitFits(u: Unit, k: nat)
    requires Known(u.format) && k < Frames(u)
    ensures SplitLimit(u, k) == k * FrameBytes(u.format) <= |u.pcm|
  {
    var d := FrameBytes(u.format);
    assert SplitLimit(u, k) == k * d;
    Arith.NestedDiv(|u.pcm|, Bytewidth(u.format), u.format.channels);
    Arith.MulLeWhenLeQuot(|u.pcm|, k, d);
  }

  /** A split keeps the bytes in order and divides the frames as `k` and
      `Frames(u) - k`. */
  lemma HeadTail(u: Unit, k: nat)
    requires Known(u.format) && k < Frames(u)
    ensures Head(u, k).pcm + Tail(u, k).pcm == u.pcm
    ensures Frames(Head(u, k)) == k
    ensures Frames(Tail(u, k)) == Frames(u) - k
  {
    var d := FrameBytes(u.format);
    SplitLimitFits(u, k);
    assert u.pcm[..k * d] + u.pcm[k * d..] == u.pcm;
    Arith.NestedDiv(k * d, Bytewidth(u.format), u.format.channels);
    Arith.DivOfMultiple(k, d);
    Arith.NestedDiv(|u.pcm| - k * d, Bytewidth(u.format), u.format.channels);
    Arith.NestedDiv(|u.pcm|, Bytewidth(u.format), u.format.channels);
    Arith.DivSubMultiple(|u.pcm|, k, d);
  }

  /** The cut ended inside unit `|taken| - 1`: everything before it moved
      whole, it was split, and its tail heads what stays queued. */
  predicate PartSplit(data: Packet, taken: Packet, rest: Packet)
    requires AllKnown(data)
  {
    && 1 <= |taken| <= |data|
    && var j := |taken| - 1;
    && taken[..j] == data[..j]
    && taken[j].end >= data[j].start
    && var k := taken[j].end - data[j].start;
    && k < Frames(data[j])
    && taken[j] == Head(data[j], k)
    && rest == [Tail(data[j], k)] + data[j + 1..]
  }

  /** The walk inside `Buffer::cut`: take units from the front, moving a unit
      whole while it has no more frames than are still wanted, splitting the
      first one that has more, and stopping once nothing more is wanted. The
      walk looks at the first unit even when nothing is wanted. */
  function CutUnits(data: Packet, toCut: nat): (r: (Packet, Packet))
    requires AllKnown(data)
    ensures r.0 + r.1 == data || PartSplit(data, r.0, r.1)
    ensures data != [] ==> r.0 != []
    ensures AllKnown(r.0) && AllKnown(r.1)
    ensures FramesOf(r.0) == Min(toCut, FramesOf(data))
    ensures FramesOf(r.1) == FramesOf(data) - FramesOf(r.0)
    ensures BytesOf(r.0) + BytesOf(r.1) == BytesOf(data)
    decreases |data|
  {
    if |data| == 0 then ([], [])
    else
      var u := data[0];
      var inVector := Frames(u);
      if inVector > toCut then
        var piece := Head(u, toCut);
        var remain := Tail(u, toCut);
        CutSplitIsCut(data, toCut);
        ([piece], [remain] + data[1..])
      else if toCut - inVector == 0 then
        UnfoldFront(data);
        CutWholeIsCut(data, toCut, [], data[1..]);
        ([u], data[1..])
      else
        var (taken, rest) := CutUnits(data[1..], toCut - inVector);
        UnfoldFront(data);
        CutWholeIsCut(data, toCut, taken, rest);
        ([u] + taken, rest)
  }

  /** Everything `CutUnits` promises about one result, gathered so that each
      branch of the walk can establish it in one step. */
  predicate IsCut(data: Packet, toCut: nat, taken: Packet, rest: Packet)
    requires AllKnown(data)
  {
    && (taken + rest == data || PartSplit(data, taken, rest))
    && (data != [] ==> taken != [])
    && AllKnown(taken) && AllKnown(rest)
    && FramesOf(taken) == Min(toCut, FramesOf(data))
    && FramesOf(rest) == FramesOf(data) - FramesOf(taken)
    && BytesOf(taken) + BytesOf(rest) == BytesOf(data)
  }

  /** Splitting the head unit is a cut of exactly the wanted frames. */
  lemma CutSplitIsCut(data: Packet, toCut: nat)
    requires AllKnown(data) && |data| > 0 && toCut < Frames(data[0])
    ensures IsCut(data, toCut, [Head(data[0], toCut)], [Tail(data[0], toCut)] + data[1..])
  {
    CutSplitFacts(data, toCut);
    UnfoldFront(data);
  }

  /** Moving the head unit whole in front of a cut of the remaining units,
      which took no more than the frames still wanted, is a cut of the packet. */
  lemma CutWholeIsCut(data: Packet, toCut: nat, taken: Packet, rest: Packet)
    requires AllKnown(data) && |data| > 0 && Frames(data[0]) <= toCut
    requires AllKnown(data[1..]) && AllKnown(taken) && AllKnown(rest)
    requires taken + rest == data[1..] || PartSplit(data[1..], taken, rest)
    requires FramesOf(taken) == Min(toCut - Frames(data[0]), FramesOf(data[1..]))
    requires FramesOf(rest) == FramesOf(data[1..]) - FramesOf(taken)
    requires BytesOf(taken) + BytesOf(rest) == BytesOf(data[1..])
    ensures IsCut(data, toCut, [data[0]] + taken, rest)
  {
    WholeShape(data, taken, rest);
    CutWholeFacts(data, taken, rest);
    UnfoldFront(data);
  }

  /** Frame and byte bookkeeping for the case where the head unit is split. */
  lemma CutSplitFacts(data: Packet, k: nat)
    requires AllKnown(data) && |data| > 0 && k < Frames(data[0])
    ensures AllKnown([Head(data[0], k)]) && AllKnown([Tail(data[0], k)] + data[1..])
    ensures PartSplit(data, [Head(data[0], k)], [Tail(data[0], k)] + data[1..])
    ensures FramesOf([Head(data[0], k)]) == k
    ensures FramesOf([Tail(data[0], k)] + data[1..]) == FramesOf(data) - k
    ensures BytesOf([Head(data[0], k)]) + BytesOf([Tail(data[0], k)] + data[1..]) == BytesOf(data)
  {
    var u := data[0];
    HeadTail(u, k);
    SplitPartShape(data, k);
    SingletonFacts(Head(u, k));
    ConsFacts(Tail(u, k), data[1..]);
    SplitBytes(u.pcm, Head(u, k).pcm, Tail(u, k).pcm, BytesOf(data[1..]));
  }

  lemma SplitBytes(whole: seq<Byte>, front: seq<Byte>, back: seq<Byte>, later: seq<Byte>)
    requires front + back == whole
    ensures front + (back + later) == whole + later
  {
  }

  lemma SplitPartShape(data: Packet, k: nat)
    requires AllKnown(data) && |data| > 0 && k < Frames(data[0])
    ensures PartSplit(data, [Head(data[0], k)], [Tail(data[0], k)] + data[1..])
  {
    var taken := [Head(data[0], k)];
    assert taken[..0] == data[..0];
    assert data[0 + 1..] == data[1..];
  }

  lemma SingletonFacts(u: Unit)
    requires Known(u.format)
    ensures AllKnown([u]) && FramesOf([u]) == Frames(u) && BytesOf([u]) == u.pcm
  {
    assert [u][1..] == [];
  }

  lemma ConsFacts(u: Unit, s: Packet)
    requires Known(u.format) && AllKnown(s)
    ensures AllKnown([u] + s)
    ensures FramesOf([u] + s) == Frames(u) + FramesOf(s)
    ensures BytesOf([u] + s) == u.pcm + BytesOf(s)
  {
    assert ([u] + s)[1..] == s;
  }

  /** Frame and byte bookkeeping for the case where the head unit moves whole. */
  lemma CutWholeFacts(data: Packet, taken: Packet, rest: Packet)
    requires AllKnown(data) && |data| > 0
    requires AllKnown(taken) && AllKnown(rest)
    requires FramesOf(rest) == FramesOf(data[1..]) - FramesOf(taken)
    requires BytesOf(taken) + BytesOf(rest) == BytesOf(data[1..])
    ensures AllKnown([data[0]] + taken)
    ensures FramesOf([data[0]] + taken) == Frames(data[0]) + FramesOf(taken)
    ensures FramesOf(rest) == FramesOf(data) - FramesOf([data[0]] + taken)
    ensures BytesOf([data[0]] + taken) + BytesOf(rest) == BytesOf(data)
  {
    ConsFacts(data[0], taken);
    UnfoldFront(data);
    ConcatAssoc(data[0].pcm, BytesOf(taken), BytesOf(rest));
  }

  /** The first unit's share of a packet's frames and bytes. */
  lemma UnfoldFront(data: Packet)
    requires AllKnown(data) && |data| > 0
    ensures AllKnown(data[1..])
    ensures FramesOf(data) == Frames(data[0]) + FramesOf(data[1..])
    ensures BytesOf(data) == data[0].pcm + BytesOf(data[1..])
  {
  }

  lemma ConcatAssoc(x: seq<Byte>, y: seq<Byte>, z: seq<Byte>)
    ensures x + y + z == x + (y + z)
  {
  }

  lemma WholeShape(data: Packet, taken: Packet, rest: Packet)
    requires AllKnown(data) && |data| > 0
    requires taken + rest == data[1..] || PartSplit(data[1..], taken, rest)
    ensures [data[0]] + taken + rest == data || PartSplit(data, [data[0]] + taken, rest)
  {
    var t := [data[0]] + taken;
    assert data == [data[0]] + data[1..];
    if taken + rest != data[1..] {
      var j := |taken| - 1;
      assert t[..j + 1] == [data[0]] + taken[..j];
      assert data[..j + 1] == [data[0]] + data[1..][..j];
      assert data[1..][j + 1..] == data[j + 2..];
      assert t[j + 1] == taken[j] && data[j + 1] == data[1..][j];
    }
  }

  /** What `Buffer::cut` hands back: the packet, the buffer afterwards, and
      whether the underrun handler was invoked. */
  datatype CutResult = CutResult(packet: Packet, buffer: Buffer, underrun: bool)

  /** `Buffer::cut`: asking for more frames than are filled runs the underrun
      handler (when one is installed) and shrinks the request to what is
      filled; the walk then takes that many frames and a refill is signalled. */
  function Cut(b: Buffer, n: nat): (r: CutResult)
    requires AllKnown(b.data)
    ensures r.underrun <==> n > FramesOf(b.data) && b.hasUnderrunHandler
    ensures AllKnown(r.packet) && AllKnown(r.buffer.data)
    ensures FramesOf(r.packet) == Min(n, FramesOf(b.data))
    ensures FramesOf(r.buffer.data) == FramesOf(b.data) - FramesOf(r.packet)
    ensures BytesOf(r.packet) + BytesOf(r.buffer.data) == BytesOf(b.data)
    ensures r.packet + r.buffer.data == b.data || PartSplit(b.data, r.packet, r.buffer.data)
    ensures b.data == [] <==> r.packet == []
    ensures r.buffer.needFill && r.buffer.hasUnderrunHandler == b.hasUnderrunHandler
  {
    var filled := FramesOf(b.data);
    var underrun := n > filled && b.hasUnderrunHandler;
    var frame := if n > filled then filled else n;
    var (taken, rest) := CutUnits(b.data, frame);
    CutResult(taken, b.(data := rest, needFill := true), underrun)
  }

  /** A request beyond the filled count returns the same packet and leaves
      the same buffer as a request for exactly the filled count. */
  lemma CutBeyondFilled(b: Buffer, n: nat)
    requires AllKnown(b.data) && n > FramesOf(b.data)
    ensures Cut(b, n).packet == Cut(b, FramesOf(b.data)).packet
    ensures Cut(b, n).buffer == Cut(b, FramesOf(b.data)).buffer
    ensures Cut(b, n).underrun == b.hasUnderrunHandler
    ensures !Cut(b, FramesOf(b.data)).underrun
  {
  }

  /** The ranges around a split: the returned piece starts where the unit
      started and ends `k` frames later, which is where the queued remainder
      now starts; the remainder keeps the unit's end. */
  lemma CutSplitRanges(b: Buffer, n: nat)
    requires AllKnown(b.data)
    requires PartSplit(b.data, Cut(b, n).packet, Cut(b, n).buffer.data)
    ensures var r := Cut(b, n);
            var j := |r.packet| - 1;
            && r.packet[j].start == b.data[j].start
            && r.buffer.data[0].start == r.packet[j].end
            && r.buffer.data[0].end == b.data[j].end
            && r.packet[j].format == b.data[j].format == r.buffer.data[0].format
            && r.packet[j].end - r.packet[j].start == Frames(r.packet[j])
  {
    var r := Cut(b, n);
    PartSplitRanges(b.data, r.packet, r.buffer.data);
  }

  /** The frame ranges on either side of a split unit, for any partial split. */
  lemma PartSplitRanges(data: Packet, taken: Packet, rest: Packet)
    requires AllKnown(data) && PartSplit(data, taken, rest)
    ensures var j := |taken| - 1;
            && taken[j].start == data[j].start
            && rest[0].start == taken[j].end
            && rest[0].end == data[j].end
            && taken[j].format == data[j].format == rest[0].format
            && taken[j].end - taken[j].start == Frames(taken[j])
  {
    var j := |taken| - 1;
    HeadTail(data[j], taken[j].end - data[j].start);
  }

  /** 2048 bytes of 16-bit stereo are 512 frames. */
  lemma StereoFrames(u: Unit)
    requires u.format == PcmFormat(S16LE, 2, 44100) && |u.pcm| == 2048
    ensures Known(u.format) && Frames(u) == 512
  {
    assert Bytewidth(u.format) == 2;
    assert 2048 / 2 == 1024 && 1024 / 2 == 512;
  }

  /** Draining 1000 frames from three 512-frame units returns 1000 frames and
      leaves 536 queued. */
  lemma CutScenario(u1: Unit, u2: Unit, u3: Unit)
    requires forall u | u in [u1, u2, u3] :: u.format == PcmFormat(S16LE, 2, 44100) && |u.pcm| == 2048
    ensures var r := Cut(Buffer([u1, u2, u3], false, true), 1000);
            FramesOf(r.packet) == 1000 && FramesOf(r.buffer.data) == 536 && !r.underrun
  {
    var data := [u1, u2, u3];
    assert u1 in data && u2 in data && u3 in data;
    StereoFrames(u1);
    StereoFrames(u2);
    StereoFrames(u3);
    SingletonFacts(u3);
    ConsFacts(u2, [u3]);
    ConsFacts(u1, [u2, u3]);
    assert [u1] + ([u2] + [u3]) == data;
  }

  /** Appending a unit takes its frames off the free count, down to zero:
      the fill loop's room check sees the append. */
  lemma FreeFrameAfterAppend(b: Buffer, u: Unit)
    requires AllKnown(b.data) && Known(u.format)
    ensures AllKnown(AppendUnit(b, u).data)
    ensures FreeFrame(AppendUnit(b, u)) == if Frames(u) >= FreeFrame(b) then 0 else FreeFrame(b) - Frames(u)
  {
    AppendUnitFrames(b, u);
  }

  /** `Buffer::get_next_format`: the first unit's format, or a format whose
      sample type is `UNKNOWN` when nothing is queued. */
  function NextFormat(b: Buffer, unset: PcmFormat): (r: PcmFormat)
    ensures b.data == [] ==> r.sampleType == Unknown
    ensures b.data != [] ==> r == b.data[0].format
  {
    if |b.data| == 0 then unset.(sampleType := Unknown) else b.data[0].format
  }
}
