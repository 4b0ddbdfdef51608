/** PCM sample formats and packet units (src/libboxten/type.hpp). */
module Pcm {
  import Arith

  /** One byte of raw sample data (`u8`). */
  newtype Byte = b: int | 0 <= b < 256

  /** `FORMAT_SAMPLE_TYPE`: the sample encodings a stream input can produce. */
  datatype SampleType =
    | Unknown | Float
    | S8 | U8
    | S16LE | S16BE | U16LE | U16BE
    | S24LE | S24BE | U24LE | U24BE
    | S32LE | S32BE | U32LE | U32BE

  /** `PCMFormat`: sample encoding, channel count and sampling rate. */
  datatype PcmFormat = PcmFormat(sampleType: SampleType, channels: nat, samplingRate: nat)

  /** `PCMPACKET_PERIOD`: the number of frames the fill loop reads at once. */
  const PCMPACKET_PERIOD: nat := 512

  /** `PCMFormat::get_bytewidth`: bytes per sample, 0 for an unknown encoding. */
  function Bytewidth(f: PcmFormat): (r: nat)
    ensures r <= 4
    ensures r == 0 <==> f.sampleType == Unknown
  {
    match f.sampleType
    case S8 | U8 => 1
    case S16LE | S16BE | U16LE | U16BE => 2
    case S24LE | S24BE | U24LE | U24BE => 3
    case Float | S32LE | S32BE | U32LE | U32BE => 4
    case Unknown => 0
  }

  /** Bits per sample, as the encoding's name spells it (`S16LE` holds 16 bits,
      `FLOAT` is 32-bit IEEE); 0 for an unknown encoding. */
  function SampleBits(t: SampleType): nat {
    match t
    case Unknown => 0
    case S8 | U8 => 8
    case S16LE | S16BE | U16LE | U16BE => 16
    case S24LE | S24BE | U24LE | U24BE => 24
    case Float | S32LE | S32BE | U32LE | U32BE => 32
  }

  /** The byte width is the encoding's bit depth in whole bytes, for every format. */
  lemma BytewidthMatchesBits(f: PcmFormat)
    ensures Bytewidth(f) * 8 == SampleBits(f.sampleType)
    ensures f.sampleType in {S8, U8} ==> Bytewidth(f) == 1
    ensures f.sampleType in {S16LE, S16BE, U16LE, U16BE} ==> Bytewidth(f) == 2
    ensures f.sampleType in {S24LE, S24BE, U24LE, U24BE} ==> Bytewidth(f) == 3
    ensures f.sampleType in {Float, S32LE, S32BE, U32LE, U32BE} ==> Bytewidth(f) == 4
  {
  }

  /** A format whose frame size is defined: `get_frames` divides by both the
      byte width and the channel count. */
  predicate Known(f: PcmFormat) {
    Bytewidth(f) > 0 && f.channels > 0
  }

  /** Bytes occupied by one frame (one sample for every channel). */
  function FrameBytes(f: PcmFormat): nat {
    Bytewidth(f) * f.channels
  }

  /** `PCMFormat::operator==`: field-by-field comparison. */
  function FormatEq(a: PcmFormat, b: PcmFormat): (r: bool)
    ensures r <==> a == b
  {
    a.sampleType == b.sampleType && a.channels == b.channels && a.samplingRate == b.samplingRate
  }

  /** `PCMFormat::operator!=`: the negation of `==`. */
  function FormatNe(a: PcmFormat, b: PcmFormat): (r: bool)
    ensures r <==> a != b
    ensures r <==> !FormatEq(a, b)
  {
    !FormatEq(a, b)
  }

  lemma FormatEqIsEquivalence(a: PcmFormat, b: PcmFormat, c: PcmFormat)
    ensures FormatEq(a, a)
    ensures FormatEq(a, b) == FormatEq(b, a)
    ensures FormatEq(a, b) && FormatEq(b, c) ==> FormatEq(a, c)
  {
  }

  /** `PCMPacketUnit`: a span of samples in one format together with the
      inclusive range `[start, end]` of original frame positions it came from. */
  datatype Unit = Unit(format: PcmFormat, start: nat, end: nat, pcm: seq<Byte>)

  /** `PCMPacket`: an ordered sequence of units. */
  type Packet = seq<Unit>

  /** `PCMPacketUnit::get_frames`: byte length divided by the byte width, then
      by the channel count (both divisions truncate). */
  function Frames(u: Unit): (r: nat)
    requires Known(u.format)
    ensures r <= |u.pcm|
    ensures |u.pcm| < Bytewidth(u.format) ==> r == 0
  {
    var samples := |u.pcm| / Bytewidth(u.format);
    Arith.DivShrinks(|u.pcm|, Bytewidth(u.format));
    Arith.DivShrinks(samples, u.format.channels);
    samples / u.format.channels
  }

  /** `get_frames` counts whole frames: that many frames fit in the bytes and
      one more does not; a frame-aligned unit is exactly that many frames long. */
  lemma FramesBracket(u: Unit)
    requires Known(u.format)
    ensures Frames(u) * FrameBytes(u.format) <= |u.pcm| < (Frames(u) + 1) * FrameBytes(u.format)
    ensures |u.pcm| % FrameBytes(u.format) == 0 ==> Frames(u) * FrameBytes(u.format) == |u.pcm|
  {
    Arith.NestedDiv(|u.pcm|, Bytewidth(u.format), u.format.channels);
  }
}
