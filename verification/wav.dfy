/** The `WAV` encoder: a 16-bit PCM RIFF WAVE byte stream built in a
    growable byte vector.

    The constructor validates its arguments and writes the 44-byte header
    with both size fields zero; `addSamples` appends interleaved 16-bit
    little-endian samples and keeps a running count of PCM bytes;
    `writeBuffer` patches the two size fields from that count and returns
    the bytes. The layout is the canonical one of the WAVE form definition
    (Microsoft/IBM Multimedia Programming Interface and Data Specifications
    1.0): a `RIFF` chunk of form type `WAVE` holding a 16-byte `fmt ` chunk of
    format tag 1 (WAVE_FORMAT_PCM) and a `data` chunk.

    Samples are modelled as the integers `Math.round(sample * 32767)` that
    the source computes from its floating-point input.
 */
module Wav {
  import opened LittleEndian
  import opened ByteVector

  datatype Option<T> = None | Some(value: T)

  /** The four exceptions the source throws, one per message. */
  datatype Error =
    | NotIntegers               // 'sample rate & channel count must be integers'
    | UnsupportedSampleRate     // 'unsupported sample rate'
    | UnsupportedChannelCount   // 'unsupported number of channels'
    | InvalidDataFormat         // 'invalid data format'

  datatype Result<T> = Ok(value: T) | Err(error: Error)

  const HeaderSize: nat := 44
  /** `_bpc`: bytes per sample of one channel. */
  const BytesPerSample: nat := 2
  const MinSampleRate: int := 1
  const MaxSampleRate: int := 96000
  const MaxChannels: int := 2

  /** The state of one `WAV` object: its two parameters, the running count
      `_dataSize` of PCM bytes, and the byte vector `_data`. */
  datatype Encoder = Encoder(sampleRate: int, numChannels: int, dataSize: int, buf: Vector)

  // ---------------------------------------------------------------------
  // Chunk identifiers
  // ---------------------------------------------------------------------

  datatype Tag = Riff | Wave | Fmt | Data

  function TagName(t: Tag): string
  {
    match t
    case Riff => "RIFF"
    case Wave => "WAVE"
    case Fmt => "fmt "
    case Data => "data"
  }

  /** The four bytes of a chunk identifier: the string path of `appendData`
      stores the character code of each character. */
  function TagBytes(t: Tag): (r: seq<byte>)
    ensures |r| == |TagName(t)| == 4
    ensures forall i :: 0 <= i < 4 ==> r[i] == TagName(t)[i] as int
  {
    match t
    case Riff => [0x52, 0x49, 0x46, 0x46]
    case Wave => [0x57, 0x41, 0x56, 0x45]
    case Fmt => [0x66, 0x6D, 0x74, 0x20]
    case Data => [0x64, 0x61, 0x74, 0x61]
  }

  // ---------------------------------------------------------------------
  // The header as a pure reference
  // ---------------------------------------------------------------------

  predicate ValidFormat(sampleRate: int, numChannels: int)
  {
    MinSampleRate <= sampleRate <= MaxSampleRate && 1 <= numChannels <= MaxChannels
  }

  /** Bytes 0 to 12: the RIFF chunk identifier, its size, the form type. */
  function RiffHeader(riffSize: int): (r: seq<byte>)
    ensures |r| == 12
  {
    TagBytes(Riff) + Encode(riffSize, 4) + TagBytes(Wave)
  }

  /** Bytes 12 to 36: the whole `fmt ` chunk of a PCM stream. */
  function FmtChunk(sampleRate: int, numChannels: int): (f: seq<byte>)
    ensures |f| == 24
  {
    TagBytes(Fmt)
    + Encode(16, 4)                                        // chunk size
    + Encode(1, 2)                                         // WAVE_FORMAT_PCM
    + Encode(numChannels, 2)
    + Encode(sampleRate, 4)
    + Encode(sampleRate * numChannels * BytesPerSample, 4) // byte rate
    + Encode(numChannels * BytesPerSample, 2)              // block align
    + Encode(BytesPerSample * 8, 2)                        // bits per sample
  }

  /** Bytes 36 to 44: the data chunk identifier and its size. */
  function DataChunkHeader(dataSize: int): (r: seq<byte>)
    ensures |r| == 8
  {
    TagBytes(Data) + Encode(dataSize, 4)
  }

  /** The 44-byte header with the given RIFF chunk size and data chunk size. */
  function Header(sampleRate: int, numChannels: int, riffSize: int, dataSize: int): (h: seq<byte>)
    ensures |h| == HeaderSize
  {
    RiffHeader(riffSize) + FmtChunk(sampleRate, numChannels) + DataChunkHeader(dataSize)
  }

  /** The header splits into its two size fields and the bytes around them,
      which depend on the format only. */
  lemma HeaderParts(sampleRate: int, numChannels: int, riffSize: int, dataSize: int)
    ensures var h := Header(sampleRate, numChannels, riffSize, dataSize);
      && h[..4] == TagBytes(Riff)
      && h[4..8] == Encode(riffSize, 4)
      && h[8..40] == TagBytes(Wave) + FmtChunk(sampleRate, numChannels) + TagBytes(Data)
      && h[40..44] == Encode(dataSize, 4)
  {
    var h := Header(sampleRate, numChannels, riffSize, dataSize);
    assert h[..12] == RiffHeader(riffSize);
    assert h[12..36] == FmtChunk(sampleRate, numChannels);
    assert h[36..] == DataChunkHeader(dataSize);
    assert h[8..40] == h[8..12] + h[12..36] + h[36..40];
  }

  /** A byte stream begins with the header of the given format, whatever
      its two size fields hold. */
  predicate HasHeader(bs: seq<byte>, sampleRate: int, numChannels: int)
  {
    && |bs| >= HeaderSize
    && bs[..HeaderSize] == Header(sampleRate, numChannels, Decode(bs[4..8]), Decode(bs[40..44]))
  }

  /** A header whose size fields are written from the values they decode to
      is the same header. */
  lemma HeaderOfDecodedFields(sampleRate: int, numChannels: int, riffSize: int, dataSize: int)
    ensures Header(sampleRate, numChannels, Decode(Encode(riffSize, 4)), Decode(Encode(dataSize, 4)))
         == Header(sampleRate, numChannels, riffSize, dataSize)
  {
    EncodeDecode(Encode(riffSize, 4));
    EncodeDecode(Encode(dataSize, 4));
  }

  /** A stream that begins with a header keeps it when bytes are added. */
  lemma HasHeaderExtends(bs: seq<byte>, more: seq<byte>, sampleRate: int, numChannels: int)
    requires HasHeader(bs, sampleRate, numChannels)
    ensures HasHeader(bs + more, sampleRate, numChannels)
  {
    assert (bs + more)[..HeaderSize] == bs[..HeaderSize];
    assert (bs + more)[4..8] == bs[4..8];
    assert (bs + more)[40..44] == bs[40..44];
  }

  // ---------------------------------------------------------------------
  // A reader of the header
  // ---------------------------------------------------------------------

  datatype HeaderFields = HeaderFields(
    riffSize: nat, formatTag: nat, numChannels: nat, sampleRate: nat,
    byteRate: nat, blockAlign: nat, bitsPerSample: nat, dataSize: nat)

  /** What a WAVE reader takes from the first 44 bytes: it checks the chunk
      identifiers and the `fmt ` chunk size, then decodes every field. */
  function ParseHeader(bs: seq<byte>): Option<HeaderFields>
  {
    if |bs| < HeaderSize || bs[..4] != TagBytes(Riff) || bs[8..12] != TagBytes(Wave)
       || bs[12..16] != TagBytes(Fmt) || Decode(bs[16..20]) != 16 || bs[36..40] != TagBytes(Data)
    then None
    else Some(HeaderFields(
      Decode(bs[4..8]), Decode(bs[20..22]), Decode(bs[22..24]), Decode(bs[24..28]),
      Decode(bs[28..32]), Decode(bs[32..34]), Decode(bs[34..36]), Decode(bs[40..44])))
  }

  lemma DecodeSmall(v: int, w: nat)
    requires 1 <= w <= MaxWidth && 0 <= v < Pow256(w)
    ensures Decode(Encode(v, w)) == v
  {
    DecodeEncode(v, w);
    DivModUnique(v, Pow256(w), 0, v);
  }

  /** Where each field of the header sits. */
  lemma HeaderFieldSlices(sampleRate: int, numChannels: int, riffSize: int, dataSize: int)
    ensures var h := Header(sampleRate, numChannels, riffSize, dataSize);
      && h[..4] == TagBytes(Riff) && h[4..8] == Encode(riffSize, 4)
      && h[8..12] == TagBytes(Wave) && h[12..16] == TagBytes(Fmt)
      && h[16..20] == Encode(16, 4) && h[20..22] == Encode(1, 2)
      && h[22..24] == Encode(numChannels, 2) && h[24..28] == Encode(sampleRate, 4)
      && h[28..32] == Encode(sampleRate * numChannels * BytesPerSample, 4)
      && h[32..34] == Encode(numChannels * BytesPerSample, 2)
      && h[34..36] == Encode(BytesPerSample * 8, 2)
      && h[36..40] == TagBytes(Data) && h[40..44] == Encode(dataSize, 4)
  {
    var h := Header(sampleRate, numChannels, riffSize, dataSize);
    var f := FmtChunk(sampleRate, numChannels);
    assert h[..12] == RiffHeader(riffSize);
    assert h[12..36] == f;
    assert h[36..] == DataChunkHeader(dataSize);
    FmtChunkFields(sampleRate, numChannels);
    assert h[12..16] == f[..4] && h[16..20] == f[4..8] && h[20..22] == f[8..10];
    assert h[22..24] == f[10..12] && h[24..28] == f[12..16] && h[28..32] == f[16..20];
    assert h[32..34] == f[20..22] && h[34..36] == f[22..24];
  }

  /** Every field of a header reads back as written: the format tag is PCM,
      the byte rate and block align follow from the rate and the channel
      count, samples are 16 bits wide, and the two size fields read back
      modulo 2^32. */
  lemma ParseHeaderRoundTrip(sampleRate: int, numChannels: int, riffSize: int, dataSize: int)
    requires ValidFormat(sampleRate, numChannels)
    ensures ParseHeader(Header(sampleRate, numChannels, riffSize, dataSize))
         == Some(HeaderFields(
              riffSize % TwoTo32, 1, numChannels as nat, sampleRate as nat,
              (sampleRate * numChannels * BytesPerSample) as nat,
              (numChannels * BytesPerSample) as nat, 16, dataSize % TwoTo32))
  {
    HeaderFieldSlices(sampleRate, numChannels, riffSize, dataSize);
    assert Pow256(2) == 0x1_0000 && Pow256(4) == TwoTo32;
    DecodeSmall(16, 4);
    DecodeSmall(1, 2);
    DecodeSmall(numChannels, 2);
    DecodeSmall(sampleRate, 4);
    DecodeSmall(sampleRate * numChannels * BytesPerSample, 4);
    DecodeSmall(numChannels * BytesPerSample, 2);
    DecodeSmall(BytesPerSample * 8, 2);
    DecodeEncode(riffSize, 4);
    DecodeEncode(dataSize, 4);
  }

  lemma FmtChunkFields(sampleRate: int, numChannels: int)
    ensures var f := FmtChunk(sampleRate, numChannels);
      && f[..4] == TagBytes(Fmt)
      && f[4..8] == Encode(16, 4)
      && f[8..10] == Encode(1, 2)
      && f[10..12] == Encode(numChannels, 2)
      && f[12..16] == Encode(sampleRate, 4)
      && f[16..20] == Encode(sampleRate * numChannels * BytesPerSample, 4)
      && f[20..22] == Encode(numChannels * BytesPerSample, 2)
      && f[22..24] == Encode(BytesPerSample * 8, 2)
  {
  }

  // ---------------------------------------------------------------------
  // The constructor
  // ---------------------------------------------------------------------

  /** `Number.isInteger` on a finite number. */
  predicate IsInteger(x: real)
  {
    x.Floor as real == x
  }

  /** The first three header writes of the constructor. */
  function WriteRiffHeader(v: Vector, riffSize: int): (r: Vector)
    requires Valid(v)
    ensures Valid(r)
    ensures v.size + 12 <= |v.store| ==> |r.store| == |v.store|
    ensures r.size == v.size + 12
    ensures Contents(r) == Contents(v) + RiffHeader(riffSize)
  {
    var v1 := AppendBytes(v, TagBytes(Riff));
    var v2 := AppendInt(v1, riffSize, 4);
    ConcatAssoc(Contents(v), TagBytes(Riff), Encode(riffSize, 4));
    ConcatAssoc(Contents(v), TagBytes(Riff) + Encode(riffSize, 4), TagBytes(Wave));
    AppendBytes(v2, TagBytes(Wave))
  }

  /** The eight writes of the constructor that make up the `fmt ` chunk. */
  function WriteFmtChunk(v: Vector, sampleRate: int, numChannels: int): (r: Vector)
    requires Valid(v)
    ensures Valid(r)
    ensures v.size + 24 <= |v.store| ==> |r.store| == |v.store|
    ensures r.size == v.size + 24
    ensures Contents(r) == Contents(v) + FmtChunk(sampleRate, numChannels)
  {
    var c := Contents(v);
    var f1 := TagBytes(Fmt);
    var f2 := f1 + Encode(16, 4);
    var f3 := f2 + Encode(1, 2);
    var f4 := f3 + Encode(numChannels, 2);
    var f5 := f4 + Encode(sampleRate, 4);
    var f6 := f5 + Encode(sampleRate * numChannels * BytesPerSample, 4);
    var f7 := f6 + Encode(numChannels * BytesPerSample, 2);
    var v1 := AppendBytes(v, TagBytes(Fmt));
    var v2 := AppendInt(v1, 16, 4);
    ConcatAssoc(c, f1, Encode(16, 4));
    var v3 := AppendInt(v2, 1, 2);
    ConcatAssoc(c, f2, Encode(1, 2));
    var v4 := AppendInt(v3, numChannels, 2);
    ConcatAssoc(c, f3, Encode(numChannels, 2));
    var v5 := AppendInt(v4, sampleRate, 4);
    ConcatAssoc(c, f4, Encode(sampleRate, 4));
    var v6 := AppendInt(v5, sampleRate * numChannels * BytesPerSample, 4);
    ConcatAssoc(c, f5, Encode(sampleRate * numChannels * BytesPerSample, 4));
    var v7 := AppendInt(v6, numChannels * BytesPerSample, 2);
    ConcatAssoc(c, f6, Encode(numChannels * BytesPerSample, 2));
    ConcatAssoc(c, f7, Encode(BytesPerSample * 8, 2));
    AppendInt(v7, BytesPerSample * 8, 2)
  }

  /** The last two header writes of the constructor. */
  function WriteDataChunkHeader(v: Vector, dataSize: int): (r: Vector)
    requires Valid(v)
    ensures Valid(r)
    ensures v.size + 8 <= |v.store| ==> |r.store| == |v.store|
    ensures r.size == v.size + 8
    ensures Contents(r) == Contents(v) + DataChunkHeader(dataSize)
  {
    ConcatAssoc(Contents(v), TagBytes(Data), Encode(dataSize, 4));
    AppendInt(AppendBytes(v, TagBytes(Data)), dataSize, 4)
  }

  /** The thirteen header writes of the constructor into an empty vector of
      the header's length, both size fields zero. The header fills that
      store exactly: no growth happens. */
  function WriteHeaderInto(v: Vector, sampleRate: int, numChannels: int): (r: Vector)
    requires Valid(v) && v.size == 0 && |v.store| == InitialCapacity
    ensures Valid(r) && |r.store| == InitialCapacity && r.size == HeaderSize
    ensures Contents(r) == Header(sampleRate, numChannels, 0, 0)
  {
    var v1 := WriteRiffHeader(v, 0);
    var v2 := WriteFmtChunk(v1, sampleRate, numChannels);
    WriteDataChunkHeader(v2, 0)
  }

  /** The constructor's vector: `new _Uint8Vector(44)` holding the header. */
  function WriteHeader(sampleRate: int, numChannels: int): (r: Vector)
    ensures Valid(r) && |r.store| == InitialCapacity && r.size == HeaderSize
    ensures Contents(r) == Header(sampleRate, numChannels, 0, 0)
  {
    NewVectorValid();
    WriteHeaderInto(New(InitialCapacity), sampleRate, numChannels)
  }

  /** The encoder invariant: a supported format, a valid vector holding the
      header followed by `dataSize` PCM bytes, a whole number of frames. */
  predicate Inv(e: Encoder)
  {
    && ValidFormat(e.sampleRate, e.numChannels)
    && Valid(e.buf)
    && e.dataSize >= 0
    && e.buf.size == HeaderSize + e.dataSize
    && e.dataSize % (e.numChannels * BytesPerSample) == 0
    && HasHeader(Contents(e.buf), e.sampleRate, e.numChannels)
  }

  lemma FreshEncoderInv(sampleRate: int, numChannels: int, buf: Vector)
    requires ValidFormat(sampleRate, numChannels)
    requires Valid(buf) && buf.size == HeaderSize
    requires Contents(buf) == Header(sampleRate, numChannels, 0, 0)
    ensures Inv(Encoder(sampleRate, numChannels, 0, buf))
  {
    HeaderOfDecodedFields(sampleRate, numChannels, 0, 0);
    HeaderParts(sampleRate, numChannels, 0, 0);
    assert 0 % (numChannels * BytesPerSample) == 0;
  }

  /** `new WAV(sampleRate, numChannels)`. It fails when either argument is
      not an integer, then when the rate is outside 1..96000, then when the
      channel count is outside 1..2; otherwise the encoder holds exactly the
      header, with both size fields zero, and no PCM data. */
  function Create(sampleRate: real, numChannels: real): (r: Result<Encoder>)
    ensures r == Err(NotIntegers) <==> !IsInteger(sampleRate) || !IsInteger(numChannels)
    ensures r == Err(UnsupportedSampleRate) <==>
      IsInteger(sampleRate) && IsInteger(numChannels)
      && !(MinSampleRate as real <= sampleRate <= MaxSampleRate as real)
    ensures r == Err(UnsupportedChannelCount) <==>
      IsInteger(sampleRate) && IsInteger(numChannels)
      && MinSampleRate as real <= sampleRate <= MaxSampleRate as real
      && !(1.0 <= numChannels <= MaxChannels as real)
    ensures r.Ok? ==>
      && Inv(r.value)
      && r.value.sampleRate as real == sampleRate
      && r.value.numChannels as real == numChannels
      && r.value.dataSize == 0
      && Contents(r.value.buf) == Header(r.value.sampleRate, r.value.numChannels, 0, 0)
  {
    if !IsInteger(sampleRate) || !IsInteger(numChannels) then Err(NotIntegers)
    else if sampleRate < MinSampleRate as real || sampleRate > MaxSampleRate as real then
      Err(UnsupportedSampleRate)
    else if numChannels < 1.0 || numChannels > MaxChannels as real then
      Err(UnsupportedChannelCount)
    else
      var rate := sampleRate.Floor;
      var channels := numChannels.Floor;
      var buf := WriteHeader(rate, channels);
      FreshEncoderInv(rate, channels, buf);
      Ok(Encoder(rate, channels, 0, buf))
  }

  // ---------------------------------------------------------------------
  // PCM data
  // ---------------------------------------------------------------------

  /** Every channel holds at least `n` samples. */
  predicate HasFrames(samples: seq<seq<int>>, n: nat)
  {
    forall c :: 0 <= c < |samples| ==> n <= |samples[c]|
  }

  /** The bytes of frame `f` restricted to its first `k` channels: each
      sample as a 16-bit little-endian field, in channel order. */
  function FrameBytes(samples: seq<seq<int>>, f: nat, k: nat): (r: seq<byte>)
    requires k <= |samples| && HasFrames(samples, f + 1)
    ensures |r| == k * BytesPerSample
  {
    if k == 0 then [] else FrameBytes(samples, f, k - 1) + Encode(samples[k - 1][f], BytesPerSample)
  }

  /** The reference PCM stream of the first `n` frames, frame after frame. */
  function Interleave(samples: seq<seq<int>>, n: nat): (r: seq<byte>)
    requires HasFrames(samples, n)
    ensures |r| == n * (|samples| * BytesPerSample)
  {
    if n == 0 then [] else Interleave(samples, n - 1) + FrameBytes(samples, n - 1, |samples|)
  }

  /** The byte offset of sample `f` of channel `c` in the PCM stream of
      `channels` channels. */
  function SampleOffset(channels: nat, f: nat, c: nat): nat
  {
    f * (channels * BytesPerSample) + c * BytesPerSample
  }

  /** Sample `f` of channel `c` sits at byte `(f * channels + c) * 2` of the
      PCM stream as a 16-bit little-endian field: frames in order, channels
      interleaved within each frame (L0, R0, L1, R1, ... in stereo). */
  lemma {:induction false} InterleaveLayout(samples: seq<seq<int>>, n: nat, f: nat, c: nat)
    requires HasFrames(samples, n) && f < n && c < |samples|
    ensures SampleOffset(|samples|, f, c) + BytesPerSample <= |Interleave(samples, n)|
    ensures var at := SampleOffset(|samples|, f, c);
      Interleave(samples, n)[at..at + BytesPerSample] == Encode(samples[c][f], BytesPerSample)
  {
    var prefix := Interleave(samples, n - 1);
    var frame := FrameBytes(samples, n - 1, |samples|);
    var at := SampleOffset(|samples|, f, c);
    OffsetWithin(|samples|, f, c, n);
    if f < n - 1 {
      InterleaveLayout(samples, n - 1, f, c);
      SliceOfConcatLeft(prefix, frame, at, at + BytesPerSample);
    } else {
      var size := |samples| * BytesPerSample;
      assert |prefix| == (n - 1) * size;
      assert at == |prefix| + c * BytesPerSample;
      FrameLayout(samples, n - 1, |samples|, c);
      SliceOfConcatRight(prefix, frame, at, at + BytesPerSample);
    }
  }

  /** A sample of one of the first `m` frames lies inside their bytes. */
  lemma OffsetWithin(channels: nat, f: nat, c: nat, m: nat)
    requires c < channels && f < m
    ensures SampleOffset(channels, f, c) + BytesPerSample <= m * (channels * BytesPerSample)
  {
    var size := channels * BytesPerSample;
    var k := m - f - 1;
    assert m * size == (f + 1 + k) * size;
    assert (f + 1 + k) * size == f * size + size + k * size;
    assert k * size >= 0;
  }

  lemma SliceOfConcatLeft<T>(a: seq<T>, b: seq<T>, i: nat, j: nat)
    requires i <= j <= |a|
    ensures (a + b)[i..j] == a[i..j]
  {
  }

  lemma SliceOfConcatRight<T>(a: seq<T>, b: seq<T>, i: nat, j: nat)
    requires |a| <= i <= j <= |a| + |b|
    ensures (a + b)[i..j] == b[i - |a|..j - |a|]
  {
  }

  lemma {:induction false} FrameLayout(samples: seq<seq<int>>, f: nat, k: nat, c: nat)
    requires k <= |samples| && HasFrames(samples, f + 1) && c < k
    ensures FrameBytes(samples, f, k)[c * BytesPerSample..c * BytesPerSample + BytesPerSample]
         == Encode(samples[c][f], BytesPerSample)
  {
    var at := c * BytesPerSample;
    if c < k - 1 {
      FrameLayout(samples, f, k - 1, c);
      var prefix := FrameBytes(samples, f, k - 1);
      assert FrameBytes(samples, f, k)[at..at + BytesPerSample]
          == prefix[at..at + BytesPerSample];
    }
  }

  /** A reader decoding sample `f` of channel `c` gets the quantized sample
      back when it lies in the 16-bit range, and its low 16 bits in two's
      complement otherwise. */
  lemma SampleReadsBack(samples: seq<seq<int>>, n: nat, f: nat, c: nat)
    requires HasFrames(samples, n) && f < n && c < |samples|
    ensures var at := SampleOffset(|samples|, f, c);
      && at + BytesPerSample <= |Interleave(samples, n)|
      && (DecodeInt16(Interleave(samples, n)[at..at + BytesPerSample]) - samples[c][f]) % 0x1_0000 == 0
      && (-0x8000 <= samples[c][f] < 0x8000 ==>
           DecodeInt16(Interleave(samples, n)[at..at + BytesPerSample]) == samples[c][f])
  {
    InterleaveLayout(samples, n, f, c);
    Int16RoundTrip(samples[c][f]);
  }

  /** One iteration of the sample loop of `addSamples`: the frame's samples
      appended in channel order. */
  function AppendFrame(buf: Vector, samples: seq<seq<int>>, f: nat): (r: Vector)
    requires Valid(buf) && 1 <= |samples| <= MaxChannels && HasFrames(samples, f + 1)
    ensures Valid(r)
    ensures Contents(r) == Contents(buf) + FrameBytes(samples, f, |samples|)
  {
    FrameBytesOfChannels(samples, f);
    var v1 := AppendInt(buf, samples[0][f], BytesPerSample);
    if |samples| == 1 then v1
    else
      ConcatAssoc(Contents(buf), Encode(samples[0][f], BytesPerSample), Encode(samples[1][f], BytesPerSample));
      AppendInt(v1, samples[1][f], BytesPerSample)
  }

  /** A mono frame is its one sample, a stereo frame the left sample then
      the right one. */
  lemma FrameBytesOfChannels(samples: seq<seq<int>>, f: nat)
    requires 1 <= |samples| <= MaxChannels && HasFrames(samples, f + 1)
    ensures FrameBytes(samples, f, 1) == Encode(samples[0][f], BytesPerSample)
    ensures |samples| == 2 ==>
      FrameBytes(samples, f, 2) == Encode(samples[0][f], BytesPerSample) + Encode(samples[1][f], BytesPerSample)
  {
  }

  /** The sample loop of `addSamples` run over the first `n` frames: the
      buffer grows by exactly the reference PCM stream of those frames. */
  function AppendFrames(buf: Vector, samples: seq<seq<int>>, n: nat): (r: Vector)
    requires Valid(buf) && 1 <= |samples| <= MaxChannels && HasFrames(samples, n)
    ensures Valid(r)
    ensures Contents(r) == Contents(buf) + Interleave(samples, n)
  {
    if n == 0 then buf
    else
      ConcatAssoc(Contents(buf), Interleave(samples, n - 1), FrameBytes(samples, n - 1, |samples|));
      AppendFrame(AppendFrames(buf, samples, n - 1), samples, n - 1)
  }

  /** The argument checks of `addSamples`: one sample array per channel,
      and in stereo two arrays of the same length. */
  predicate Accepts(numChannels: int, samples: seq<seq<int>>)
  {
    |samples| == numChannels && (numChannels == 2 ==> |samples[0]| == |samples[1]|)
  }

  /** The number of frames an accepted call adds. */
  function FrameCount(samples: seq<seq<int>>): nat
  {
    if |samples| == 0 then 0 else |samples[0]|
  }

  lemma AcceptedHasFrames(e: Encoder, samples: seq<seq<int>>)
    requires Inv(e) && Accepts(e.numChannels, samples)
    ensures HasFrames(samples, FrameCount(samples))
  {
  }

  /** Appending `n` whole frames of PCM data keeps the encoder invariant
      once `dataSize` counts them. */
  lemma AppendedEncoderInv(e: Encoder, n: nat, pcm: seq<byte>, buf: Vector)
    requires Inv(e) && Valid(buf)
    requires |pcm| == n * (e.numChannels * BytesPerSample)
    requires Contents(buf) == Contents(e.buf) + pcm
    ensures e.numChannels * BytesPerSample * n == |pcm|
    ensures Inv(Encoder(e.sampleRate, e.numChannels, e.dataSize + e.numChannels * BytesPerSample * n, buf))
  {
    var blockAlign := e.numChannels * BytesPerSample;
    assert e.numChannels * BytesPerSample * n == n * blockAlign;
    HasHeaderExtends(Contents(e.buf), pcm, e.sampleRate, e.numChannels);
    DivAddMultiple(e.dataSize, n, blockAlign);
    assert buf.size == |Contents(buf)|;
  }

  /** The appending half of `addSamples`, once the checks have passed: the
      call's interleaved PCM stream goes at the end of the buffer and its
      length is added to `dataSize`. */
  function AppendSamples(e: Encoder, samples: seq<seq<int>>): (r: Encoder)
    requires Inv(e) && Accepts(e.numChannels, samples)
    ensures Inv(r)
    ensures r.sampleRate == e.sampleRate && r.numChannels == e.numChannels
    ensures HasFrames(samples, FrameCount(samples))
    ensures r.dataSize == e.dataSize + |Interleave(samples, FrameCount(samples))|
    ensures Contents(r.buf) == Contents(e.buf) + Interleave(samples, FrameCount(samples))
  {
    var n := |samples[0]|;
    AcceptedHasFrames(e, samples);
    var buf := AppendFrames(e.buf, samples, n);
    AppendedEncoderInv(e, n, Interleave(samples, n), buf);
    Encoder(e.sampleRate, e.numChannels, e.dataSize + e.numChannels * BytesPerSample * n, buf)
  }

  /** `addSamples(samples)`. A call with the wrong number of channel arrays,
      or with stereo arrays of different lengths, fails before anything is
      written. An accepted call appends the call's interleaved PCM stream and
      adds its length to `dataSize`, so the invariant, and with it
      `size == 44 + dataSize`, holds across any number of calls. */
  function AddSamples(e: Encoder, samples: seq<seq<int>>): (r: Result<Encoder>)
    requires Inv(e)
    ensures r.Err? <==> !Accepts(e.numChannels, samples)
    ensures r.Err? ==> r.error == InvalidDataFormat
    ensures r.Ok? ==>
      && HasFrames(samples, FrameCount(samples))
      && var pcm := Interleave(samples, FrameCount(samples));
      && Inv(r.value)
      && r.value.sampleRate == e.sampleRate && r.value.numChannels == e.numChannels
      && r.value.dataSize == e.dataSize + |pcm|
      && Contents(r.value.buf) == Contents(e.buf) + pcm
  {
    if |samples| != e.numChannels then Err(InvalidDataFormat)
    else if e.numChannels == 2 && |samples[0]| != |samples[1]| then Err(InvalidDataFormat)
    else Ok(AppendSamples(e, samples))
  }

  // ---------------------------------------------------------------------
  // Backpatching and output
  // ---------------------------------------------------------------------

  /** The two `insertData` calls of `writeBuffer` (the same two open
      `download`) on the vector: the RIFF chunk size `36 + dataSize` at
      offset 4, then the data chunk size at offset 40. */
  function PatchedVector(v: Vector, dataSize: int): (r: Vector)
    requires Valid(v) && v.size >= HeaderSize
  {
    InsertWithinContents(v, 4, Encode(36 + dataSize, 4));
    var v1 := InsertInt(v, 4, 36 + dataSize, 4);
    InsertWithinContents(v1, 40, Encode(dataSize, 4));
    InsertInt(v1, 40, dataSize, 4)
  }

  /** The patch writes the two size fields and keeps every other byte. */
  lemma PatchedBytes(v: Vector, dataSize: int)
    requires Valid(v) && v.size >= HeaderSize
    ensures var r := PatchedVector(v, dataSize);
      var b0 := Contents(v);
      var b2 := Contents(r);
      && Valid(r) && r.size == v.size && |b2| == |b0|
      && b2[..4] == b0[..4]
      && b2[4..8] == Encode(36 + dataSize, 4)
      && b2[8..40] == b0[8..40]
      && b2[40..44] == Encode(dataSize, 4)
      && b2[44..] == b0[44..]
  {
    var b0 := Contents(v);
    InsertWithinContents(v, 4, Encode(36 + dataSize, 4));
    var v1 := InsertInt(v, 4, 36 + dataSize, 4);
    var b1 := Contents(v1);
    assert b1 == b0[..4] + Encode(36 + dataSize, 4) + b0[8..];
    InsertWithinContents(v1, 40, Encode(dataSize, 4));
    var v2 := InsertInt(v1, 40, dataSize, 4);
    var b2 := Contents(v2);
    assert b2 == b1[..40] + Encode(dataSize, 4) + b1[44..];
  }

  /** A stream whose two size fields are replaced, every other byte kept,
      holds the header with the new sizes in front of the old data. */
  lemma SplicedHeader(b0: seq<byte>, b2: seq<byte>, sampleRate: int, numChannels: int,
                      riffSize: int, dataSize: int)
    requires HasHeader(b0, sampleRate, numChannels) && |b2| == |b0|
    requires b2[..4] == b0[..4] && b2[4..8] == Encode(riffSize, 4)
    requires b2[8..40] == b0[8..40] && b2[40..44] == Encode(dataSize, 4)
    requires b2[44..] == b0[44..]
    ensures b2 == Header(sampleRate, numChannels, riffSize, dataSize) + b0[HeaderSize..]
  {
    HeaderParts(sampleRate, numChannels, Decode(b0[4..8]), Decode(b0[40..44]));
    HeaderParts(sampleRate, numChannels, riffSize, dataSize);
    SpliceFields(b0, b2, b0[..HeaderSize], Header(sampleRate, numChannels, riffSize, dataSize));
  }

  /** The splice of `SplicedHeader` on plain byte sequences: `b2` takes the
      two size fields from `h` and every other byte from `b0`, and `h`
      agrees with the header `h0` in front of `b0` outside the size fields. */
  lemma SpliceFields(b0: seq<byte>, b2: seq<byte>, h0: seq<byte>, h: seq<byte>)
    requires |b2| == |b0| >= HeaderSize && |h| == HeaderSize && b0[..HeaderSize] == h0
    requires h0[..4] == h[..4] && h0[8..40] == h[8..40]
    requires b2[..4] == b0[..4] && b2[4..8] == h[4..8]
    requires b2[8..40] == b0[8..40] && b2[40..44] == h[40..44]
    requires b2[44..] == b0[44..]
    ensures b2 == h + b0[HeaderSize..]
  {
    forall j | 0 <= j < |b2|
      ensures b2[j] == (h + b0[HeaderSize..])[j]
    {
      if j < 4 {
        assert b2[j] == b2[..4][j] && h[j] == h[..4][j] && b0[j] == b0[..4][j];
      } else if j < 8 {
        assert b2[j] == b2[4..8][j - 4] && h[j] == h[4..8][j - 4];
      } else if j < 40 {
        assert b2[j] == b2[8..40][j - 8] && h[j] == h[8..40][j - 8] && b0[j] == b0[8..40][j - 8];
      } else if j < 44 {
        assert b2[j] == b2[40..44][j - 40] && h[j] == h[40..44][j - 40];
      } else {
        assert b2[j] == b2[44..][j - 44];
      }
    }
  }

  /** Patching a stream that begins with a header of the given format
      leaves a stream that begins with the header holding the two sizes,
      followed by the same bytes as before, and of the same length. */
  lemma PatchedHeader(v: Vector, sampleRate: int, numChannels: int, dataSize: int)
    requires Valid(v) && v.size >= HeaderSize
    requires HasHeader(Contents(v), sampleRate, numChannels)
    ensures Valid(PatchedVector(v, dataSize)) && PatchedVector(v, dataSize).size == v.size
    ensures Contents(PatchedVector(v, dataSize))
         == Header(sampleRate, numChannels, 36 + dataSize, dataSize) + Contents(v)[HeaderSize..]
    ensures HasHeader(Contents(PatchedVector(v, dataSize)), sampleRate, numChannels)
  {
    var b2 := Contents(PatchedVector(v, dataSize));
    PatchedBytes(v, dataSize);
    SplicedHeader(Contents(v), b2, sampleRate, numChannels, 36 + dataSize, dataSize);
    HeaderOfDecodedFields(sampleRate, numChannels, 36 + dataSize, dataSize);
    assert b2[..HeaderSize] == Header(sampleRate, numChannels, 36 + dataSize, dataSize);
  }

  /** The size patching of `writeBuffer`: afterwards the stream is the
      header with the sizes `36 + dataSize` and `dataSize`, followed by the
      PCM data, unchanged, and `size` is kept. */
  function PatchSizes(e: Encoder): (r: Encoder)
    requires Inv(e)
    ensures Inv(r)
    ensures r.sampleRate == e.sampleRate && r.numChannels == e.numChannels
    ensures r.dataSize == e.dataSize && r.buf.size == e.buf.size
    ensures Contents(r.buf)
         == Header(e.sampleRate, e.numChannels, 36 + e.dataSize, e.dataSize)
            + Contents(e.buf)[HeaderSize..]
  {
    PatchedHeader(e.buf, e.sampleRate, e.numChannels, e.dataSize);
    e.(buf := PatchedVector(e.buf, e.dataSize))
  }

  /** `writeBuffer()`: the sizes patched, then the `size` bytes of the
      vector. The output is the header with the final sizes followed by all
      the PCM data added so far, `44 + dataSize` bytes in all. */
  function WriteBuffer(e: Encoder): (r: (Encoder, seq<byte>))
    requires Inv(e)
    ensures Inv(r.0)
    ensures r.0.sampleRate == e.sampleRate && r.0.numChannels == e.numChannels
    ensures r.0.dataSize == e.dataSize
    ensures r.1 == Contents(r.0.buf)
    ensures |r.1| == HeaderSize + e.dataSize
    ensures r.1 == Header(e.sampleRate, e.numChannels, 36 + e.dataSize, e.dataSize)
                   + Contents(e.buf)[HeaderSize..]
  {
    var p := PatchSizes(e);
    (p, Contents(p.buf))
  }

  /** Calling `writeBuffer` twice in a row returns the same bytes and leaves
      the encoder as the first call did. */
  lemma WriteBufferIdempotent(e: Encoder)
    requires Inv(e)
    ensures WriteBuffer(WriteBuffer(e).0) == WriteBuffer(e)
  {
    var (p, out) := WriteBuffer(e);
    var (p2, out2) := WriteBuffer(p);
    assert Contents(p.buf)[HeaderSize..] == Contents(e.buf)[HeaderSize..];
    assert out2 == out;
    assert p2.buf == p.buf by {
      assert p2.buf.size == p.buf.size;
      assert p2.buf.store == p.buf.store by {
        PatchStoreUnchanged(p);
      }
    }
  }

  /** Patching an encoder whose sizes are already patched writes each size
      byte with the value it already holds. */
  lemma PatchStoreUnchanged(p: Encoder)
    requires Inv(p)
    requires Contents(p.buf)[..HeaderSize]
          == Header(p.sampleRate, p.numChannels, 36 + p.dataSize, p.dataSize)
    ensures PatchSizes(p).buf.store == p.buf.store
  {
    var q := PatchSizes(p);
    assert |q.buf.store| == |p.buf.store|;
    forall j | 0 <= j < |p.buf.store|
      ensures q.buf.store[j] == p.buf.store[j]
    {
      if j < p.buf.size {
        assert Contents(q.buf)[j] == Contents(p.buf)[j];
      }
    }
  }
}
