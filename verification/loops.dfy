/** The WAV writer's loops, step by step.

    The source mutates a `Uint8Array` in place; here each operation is a
    method that runs the same loop over a value (`s[i := b]` for the store
    `_data[i] = b`) and returns the new value. Every method is proved to
    compute what the functional model of `ByteVector` and `Wav` describes,
    so the properties proved there hold of these loops too.
 */
module Loops {
  import opened LittleEndian
  import opened ByteVector
  import opened Wav

  // ---------------------------------------------------------------------
  // `_Uint8Vector`
  // ---------------------------------------------------------------------

  /** `_nextPowerOf2(n)`: shift `n` right until it is zero, counting the
      shifts, then `1 << count`. */
  method NextPowerOf2Loop(n0: nat) returns (p: nat)
    ensures p == NextPowerOf2(n0)
  {
    var n := n0;
    var count := 0;
    while n != 0
      invariant count + BitLength(n) == BitLength(n0)
      decreases n
    {
      n := n / 2;
      count := count + 1;
    }
    p := Pow2(count);
  }

  /** `_resizeArray(newSize)`: nothing when the size does not change,
      otherwise a zero-filled array of `newSize` bytes into which the first
      `min(newSize, data.length)` bytes are copied. */
  method ResizeArray(data: seq<byte>, newSize: nat) returns (r: seq<byte>)
    ensures r == Resize(data, newSize)
  {
    if newSize == |data| {
      return data;
    }
    r := Zeros(newSize);
    var dataStop := if newSize > |data| then |data| else newSize;
    var i := 0;
    while i < dataStop
      invariant 0 <= i <= dataStop && |r| == newSize
      invariant forall j :: 0 <= j < i ==> r[j] == data[j]
      invariant forall j :: i <= j < newSize ==> r[j] == 0
    {
      r := r[i := data[i]];
      i := i + 1;
    }
  }

  /** The store loop of the integer path: byte `i` of the field is
      `(x >> (i * 8)) & 0xFF`, stored at `at + i`. */
  method StoreInt(store: seq<byte>, at: nat, x: int, numBytes: nat) returns (r: seq<byte>)
    requires numBytes <= MaxWidth && at + numBytes <= |store|
    ensures r == WriteBytes(store, at, Encode(x, numBytes))
  {
    ghost var bs := Encode(x, numBytes);
    r := store;
    var i := 0;
    while i < numBytes
      invariant 0 <= i <= numBytes && |r| == |store|
      invariant forall j :: 0 <= j < i ==> r[at + j] == bs[j]
      invariant forall j :: 0 <= j < |store| && !(at <= j < at + i) ==> r[j] == store[j]
    {
      assert bs[i] == ShiftMask(x, i);
      r := r[at + i := ShiftMask(x, i)];
      i := i + 1;
    }
    ghost var w := WriteBytes(store, at, bs);
    assert forall j :: 0 <= j < |r| ==> r[j] == w[j] by {
      forall j | 0 <= j < |r|
        ensures r[j] == w[j]
      {
        if at <= j < at + numBytes {
          assert r[at + (j - at)] == bs[j - at];
        }
      }
    }
  }

  /** The byte a `Uint8Array` keeps of `s.charCodeAt(i)`: its low eight bits. */
  function CharCodes(s: string): (r: seq<byte>)
    ensures |r| == |s|
    ensures forall i :: 0 <= i < |s| && s[i] as int < 256 ==> r[i] == s[i] as int
  {
    seq(|s|, i requires 0 <= i < |s| => (s[i] as int) % 256)
  }

  /** The constructor's four identifiers take the string path and store
      their bytes unchanged. */
  lemma TagCharCodes(t: Tag)
    ensures CharCodes(TagName(t)) == TagBytes(t)
  {
    var s := TagName(t);
    assert forall i :: 0 <= i < 4 ==> s[i] as int < 128;
  }

  /** The store loop of the string path: `s.charCodeAt(i)` at `at + i`. */
  method StoreString(store: seq<byte>, at: nat, s: string) returns (r: seq<byte>)
    requires at + |s| <= |store|
    ensures r == WriteBytes(store, at, CharCodes(s))
  {
    r := store;
    var i := 0;
    while i < |s|
      invariant 0 <= i <= |s| && |r| == |store|
      invariant forall j :: 0 <= j < i ==> r[at + j] == (s[j] as int) % 256
      invariant forall j :: 0 <= j < |store| && !(at <= j < at + i) ==> r[j] == store[j]
    {
      r := r[at + i := (s[i] as int) % 256];
      i := i + 1;
    }
  }

  /** `appendData(x, numBytes)` for an integer. */
  method AppendData(v: Vector, x: int, numBytes: nat) returns (r: Vector)
    requires Valid(v) && 1 <= numBytes <= MaxWidth
    ensures r == AppendInt(v, x, numBytes)
  {
    var store := v.store;
    if v.size + numBytes > |store| {
      var p := NextPowerOf2Loop(|store|);
      store := ResizeArray(store, p);
      GrowthKeepsRoom(|v.store|);
    }
    store := StoreInt(store, v.size, x, numBytes);
    r := Vector(store, v.size + numBytes);
  }

  /** `appendData(s)` for a string, `numBytes` being its length. */
  method AppendString(v: Vector, s: string) returns (r: Vector)
    requires Valid(v) && |s| <= MaxWidth
    ensures r == AppendBytes(v, CharCodes(s))
  {
    var store := v.store;
    if v.size + |s| > |store| {
      var p := NextPowerOf2Loop(|store|);
      store := ResizeArray(store, p);
      GrowthKeepsRoom(|v.store|);
    }
    store := StoreString(store, v.size, s);
    r := Vector(store, v.size + |s|);
  }

  /** `insertData(index, x, numBytes)` for an integer. */
  method InsertData(v: Vector, index: nat, x: int, numBytes: nat) returns (r: Vector)
    requires Valid(v) && 1 <= numBytes <= MaxWidth
    requires index + numBytes <= NextPowerOf2(|v.store|)
    ensures r == InsertInt(v, index, x, numBytes)
  {
    var store := v.store;
    if index + numBytes > |store| {
      var p := NextPowerOf2Loop(|store|);
      store := ResizeArray(store, p);
    }
    store := StoreInt(store, index, x, numBytes);
    var size := v.size;
    if index + numBytes > size {
      size := index + numBytes;
    }
    r := Vector(store, size);
  }

  // ---------------------------------------------------------------------
  // The constructor
  // ---------------------------------------------------------------------

  /** The first three header writes of the constructor. */
  method AppendRiffHeader(v: Vector, riffSize: int) returns (r: Vector)
    requires Valid(v)
    ensures r == WriteRiffHeader(v, riffSize)
  {
    TagCharCodes(Riff);
    TagCharCodes(Wave);
    var v1 := AppendString(v, "RIFF");
    var v2 := AppendData(v1, riffSize, 4);
    r := AppendString(v2, "WAVE");
  }

  /** The eight writes of the `fmt ` chunk. */
  method AppendFmtChunk(v: Vector, sampleRate: int, numChannels: int) returns (r: Vector)
    requires Valid(v)
    ensures r == WriteFmtChunk(v, sampleRate, numChannels)
  {
    TagCharCodes(Fmt);
    r := AppendString(v, "fmt ");
    r := AppendData(r, 16, 4);
    r := AppendData(r, 1, 2);
    r := AppendData(r, numChannels, 2);
    r := AppendData(r, sampleRate, 4);
    r := AppendData(r, sampleRate * numChannels * BytesPerSample, 4);
    r := AppendData(r, numChannels * BytesPerSample, 2);
    r := AppendData(r, BytesPerSample * 8, 2);
  }

  /** The last two header writes. */
  method AppendDataChunkHeader(v: Vector, dataSize: int) returns (r: Vector)
    requires Valid(v)
    ensures r == WriteDataChunkHeader(v, dataSize)
  {
    TagCharCodes(Data);
    var v1 := AppendString(v, "data");
    r := AppendData(v1, dataSize, 4);
  }

  /** `new WAV(sampleRate, numChannels)`: the three checks in the source's
      order, each failure its own error, then `new _Uint8Vector(44)` and
      the thirteen header writes. */
  method NewWav(sampleRate: real, numChannels: real) returns (r: Result<Encoder>)
    ensures r == Create(sampleRate, numChannels)
  {
    if !IsInteger(sampleRate) || !IsInteger(numChannels) {
      return Err(NotIntegers);
    }
    if sampleRate < MinSampleRate as real || sampleRate > MaxSampleRate as real {
      return Err(UnsupportedSampleRate);
    }
    if numChannels < 1.0 || numChannels > MaxChannels as real {
      return Err(UnsupportedChannelCount);
    }
    var rate := sampleRate.Floor;
    var channels := numChannels.Floor;
    var v := New(InitialCapacity);
    NewVectorValid();
    v := AppendRiffHeader(v, 0);
    v := AppendFmtChunk(v, rate, channels);
    v := AppendDataChunkHeader(v, 0);
    r := Ok(Encoder(rate, channels, 0, v));
  }

  // ---------------------------------------------------------------------
  // `addSamples` and `writeBuffer`
  // ---------------------------------------------------------------------

  /** One iteration of the sample loop: the samples of frame `f`, one
      `appendData(sample, 2)` per channel in order. */
  method AppendFrameData(v: Vector, samples: seq<seq<int>>, f: nat, numChannels: int) returns (r: Vector)
    requires Valid(v)
    requires |samples| == numChannels && 1 <= numChannels <= MaxChannels
    requires HasFrames(samples, f + 1)
    ensures r == AppendFrame(v, samples, f)
  {
    if numChannels == 1 {
      r := AppendData(v, samples[0][f], BytesPerSample);
    } else {
      r := AppendData(v, samples[0][f], BytesPerSample);
      r := AppendData(r, samples[1][f], BytesPerSample);
    }
  }

  /** The sample loop of `addSamples` over accepted arguments, frame by
      frame. */
  method SampleLoop(buf: Vector, samples: seq<seq<int>>, numChannels: int) returns (r: Vector)
    requires Valid(buf)
    requires 1 <= numChannels <= MaxChannels && Accepts(numChannels, samples)
    ensures HasFrames(samples, |samples[0]|)
    ensures r == AppendFrames(buf, samples, |samples[0]|)
  {
    var n := |samples[0]|;
    assert HasFrames(samples, n);
    r := buf;
    var i := 0;
    while i < n
      invariant 0 <= i <= n
      invariant r == AppendFrames(buf, samples, i)
    {
      FramesStep(buf, samples, i, n);
      r := AppendFrameData(r, samples, i, numChannels);
      i := i + 1;
    }
  }

  /** `addSamples(samples)`: the argument checks, then the sample loop,
      then the running count. */
  method AddSamplesLoop(e: Encoder, samples: seq<seq<int>>) returns (r: Result<Encoder>)
    requires Inv(e)
    ensures r == AddSamples(e, samples)
  {
    if |samples| != e.numChannels {
      return Err(InvalidDataFormat);
    }
    if e.numChannels == 2 && |samples[0]| != |samples[1]| {
      return Err(InvalidDataFormat);
    }
    var buf := SampleLoop(e.buf, samples, e.numChannels);
    AcceptedAppends(e, samples);
    r := Ok(Encoder(e.sampleRate, e.numChannels,
                    e.dataSize + e.numChannels * BytesPerSample * |samples[0]|, buf));
  }

  /** An accepted `addSamples` call appends the frames the sample loop
      appends and adds their length to the count. */
  lemma AcceptedAppends(e: Encoder, samples: seq<seq<int>>)
    requires Inv(e) && Accepts(e.numChannels, samples)
    ensures HasFrames(samples, |samples[0]|)
    ensures AddSamples(e, samples)
         == Ok(Encoder(e.sampleRate, e.numChannels,
                       e.dataSize + e.numChannels * BytesPerSample * |samples[0]|,
                       AppendFrames(e.buf, samples, |samples[0]|)))
  {
    AppendedEncoder(e, samples);
  }

  lemma AppendedEncoder(e: Encoder, samples: seq<seq<int>>)
    requires Inv(e) && Accepts(e.numChannels, samples)
    ensures HasFrames(samples, |samples[0]|)
    ensures AppendSamples(e, samples)
         == Encoder(e.sampleRate, e.numChannels,
                    e.dataSize + e.numChannels * BytesPerSample * |samples[0]|,
                    AppendFrames(e.buf, samples, |samples[0]|))
  {
    AcceptedHasFrames(e, samples);
  }

  /** The loop's frames so far extend by one frame per iteration. */
  lemma FramesStep(start: Vector, samples: seq<seq<int>>, i: nat, n: nat)
    requires Valid(start) && 1 <= |samples| <= MaxChannels
    requires HasFrames(samples, n) && i < n
    ensures HasFrames(samples, i + 1)
    ensures Valid(AppendFrames(start, samples, i))
    ensures AppendFrames(start, samples, i + 1) == AppendFrame(AppendFrames(start, samples, i), samples, i)
  {
  }

  /** `writeBuffer()`: the two `insertData` calls that patch the size
      fields, then `_data.slice(0, _size)`. */
  method WriteBufferSteps(e: Encoder) returns (next: Encoder, out: seq<byte>)
    requires Inv(e)
    ensures (next, out) == WriteBuffer(e)
  {
    InsertWithinContents(e.buf, 4, Encode(36 + e.dataSize, 4));
    var v1 := InsertData(e.buf, 4, 36 + e.dataSize, 4);
    InsertWithinContents(v1, 40, Encode(e.dataSize, 4));
    var v2 := InsertData(v1, 40, e.dataSize, 4);
    next := e.(buf := v2);
    out := Contents(v2);
  }
}
