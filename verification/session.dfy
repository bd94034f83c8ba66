/** Whole sessions with the WAV writer: construction, any sequence of
    `addSamples` and `writeBuffer` calls, and the file the last
    `writeBuffer` returns.
 */
module Session {
  import opened LittleEndian
  import opened ByteVector
  import opened Wav

  /** A call a caller makes on a constructed encoder. */
  datatype Call = AddSamplesCall(samples: seq<seq<int>>) | WriteBufferCall

  /** One call: a rejected `addSamples` throws and leaves the encoder as it
      was; `writeBuffer` leaves it with its size fields patched. */
  function Step(e: Encoder, call: Call): (r: Encoder)
    requires Inv(e)
    ensures Inv(r) && r.sampleRate == e.sampleRate && r.numChannels == e.numChannels
  {
    match call
    case AddSamplesCall(samples) =>
      (match AddSamples(e, samples) case Ok(next) => next case Err(_) => e)
    case WriteBufferCall => WriteBuffer(e).0
  }

  /** The calls in order. */
  function Run(e: Encoder, calls: seq<Call>): (r: Encoder)
    requires Inv(e)
    ensures Inv(r) && r.sampleRate == e.sampleRate && r.numChannels == e.numChannels
    decreases |calls|
  {
    if calls == [] then e else Run(Step(e, calls[0]), calls[1..])
  }

  /** The PCM data an encoder holds: everything behind the header. */
  function Pcm(e: Encoder): (p: seq<byte>)
    requires Inv(e)
    ensures |p| == e.dataSize
  {
    Contents(e.buf)[HeaderSize..]
  }

  /** The reference PCM of one call: the interleaved samples of an accepted
      `addSamples`, nothing otherwise. */
  function CallPcm(numChannels: int, call: Call): seq<byte>
    requires 1 <= numChannels <= MaxChannels
  {
    match call
    case AddSamplesCall(samples) =>
      if Accepts(numChannels, samples) then Interleave(samples, FrameCount(samples)) else []
    case WriteBufferCall => []
  }

  /** The reference PCM stream of a session, in call order. */
  function SessionPcm(numChannels: int, calls: seq<Call>): seq<byte>
    requires 1 <= numChannels <= MaxChannels
    decreases |calls|
  {
    if calls == [] then [] else CallPcm(numChannels, calls[0]) + SessionPcm(numChannels, calls[1..])
  }

  lemma DropAfterPrefix<T>(a: seq<T>, b: seq<T>, n: nat)
    requires n <= |a|
    ensures (a + b)[n..] == a[n..] + b
  {
  }

  /** One call adds exactly its reference PCM behind the data already held,
      and counts it in `dataSize`; `writeBuffer` changes no PCM byte. */
  lemma StepAppendsCallPcm(e: Encoder, call: Call)
    requires Inv(e)
    ensures Step(e, call).dataSize == e.dataSize + |CallPcm(e.numChannels, call)|
    ensures Pcm(Step(e, call)) == Pcm(e) + CallPcm(e.numChannels, call)
  {
    match call
    case AddSamplesCall(samples) =>
      if Accepts(e.numChannels, samples) {
        var pcm := Interleave(samples, FrameCount(samples));
        DropAfterPrefix(Contents(e.buf), pcm, HeaderSize);
      }
    case WriteBufferCall =>
      var h := Header(e.sampleRate, e.numChannels, 36 + e.dataSize, e.dataSize);
      DropAfterPrefix(h, Pcm(e), HeaderSize);
  }

  /** A run of calls adds exactly the reference PCM stream of the session. */
  lemma {:induction false} RunAppendsSessionPcm(e: Encoder, calls: seq<Call>)
    requires Inv(e)
    ensures Run(e, calls).dataSize == e.dataSize + |SessionPcm(e.numChannels, calls)|
    ensures Pcm(Run(e, calls)) == Pcm(e) + SessionPcm(e.numChannels, calls)
    decreases |calls|
  {
    if calls != [] {
      var next := Step(e, calls[0]);
      StepAppendsCallPcm(e, calls[0]);
      RunAppendsSessionPcm(next, calls[1..]);
      ConcatAssoc(Pcm(e), CallPcm(e.numChannels, calls[0]), SessionPcm(e.numChannels, calls[1..]));
    }
  }

  /** From an encoder holding no PCM data, any run of calls followed by
      `writeBuffer` returns the header with the final sizes followed by the
      interleaved PCM of every accepted call; `ParseHeaderRoundTrip` then
      reads that header back as the encoder's format and the PCM length. */
  lemma SessionFile(e: Encoder, calls: seq<Call>)
    requires Inv(e) && e.dataSize == 0
    ensures var pcm := SessionPcm(e.numChannels, calls);
      var out := WriteBuffer(Run(e, calls)).1;
      out == Header(e.sampleRate, e.numChannels, 36 + |pcm|, |pcm|) + pcm
  {
    RunAppendsSessionPcm(e, calls);
  }

  /** The encoder's whole contract: `new WAV(sampleRate, numChannels)` with
      integer arguments in range succeeds with the format it was given and
      no data, and from there the
      file `writeBuffer` returns is as `SessionFile` states. */
  lemma SessionOutput(sampleRate: real, numChannels: real, calls: seq<Call>)
    requires IsInteger(sampleRate) && IsInteger(numChannels)
    requires MinSampleRate as real <= sampleRate <= MaxSampleRate as real
    requires 1.0 <= numChannels <= MaxChannels as real
    ensures Create(sampleRate, numChannels).Ok?
    ensures var e := Create(sampleRate, numChannels).value;
      && e.sampleRate as real == sampleRate && e.numChannels as real == numChannels
      && var pcm := SessionPcm(e.numChannels, calls);
      && WriteBuffer(Run(e, calls)).1 == Header(e.sampleRate, e.numChannels, 36 + |pcm|, |pcm|) + pcm
  {
    SessionFile(Create(sampleRate, numChannels).value, calls);
  }
}
