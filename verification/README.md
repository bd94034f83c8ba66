# wav.js encoder core, modelled in Dafny

`wav.js` builds a 16-bit PCM WAVE file in memory. Its parts are:

- **`new WAV(sampleRate, numChannels)`** validates its two arguments. It then
  writes the canonical 44-byte header into a growable byte vector
  (`_Uint8Vector`). Both size fields of that header start at zero.
- **`addSamples`** appends the samples of one or two channels, interleaved
  frame by frame, as 16-bit little-endian fields. It also counts the PCM bytes.
- **`writeBuffer`** patches the RIFF chunk size (`36 + dataSize`) and the data
  chunk size (`dataSize`) into the header, then returns the used bytes of the
  vector.

The header layout is the one the WAVE form definition gives in the
Microsoft/IBM Multimedia Programming Interface and Data Specifications 1.0:

- a `RIFF` chunk of form type `WAVE`;
- a 16-byte `fmt ` chunk with format tag 1 (WAVE_FORMAT_PCM);
- a `data` chunk.

The project has five modules:

- `LittleEndian` (`little_endian.dfy`) models the JavaScript expression
  `(v >> (i * 8)) & 0xFF` exactly: the conversion to 32 bits, the arithmetic
  shift and the mask. It proves that the expression gives byte `i` of `v` in
  two's complement. It also proves the round trips with a little-endian
  decoder. Both size fields therefore wrap modulo 2^32.
- `ByteVector` (`byte_vector.dfy`) models `_Uint8Vector` as a value:
  - `store` is the backing `Uint8Array`, and its length is the capacity;
  - `size` is `_size`.

  Its invariant `Valid` says which capacities can be reached from 44: 44
  itself, or a power of two above 44. From any of these, one growth step to
  `_nextPowerOf2` leaves room for a write of up to four bytes. So no store
  lands past the end of the array, where a `Uint8Array` would silently drop
  it.
- `Wav` (`wav.dfy`) holds:
  - the header as a pure reference, and a reader of that header;
  - the constructor's checks and its thirteen header writes;
  - `addSamples`, with the reference interleaved PCM stream;
  - the size patching and the output of `writeBuffer`.
- `Session` (`session.dfy`) covers any sequence of `addSamples` and
  `writeBuffer` calls on a constructed encoder. It proves what the final
  `writeBuffer` returns: the header with the final sizes, followed by the
  interleaved samples of every accepted call.
- `Loops` (`loops.dfy`) re-runs the source's loops step by step on values:
  - the shift loop of `_nextPowerOf2` and the copy loop of `_resizeArray`;
  - the two store loops of `appendData` and `insertData`;
  - the constructor, the sample loop of `addSamples`, and `writeBuffer`.

  Each method is proved equal to the functional model, so every property
  proved of the model holds of these loops.

Modelling choices:

- **Samples** are the integers `Math.round(sample * 32767)` that the source
  computes. The floating-point scaling is outside the model.
- **Constructor arguments** are `real`. `Number.isInteger(x)` is
  `x.Floor as real == x`.
- **Errors.** Each thrown error is an `Err` with one constructor per message.
- **A rejected `addSamples`** (the `invalid data format` error) leaves the
  encoder as it was. Those checks run before any write.

## Model

| member | source | states |
|---|---|---|
| `LittleEndian.ShiftMaskIsByteAt` | wav.js:72-74 | For the four shifts used, `(v >> (8 * i)) & 0xFF` is byte `i` of `v` in two's complement, for every integer `v`, however large. |
| `LittleEndian.DecodeEncode` | wav.js:72-74 | A field of width `w` decodes to `v` modulo 2^(8w): the writer keeps the low `w` bytes. |
| `LittleEndian.EncodeDecode` | wav.js:72-74 | Writing the value a field of up to four bytes decodes to gives back the same bytes. |
| `LittleEndian.EncodeWraps` | wav.js:72-74 | Two integers give the same field exactly when they agree modulo 2^(8w). |
| `LittleEndian.Int16RoundTrip` | wav.js:201-202 | A sample stored with two bytes reads back as itself in two's complement when it lies in -32768..32767. Any other sample reads back as its low 16 bits. |
| `ByteVector.New` | wav.js:21-23 | A new vector has a store of the requested length and holds no bytes. |
| `ByteVector.ContentsOfValid` | wav.js:54-56 | On a valid vector, the output of the vector's `writeBuffer` is exactly the first `size` bytes of the store, in order. |
| `ByteVector.NextPowerOf2` | wav.js:44-51 | The result is a power of two strictly above `n`. It is 1 for `n == 0` and at most `2n` otherwise, so it is the least such power. |
| `ByteVector.NextPowerOf2In32Bits` | wav.js:44-51 | For every `n` below 2^30, the 32-bit `1 << count` after the shift loop equals the least power of two above `n`. |
| `ByteVector.NextPowerOf2Overflows` | wav.js:44-51 | For `n` from 2^30 up to 2^31, the least power of two above `n` is 2^31, but `1 << count` gives -2^31. |
| `ByteVector.NextPowerOf2Doubles` | wav.js:44-51 | Growing a power-of-two capacity doubles it. |
| `ByteVector.FirstGrowthSteps` | wav.js:65-66 | The encoder's vector grows from 44 to 64, then to 128. |
| `ByteVector.GrowthKeepsRoom` | wav.js:65-67 | From a reachable capacity, one growth step reaches another reachable capacity with at least four more bytes of room. |
| `ByteVector.NewVectorValid` | wav.js:142 | The vector the constructor creates satisfies the vector invariant. |
| `ByteVector.Resize` | wav.js:27-41 | The new store has `newSize` bytes. It keeps every old byte below `newSize` and is zero beyond the old length. |
| `ByteVector.Grow` | wav.js:65-67 | The store grows to the next power of two exactly when the write would end past the capacity. Old bytes are kept, new ones are zero, and `size` is unchanged. |
| `ByteVector.WriteBytes` | wav.js:72-74 | The written bytes sit at `at..at+|bs|` and every other byte is unchanged. |
| `ByteVector.AppendBytes` | wav.js:59-83 | The invariant is kept and the capacity grows only when needed. `size` grows by the length, and the contents are the old contents followed by the bytes. |
| `ByteVector.AppendInt` | wav.js:59-83 | The same as `AppendBytes` for an integer, whose bytes are its little-endian field. |
| `ByteVector.InsertBytes` | wav.js:86-112 | When the write ends within one growth step, the invariant is kept. Every byte of the result is either a written byte, an old byte, or zero in a gap. `size` becomes the write's end if that is larger. |
| `ByteVector.InsertInt` | wav.js:86-112 | The field is written at `index`, and all other old bytes are kept. |
| `ByteVector.InsertWithinContents` | wav.js:86-112 | Overwriting bytes already written never needs growth and keeps `size`. The contents are the prefix, then the new bytes, then the suffix. |
| `Wav.TagBytes` | wav.js:76-78 | The stored bytes of each chunk identifier are the character codes of its four characters. |
| `Wav.HeaderParts` | wav.js:143-155 | The header splits into its two size fields and the bytes around them, which depend on the format only. |
| `Wav.HeaderOfDecodedFields` | wav.js:143-155 | Writing the sizes a header decodes to gives back the same header. |
| `Wav.HasHeaderExtends` | wav.js:202 | Appending bytes keeps the header at the front of the stream. |
| `Wav.ParseHeaderRoundTrip` | wav.js:143-155 | A reader of the header gets back the PCM format tag and the channel count and sample rate that were written. It gets the derived byte rate and block align, 16 bits per sample, and both sizes modulo 2^32. |
| `Wav.FmtChunkFields` | wav.js:146-153 | The position of each field in the `fmt ` chunk. |
| `Wav.HeaderFieldSlices` | wav.js:143-155 | The position of each field in the 44-byte header. |
| `Wav.WriteRiffHeader` | wav.js:143-145 | The first three writes append the RIFF identifier, the chunk size and the form type, with no growth when they fit. |
| `Wav.WriteFmtChunk` | wav.js:146-153 | The next eight writes append the whole `fmt ` chunk. |
| `Wav.WriteDataChunkHeader` | wav.js:154-155 | The last two writes append the data chunk identifier and size. |
| `Wav.WriteHeaderInto` | wav.js:142-155 | The thirteen writes fill the 44-byte store exactly, with no growth, and the result is the header with zero sizes. |
| `Wav.WriteHeader` | wav.js:142-155 | The constructor's vector holds exactly the header with both sizes zero, in a store of 44 bytes. |
| `Wav.FreshEncoderInv` | wav.js:141-155 | A fresh encoder with no data satisfies the encoder invariant. |
| `Wav.Create` | wav.js:121-155 | Non-integer arguments fail first, then a rate outside 1..96000, then a channel count outside 1..2, each if and only if its condition holds. Otherwise the encoder has the given format, no data, the invariant, and exactly the zero-size header. |
| `Wav.FrameBytesOfChannels` | wav.js:199-210 | A mono frame is its one sample, and a stereo frame is the left sample then the right one. |
| `Wav.InterleaveLayout` | wav.js:199-211 | Sample `f` of channel `c` sits at byte `(f * channels + c) * 2` of the PCM stream as a 16-bit little-endian field. |
| `Wav.FrameLayout` | wav.js:205-210 | Within a frame, channel `c` occupies bytes `2c..2c+2`. |
| `Wav.SampleReadsBack` | wav.js:199-211 | A reader decoding sample `f` of channel `c` gets back the sample when it lies in the 16-bit range, and its low 16 bits otherwise. |
| `Wav.AppendFrame` | wav.js:205-210 | One iteration appends the frame's samples in channel order and keeps the vector invariant. |
| `Wav.AppendFrames` | wav.js:199-211 | `n` iterations append exactly the reference interleaved stream of the first `n` frames. |
| `Wav.AcceptedHasFrames` | wav.js:194 | Accepted arguments give every channel as many samples as the first. |
| `Wav.AppendedEncoderInv` | wav.js:212 | Adding `channels * 2 * n` to `dataSize` for `n` appended frames keeps the encoder invariant. This includes `size == 44 + dataSize`. |
| `Wav.AppendSamples` | wav.js:198-212 | After the checks, the call's interleaved stream goes at the end of the vector and its length is added to `dataSize`. |
| `Wav.AddSamples` | wav.js:178-213 | The call fails with `invalid data format` if and only if the number of arrays differs from the channel count, or stereo arrays differ in length. Otherwise it appends the interleaved stream, counts it and keeps the invariant. |
| `Wav.PatchedBytes` | wav.js:243-244 | The two inserts write `36 + dataSize` at byte 4 and `dataSize` at byte 40, and keep every other byte and the size. |
| `Wav.SplicedHeader` | wav.js:243-244 | Replacing the two size fields of a header-led stream gives the header with the new sizes, followed by the same data. |
| `Wav.SpliceFields` | wav.js:243-244 | The splice of `SplicedHeader`, stated for plain byte sequences. |
| `Wav.PatchedHeader` | wav.js:243-244 | After patching, the vector holds the header with the final sizes followed by the unchanged data. |
| `Wav.PatchSizes` | wav.js:243-244 | The patch keeps the format, `dataSize`, `size` and the invariant, and puts the sizes `36 + dataSize` and `dataSize` into the header. |
| `Wav.WriteBuffer` | wav.js:241-247 | The output is `44 + dataSize` bytes: the header with the final sizes, then all the PCM data added so far. |
| `Wav.WriteBufferIdempotent` | wav.js:241-247 | Calling `writeBuffer` a second time returns the same bytes and leaves the encoder as the first call did. |
| `Wav.PatchStoreUnchanged` | wav.js:243-244 | Patching an already patched vector changes no byte of its store. |
| `Session.Step` | wav.js:178-247 | Any call keeps the encoder invariant and the format. |
| `Session.Run` | wav.js:178-247 | Any sequence of calls keeps the encoder invariant and the format. |
| `Session.Pcm` | wav.js:212 | The bytes behind the header number exactly `dataSize`. |
| `Session.StepAppendsCallPcm` | wav.js:178-247 | One call adds exactly its reference PCM to the data and to `dataSize`. A rejected call and `writeBuffer` add nothing. |
| `Session.RunAppendsSessionPcm` | wav.js:178-247 | A sequence of calls adds the concatenated reference PCM of its accepted calls, in call order. |
| `Session.SessionFile` | wav.js:241-247 | From an encoder with no data, `writeBuffer` after any sequence of calls returns the header with sizes `36 + n` and `n`, followed by the `n` PCM bytes of the accepted calls. |
| `Session.SessionOutput` | wav.js:121-247 | Integer arguments in range make construction succeed with the given format. From there the final output is as `SessionFile` states. |
| `Loops.NextPowerOf2Loop` | wav.js:44-51 | The shift-and-count loop followed by `1 << count` computes the least power of two above `n`. |
| `Loops.ResizeArray` | wav.js:27-41 | The early return and the copy loop compute the resized store. |
| `Loops.StoreInt` | wav.js:72-74 | The integer store loop writes the field's little-endian bytes at the offset and nothing else. |
| `Loops.CharCodes` | wav.js:77 | A `Uint8Array` keeps `charCodeAt(i)` unchanged for character codes below 256. |
| `Loops.TagCharCodes` | wav.js:143 | The four identifiers, stored through the string path, are their `TagBytes`. |
| `Loops.StoreString` | wav.js:76-78 | The string store loop writes the character codes at the offset and nothing else. |
| `Loops.AppendData` | wav.js:59-83 | `appendData` for an integer, run step by step, gives the functional append. |
| `Loops.AppendString` | wav.js:59-83 | `appendData` for a string gives the functional append of its character codes. |
| `Loops.InsertData` | wav.js:86-112 | `insertData` for an integer, run step by step, gives the functional insert. |
| `Loops.AppendRiffHeader` | wav.js:143-145 | The three writes as calls, step by step. |
| `Loops.AppendFmtChunk` | wav.js:146-153 | The eight `fmt ` writes as calls, step by step. |
| `Loops.AppendDataChunkHeader` | wav.js:154-155 | The two data chunk writes as calls, step by step. |
| `Loops.NewWav` | wav.js:121-155 | The constructor, run check by check and write by write, gives `Create`. |
| `Loops.AppendFrameData` | wav.js:205-210 | One iteration of the sample loop, as `appendData` calls, gives `AppendFrame`. |
| `Loops.SampleLoop` | wav.js:199-211 | The sample loop over all frames gives `AppendFrames` of all frames. |
| `Loops.AddSamplesLoop` | wav.js:178-213 | `addSamples`, with its checks, its loop and the running count, gives `AddSamples`. |
| `Loops.WriteBufferSteps` | wav.js:241-247 | The two `insertData` calls followed by `_data.slice(0, _size)` give `WriteBuffer`. |

## Left out

- `download` is left out. Its size patch (wav.js:217-218) is the same two `insertData` calls as `writeBuffer`'s, and `PatchSizes` models it. The rest of it is browser I/O: a `Blob`, an object URL, a hidden link, a timer.
- The getters `getSampleRate` and `getChannelCount` are left out. They return the constructor's validated arguments, which `Create` states.
- `Math.round(sample * 32767)` is left out because it is floating-point arithmetic. Samples enter the model as the rounded integers. As written, -1.0 becomes -32767, not -32768. A sample slightly outside -1..1 (1.00001, say) still rounds into -32768..32767. Once the rounded integer leaves that range, the store loop keeps its low 16 bits (`Int16RoundTrip`).
- A `NaN` or ±Infinity sample is left out. `Number.isInteger` fails for it, so `appendData` takes the string path, where `data.charCodeAt` is not a function and the call throws a `TypeError` (wav.js:77). The samples of earlier frames of that call are already stored (wav.js:202, 208-209), but `_dataSize += …` (wav.js:212) never runs. After such a call the source no longer has `size == 44 + dataSize`, which the model's invariant `Inv` states.
- The `Array.isArray` and `Float32Array` checks of `addSamples` are left out. Their inputs are typed here as a sequence of integer sequences, so only the count and length checks remain, and both are modelled.
- `appendData`/`insertData` with `numBytes` omitted or zero (`numBytes = data.length`) is modelled only for strings, the one way the encoder uses it. For an integer, `data.length` is `undefined`, which the encoder never passes.
- Strings are only the four 4-character chunk identifiers. `charCodeAt` is modelled as the character code modulo 256, as a `Uint8Array` store truncates it. UTF-16 surrogate pairs are not modelled.
- The arguments of the vector writes are bounded to at most four bytes (`MaxWidth`), the widest the encoder writes. The vector invariant is specific to the encoder's initial length of 44.
- `ByteVector.GrowthKeepsRoom`: this holds in the model for every reachable capacity, and with it `Valid` grows without bound. In the source it holds only while the store is at most 2^30 bytes. Growing a store of 2^30 bytes computes `1 << 31`, which is -2^31 (`NextPowerOf2Overflows`). `new Uint8Array(-2147483648)` (wav.js:34) then throws a `RangeError` in the middle of `appendData`. As with a `NaN` sample, earlier samples of that call stay stored and `_dataSize` is not updated. The model has no such limit.
- `ByteVector.NextPowerOf2`: this is the least power of two above `n` for every `n`. The source's 32-bit result agrees with it only below 2^30 (`NextPowerOf2In32Bits`). For `n` from 2^31 up to 2^32, `n >>= 1` makes `n` negative. `n` then stays at -1 and the loop of wav.js:46-48 never ends. The encoder cannot reach such a capacity, because growth already fails at 2^30.
- Exceptions: the four errors the source throws itself are modelled as `Err` results. A call rejected with one of them leaves the encoder unchanged, which matches the source because those checks come before any write. The `TypeError` and `RangeError` cases above are not modelled. They leave a partly written vector.
- Constructor arguments are `real`, so `NaN`, ±Infinity and values that are not numbers cannot be passed to `Create`. In the source all of them fail `Number.isInteger` and throw the "must be integers" error that `NotIntegers` models.
