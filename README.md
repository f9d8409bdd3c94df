# Soundboard audio engine: per-packet data handling

This project models the per-packet data path of Soundboard's audio pass-through engine. In each packet cycle the engine:

- reads a packet of little-endian bytes from the microphone;
- decodes the bytes into samples;
- mixes the channels down or up to the speaker's channel count;
- writes the samples into the speaker's buffer.

The source holds two versions of the engine, and both declare the class `Soundboard.Audio`. They are modelled separately:

- **Planar engine** (`Soundboard/AudioProcessor.cs`). Its parts are:
  - the `Sample` codec. Its byte constructor puts `ceil(numBits/8)` bytes into an `int` and shifts the result right;
  - `Channel`, a list of samples;
  - the `Complex` class, whose squared magnitude is cached;
  - the planar `ModifyChannels` mixer;
  - the `Resample` linear interpolator;
  - the zero-padding front end of `DFT`;
  - the capture, render and clear loops of `GetCaptureData`, over one packet;
  - the parts of the `Audio` object that those loops and their callers touch: pitch scale, frame sizes, and the start/stop order.
- **Interleaved engine** (`Soundboard/AudioDevices.cs`). Its parts are:
  - the byte-to-float slot assembly;
  - the identity `ScalePitch`;
  - the interleaved `ModifyChannels`;
  - the render write count;
  - the same `Audio` fields.

Modules:

| module | file | contents |
|---|---|---|
| `Wrappers` | wrappers.dfy | `Result` |
| `Arithmetic` | arithmetic.dfy | multiplication and Euclidean division facts |
| `Bytes` | bytes.dfy | bytes, `Int32`, powers of two, little-endian numbers, two's complement |
| `Samples` | samples.dfy | `Sample`, `Channel`, the byte constructor as written and as corrected |
| `Spectral` | complex.dfy | `Complex` |
| `Averages` | averages.dfy | left-to-right sums and means |
| `PlanarMixer` | planar_mixer.dfy | planar `ModifyChannels` |
| `Resampler` | resampler.dfy | `Resample` |
| `Transform` | transform.dfy | next power of two, zero padding, the padding part of `DFT` |
| `PlanarAudio` | planar_audio.dfy | mix formats, capture, render, clear, the packet-cycle lemmas, the planar `Audio` |
| `InterleavedMixer` | interleaved_mixer.dfy | interleaved `ModifyChannels` |
| `InterleavedAudio` | interleaved_audio.dfy | slot assembly, capture, `ScalePitch`, render, the interleaved `Audio` |

How values and errors are represented:

- **Samples.** A sample is kept as its 32-bit pattern (`Int32`). `ToFloat` and the render loop reinterpret the same 32 bits as a float, so capture and render are modelled bit for bit.
- **Averages and interpolation.** The mixers and the resampler work on sample values as exact reals, with no IEEE rounding.
- **Device buffers.** A device buffer becomes an explicit `seq<Byte>` for capture, and a fresh array for render.
- **Errors.** The exceptions of the modelled operations become an `Err` of a `Result`. That covers `throw new Exception(...)`, `ElementAt` past the end of a list (including `channels.ElementAt(0)` at the `DFT` call for a microphone without channels), and a division by zero. One `Err` is not an exception: `PlanarAudio.NoOutputChannels` stands for the render guard's `continue`.
- **Undefined behaviour.** Where the source would instead read or write past a buffer, the model states the bound as a precondition. A lemma then shows that the engine's own data meets it.

As-written and corrected behaviour:

- The byte constructor's comment at Soundboard/AudioProcessor.cs:30 says the right shift should leave the padding on the left. The copy loop fills the low bytes instead, so the shift discards them. The model carries both readings: `SampleFromBytesAsWritten` with the loop `NewSampleAsWritten`, and the corrected `SampleFromBytes` with the loop `NewSample`.
- The planar capture cursor advances one block per sample. The model carries that offset as `AsWrittenReadOffset` and the corrected one as `ReadOffset`.
- The planar capture loop (`CaptureFrame`, `CapturePacket`) uses the corrected constructor and the corrected offset; the findings below give the as-written halves.
- `DFT` pads channel 0 of the captured packet in place, through the alias `localData`. `PadFirst` models that, and `PadCopy` the padding of a copy.
- Resampling to the current length returns the input only when `numSamples >= 2`. A one-sample target divides zero by zero.

## Model

| member | source | states |
|---|---|---|
| Samples.Sample.ToInt | Soundboard/AudioProcessor.cs:55-58 | The returned `int` rebuilds the very same sample: the value is kept unchanged |
| Samples.FromInt | Soundboard/AudioProcessor.cs:44-47 | `new Sample(int)` followed by `ToInt` gives back the `int` |
| Samples.Copy | Soundboard/AudioProcessor.cs:34-37 | The copy constructor preserves the value |
| Samples.Channel.constructor | Soundboard/AudioProcessor.cs:60 | A new channel holds no samples |
| Samples.ByteCount | Soundboard/AudioProcessor.cs:26 | `Math.Ceiling(numBits / 8.0)` is the least byte count covering `numBits` bits: at most 4 for `numBits <= 32`, and 0 for `numBits <= 0` |
| Samples.ShiftCount | Soundboard/AudioProcessor.cs:31 | The shift count `32 - numBits` keeps only its low five bits, so it is below 32, and it equals `32 - numBits` for 1 to 32 bits |
| Samples.ShiftRight | Soundboard/AudioProcessor.cs:31 | An arithmetic right shift by `s` leaves a value in the signed `(32 - s)`-bit range |
| Samples.SampleFromBytesAsWritten | Soundboard/AudioProcessor.cs:17-32 | The constructor as written (bytes into the low bytes) throws exactly when `numBits > 32` |
| Samples.SampleFromBytes | Soundboard/AudioProcessor.cs:17-32 | The corrected constructor (bytes into the high bytes) throws exactly when `numBits > 32`, and otherwise yields a value in the signed `numBits`-bit range |
| Samples.FullWordSample | Soundboard/AudioProcessor.cs:17-32 | At 32 bits both readings are the 4-byte little-endian word taken as a two's-complement `int` |
| Samples.SampleFromBytesSignExtends | Soundboard/AudioProcessor.cs:17-32 | For whole-byte widths up to 32 bits, the corrected constructor yields the sign extension of the little-endian value of its bytes |
| Samples.ShiftOfLeftJustified | Soundboard/AudioProcessor.cs:31 | Shifting a left-justified `numBits`-bit pattern right by `32 - numBits` sign-extends it |
| Samples.AsWrittenDropsSign | Soundboard/AudioProcessor.cs:25-31 | As written, the result is never negative for 1 to 24 bits, so negative samples are lost |
| Samples.AsWrittenSixteenBitsIsZero | Soundboard/AudioProcessor.cs:25-31 | As written, every 16-bit sample decodes to 0 |
| Samples.SixteenBitCounterexample | Soundboard/AudioProcessor.cs:17-32 | Bytes `00 80` at 16 bits decode to 0 as written and to -32768 once corrected |
| Samples.IntendedSixteenBitIsNegative | Soundboard/AudioProcessor.cs:17-32 | With the bytes left-justified, `00 80` at 16 bits decodes to -32768 |
| Samples.NewSample | Soundboard/AudioProcessor.cs:17-32 | The byte-copy loop into a zeroed 4-byte buffer computes the corrected constructor's result, including its failure |
| Samples.NewSampleAsWritten | Soundboard/AudioProcessor.cs:17-32 | The byte-copy loop as written, copying byte `i` to byte `i`, computes `SampleFromBytesAsWritten`, including its failure |
| Spectral.Complex.Zero | Soundboard/AudioProcessor.cs:67-72 | The default constructor gives zero parts and a zero cache, which is consistent |
| Spectral.Complex.constructor | Soundboard/AudioProcessor.cs:74-79 | Sets both parts, and the cache equals `real*real + imaginary*imaginary` |
| Spectral.Complex.Set | Soundboard/AudioProcessor.cs:81-86 | Sets both parts and re-establishes the cache |
| Spectral.Complex.SetRealPart | Soundboard/AudioProcessor.cs:88-92 | Sets the real part, leaves the imaginary part, and re-establishes the cache |
| Spectral.Complex.SetImagninaryPart | Soundboard/AudioProcessor.cs:94-98 | Sets the imaginary part, leaves the real part, and re-establishes the cache |
| Spectral.Complex.GetRealPart | Soundboard/AudioProcessor.cs:100-103 | Returns the real part |
| Spectral.Complex.GetImaginaryPart | Soundboard/AudioProcessor.cs:105-108 | Returns the imaginary part |
| Spectral.Complex.SquaredMagnitude | Soundboard/AudioProcessor.cs:115-118 | On a consistent object, the cache is the squared modulus and is never negative |
| PlanarMixer.Mixed | Soundboard/AudioProcessor.cs:374-411 | What `ModifyChannels` returns or throws: the input for equal counts, the count error for a count `<= 0`, `ElementAt`'s throw when a channel is shorter than channel 0, and otherwise `outChannels` copies of the frame means over channel 0's length |
| PlanarMixer.ModifyChannels | Soundboard/AudioProcessor.cs:374-411 | The nested loops compute `Mixed`. Equal counts return the input (so `0 -> 0` succeeds). Otherwise a count `<= 0` throws, a channel shorter than channel 0 throws, and the result is `outChannels` copies of the frame means over channel 0's length |
| PlanarMixer.MixedFailsIff | Soundboard/AudioProcessor.cs:376-399 | Mixing fails exactly when the counts differ and either a count is not positive or some channel is shorter than channel 0. The count error arises exactly when the counts differ and one of them is not positive |
| PlanarMixer.MixedIsFrameMeans | Soundboard/AudioProcessor.cs:386-410 | A successful non-identity mix has `outChannels` channels, each as long as input channel 0. Every input channel reaches each frame, and every output sample is the mean of its frame |
| PlanarMixer.MixTwiceIsMixOnce | Soundboard/AudioProcessor.cs:386-410 | Mixing a mixed result to yet another count gives the same as mixing the input to that count once |
| PlanarMixer.DownAndUpMix | Soundboard/AudioProcessor.cs:386-410 | Constant channels 1.0 and 3.0 mix down to 2.0, and mixing that up to four channels keeps 2.0 |
| Resampler.IndexIsFloorAndCeiling | Soundboard/AudioProcessor.cs:354-356 | `lowIndex` and `highIndex` are the floor and the ceiling of the exact index `sample*(Count-1)/(numSamples-1)`. The weight `index - lowIndex` lies in [0,1), and it is zero exactly when the two indices coincide |
| Resampler.IndexBounds | Soundboard/AudioProcessor.cs:354-356 | `0 <= lowIndex <= highIndex <= Count-1` and `highIndex - lowIndex <= 1` |
| Resampler.ResampledChannel | Soundboard/AudioProcessor.cs:351-360 | Every output channel has exactly `numSamples` samples |
| Resampler.Resampled | Soundboard/AudioProcessor.cs:338-364 | What `Resample` returns or throws: the throw for 0 samples, no channels for no input, the 0/0 throw for a 1-sample target, `ElementAt`'s throw for an empty channel, and otherwise each channel interpolated to `numSamples` samples |
| Resampler.Resample | Soundboard/AudioProcessor.cs:338-364 | The nested loops compute `Resampled`. It throws for 0 samples, returns no channels for no input channels, and throws for a 1-sample target or an empty channel. Otherwise every channel is linearly interpolated |
| Resampler.ResampleKeepsEndpoints | Soundboard/AudioProcessor.cs:354-358 | Output sample 0 is input sample 0, and output sample `numSamples-1` is the last input sample |
| Resampler.ResampleToSameLengthIsIdentity | Soundboard/AudioProcessor.cs:354-358 | Resampling a channel of at least two samples to its own length reproduces it |
| Resampler.SameLengthIndex | Soundboard/AudioProcessor.cs:354-356 | At equal lengths, output index `s` reads input index `s` at both neighbours with weight 0 |
| Resampler.ResampleNoOp | Soundboard/AudioProcessor.cs:338-364 | If every channel already has `numSamples >= 2` samples, the result is the input |
| Resampler.InterpolatedBetweenNeighbours | Soundboard/AudioProcessor.cs:357-358 | Every output sample lies between its low and high source neighbours |
| Resampler.ResampleToOneFails | Soundboard/AudioProcessor.cs:354 | A one-sample target fails on any non-empty input (the divisor `numSamples - 1` is zero) |
| Resampler.ResampledShape | Soundboard/AudioProcessor.cs:345-362 | A successful resample has one output channel per input channel, each `numSamples` long |
| Transform.NextPowerOfTwo | Soundboard/AudioProcessor.cs:433-437 | The doubling loop's `power` is a power of two, at least `Count`, and either 1 or with its half below `Count` |
| Transform.NextPowerOfTwoIsLeast | Soundboard/AudioProcessor.cs:433-437 | It is below every power of two that holds `Count` |
| Transform.LeastPowerOfTwoUnique | Soundboard/AudioProcessor.cs:433-437 | A power of two that holds `Count` and whose half does not is exactly that power |
| Transform.ZeroPadded | Soundboard/AudioProcessor.cs:438-441 | Padding keeps the original prefix, appends only zeros, and reaches exactly the target length |
| Transform.ZeroPaddedToLengthIsIdentity | Soundboard/AudioProcessor.cs:438-441 | Padding a channel to its own length changes nothing |
| Transform.DftPadded | Soundboard/AudioProcessor.cs:431-443 | The channel `DFT` leaves: zero-padded to a power of two that keeps the channel as its prefix, or the throw exactly when the channel is longer than `2^30` |
| Transform.Dft | Soundboard/AudioProcessor.cs:429-444 | Up to `2^30` samples, it returns the least power of two holding the channel as the spectrum length, and the caller's channel (through the alias) is zero-padded to it. Above `2^30`, `power` overflows and the allocation throws, with the channel unchanged |
| Transform.PaddingKeepsPowerOfTwoLength | Soundboard/AudioProcessor.cs:433-441 | A power-of-two channel is not padded |
| Transform.PaddingGrowsOtherLengths | Soundboard/AudioProcessor.cs:433-437 | Any other length grows strictly |
| PlanarAudio.FrameSize | Soundboard/AudioProcessor.cs:182 | `Channels * BitsPerSample / 8` equals `BlockAlign` for a well-formed format |
| PlanarAudio.AsWrittenReadOffset | Soundboard/AudioProcessor.cs:250-253 | The as-written cursor: sample (`frame`, `channel`) is read after `frame*Channels + channel` advances of `BlockAlign` bytes |
| PlanarAudio.ReadOffset | Soundboard/AudioProcessor.cs:250-253 | The corrected cursor: block `frame`, then container `channel` of `BitsPerSample/8` bytes within it |
| PlanarAudio.AsWrittenCaptureOverruns | Soundboard/AudioProcessor.cs:250-253 | With the cursor advanced by `BlockAlign` per sample and two or more channels, the last read starts at or past the end of the `numFrames * BlockAlign` packet |
| PlanarAudio.AsWrittenStereoCounterexample | Soundboard/AudioProcessor.cs:250-253 | For one stereo frame of 32-bit floats (8 bytes), the second sample is read at byte 8 as written, and at byte 4 once corrected |
| PlanarAudio.CaptureReadInBounds | Soundboard/AudioProcessor.cs:250-253 | With the corrected offset `frame*BlockAlign + channel*bytes`, every read lies inside the packet |
| PlanarAudio.CaptureFrame | Soundboard/AudioProcessor.cs:243-257 | One frame of the channel loop appends one decoded sample to each channel, or throws exactly what `Captured` throws. The cursor ends one block further on |
| PlanarAudio.Captured | Soundboard/AudioProcessor.cs:241-258 | What the capture loop appends or throws: nothing for a non-Extensible format, no frames or no channels; the format throw for a non-float subformat; the constructor's throw above 32 bits; and otherwise `numFrames` samples per channel. This is the corrected capture: each sample is decoded by `SampleFromBytes` at `ReadOffset` |
| PlanarAudio.CapturePacket | Soundboard/AudioProcessor.cs:241-263 | The capture loop appends `Captured`'s samples to each channel, or throws `Captured`'s error |
| PlanarAudio.CapturedShape | Soundboard/AudioProcessor.cs:241-258 | A successful capture appends `numFrames` samples to each of the `Channels` channels for an Extensible format, and nothing for any other encoding |
| PlanarAudio.CaptureFailsIff | Soundboard/AudioProcessor.cs:245-256 | Capture throws exactly when the packet has a sample and the format is Extensible with either a non-float subformat or a width above 32 bits. A non-Extensible format never throws |
| PlanarAudio.CapturedFloatIsWord | Soundboard/AudioProcessor.cs:250 | In the corrected capture, a 32-bit float sample is the exact 4-byte little-endian word at `ReadOffset` |
| PlanarAudio.Interleave | Soundboard/AudioProcessor.cs:288-309 | Interleaving `framesRequested` frames gives `framesRequested * speakData.Count` slots |
| PlanarAudio.InterleaveSlot | Soundboard/AudioProcessor.cs:288-306 | Slot `frame*outCh + c` holds the bit pattern of `speakData[c][frame]` |
| PlanarAudio.Rendered | Soundboard/AudioProcessor.cs:277-309 | What the render produces or throws: the zero-channel `continue`, an empty buffer for zero frames, the format throw for anything but Extensible float, `ElementAt`'s throw for a channel shorter than channel 0, and otherwise every frame interleaved |
| PlanarAudio.RenderFrame | Soundboard/AudioProcessor.cs:290-306 | One frame of the channel loop writes that frame's samples in channel order, or throws what `Rendered` throws |
| PlanarAudio.RenderPacket | Soundboard/AudioProcessor.cs:280-310 | The render loop fills a fresh buffer with `Rendered`'s slots, or throws `Rendered`'s error. Zero output channels are refused, zero frames give an empty buffer, a non-float format throws, and a short channel throws |
| PlanarAudio.RenderedWhole | Soundboard/AudioProcessor.cs:288-309 | With output channels, a float format and no short channel, rendering yields every frame interleaved |
| PlanarAudio.RenderedLength | Soundboard/AudioProcessor.cs:288-309 | A successful render writes exactly `framesRequested * speakData.Count` slots |
| PlanarAudio.RenderFormatIff | Soundboard/AudioProcessor.cs:294-308 | With a frame to write, render throws the format error exactly when the format is not Extensible IEEE float |
| PlanarAudio.CaptureRenderRoundTrip | Soundboard/AudioProcessor.cs:250-300 | Capture (corrected, at `ReadOffset`) followed directly by render, with no `DFT` padding and no mixer in between: the 4 bytes of sample (`frame`, `c`) of a 32-bit float packet reach slot `frame*Channels + c` |
| PlanarAudio.NewChannels | Soundboard/AudioProcessor.cs:226-230 | The capture starts with `numChannels` distinct, empty, newly allocated channels |
| PlanarAudio.ClearChannels | Soundboard/AudioProcessor.cs:314-318 | After each packet every capture channel is empty |
| PlanarAudio.PadFirst | Soundboard/AudioProcessor.cs:265 | After `DFT(channels.ElementAt(0))`, channel 0 is zero-padded to the next power of two, and the other channels are untouched; with no channel `ElementAt(0)` throws, and above `2^30` samples `DFT` throws |
| PlanarAudio.PadFirstIsDftPadding | Soundboard/AudioProcessor.cs:265 | Channel 0 after the cycle's `DFT` call is exactly the channel `Transform.Dft` leaves, and it throws exactly when `Dft` does |
| PlanarAudio.MixedAfterPaddingHasChannels | Soundboard/AudioProcessor.cs:265-283 | Once `DFT` has run, a successful mix has at least one channel, so the zero-channel `continue` is unreachable |
| PlanarAudio.PaddingBreaksMixer | Soundboard/AudioProcessor.cs:265-270 | With at least two aligned channels and a length that is not a power of two, mixing the padded channels to a different count fails with `ElementAt` past the end; `DFT` itself throws exactly above `2^30` samples |
| PlanarAudio.PaddingBreaksRender | Soundboard/AudioProcessor.cs:265-303 | When the counts are equal, the padded channels reach the render loop, which fails on the shorter channel 1; `DFT` itself throws exactly above `2^30` samples |
| PlanarAudio.PadCopy | Soundboard/AudioProcessor.cs:431-441 | The corrected padding: a power-of-two copy of channel 0 that starts with channel 0 and ends in zeros, with the channels unchanged; it throws with no channel and exactly above `2^30` samples |
| PlanarAudio.CopiedPaddingMixes | Soundboard/AudioProcessor.cs:265-271 | With the copy padded, aligned channels of up to `2^30` samples mix to any positive channel count without error |
| PlanarAudio.CopiedPaddingRenders | Soundboard/AudioProcessor.cs:265-303 | With the copy padded, aligned channels of up to `2^30` samples render every frame at the float render format |
| PlanarAudio.PaddingKeepsAlignment | Soundboard/AudioProcessor.cs:265 | A power-of-two packet, or a single input channel, leaves the channels aligned, and a power-of-two packet leaves them unchanged (up to `2^30` samples, where `DFT` succeeds) |
| PlanarAudio.CaptureKeepsChannelsAligned | Soundboard/AudioProcessor.cs:241-258 | Captured channels all have the same length |
| PlanarAudio.Audio.constructor | Soundboard/AudioProcessor.cs:141-153 | Pitch scale starts at 2, both frame sizes at 0, and there is no cancellation source |
| PlanarAudio.Audio.GetPitchScale | Soundboard/AudioProcessor.cs:204-207 | Returns the current pitch scale |
| PlanarAudio.Audio.SetPitchScale | Soundboard/AudioProcessor.cs:209-212 | Sets the pitch scale and changes nothing else |
| PlanarAudio.Audio.SetMicrophone | Soundboard/AudioProcessor.cs:173-185 | The microphone frame size becomes `Channels * BitsPerSample / 8`, and nothing else changes |
| PlanarAudio.Audio.SetSpeaker | Soundboard/AudioProcessor.cs:187-202 | The speaker frame size becomes `Channels * BitsPerSample / 8`, and nothing else changes |
| PlanarAudio.Audio.StartCapture | Soundboard/AudioProcessor.cs:214-222 | Creates a cancellation source that has not been cancelled |
| PlanarAudio.Audio.StopCapture | Soundboard/AudioProcessor.cs:327-336 | Requires a prior `StartCapture` (the token source is null before it), and requests cancellation |
| InterleavedAudio.FrameSizeHoldsValues | Soundboard/AudioDevices.cs:76 | `Channels * BitsPerSample / 8` is at least the `Channels * (BitsPerSample/8)` bytes the capture reads per frame, and equal to it for whole-byte widths |
| InterleavedAudio.SlotIsLittleEndian | Soundboard/AudioDevices.cs:126-134 | The slot is the little-endian number of its copied bytes. With fewer than 4 bytes, the float's sign and top bits stay clear |
| InterleavedAudio.Slot | Soundboard/AudioDevices.cs:126-133 | One float slot: its bytes copied into the low bytes of a zeroed 4-byte value, read as a 32-bit pattern |
| InterleavedAudio.Values | Soundboard/AudioDevices.cs:121-136 | The first `n` values of a packet, value `k` read from bytes `k*b` to `(k+1)*b` |
| InterleavedAudio.CapturedValues | Soundboard/AudioDevices.cs:121-136 | A packet yields `numFrames * Channels` values |
| InterleavedAudio.AssembleValue | Soundboard/AudioDevices.cs:126-134 | The byte loop copies `BitsPerSample/8` bytes into the low bytes of a zeroed 4-byte slot |
| InterleavedAudio.CaptureFrame | Soundboard/AudioDevices.cs:123-135 | One frame appends `Channels` values in order, and the cursor advances one value width per value |
| InterleavedAudio.CapturePacket | Soundboard/AudioDevices.cs:117-136 | The capture loop produces `CapturedValues` in frame-major order, having read exactly `numFrames * Channels * (BitsPerSample/8)` bytes. It requires at most 4 bytes per value |
| InterleavedAudio.CapturedValueAt | Soundboard/AudioDevices.cs:121-136 | Value `frame*Channels + c` is the little-endian number of the bytes at offset `(frame*Channels + c) * (BitsPerSample/8)` |
| InterleavedAudio.ValuesAt | Soundboard/AudioDevices.cs:121-136 | Value `k` of a packet is read from bytes `k*b` to `(k+1)*b` |
| InterleavedAudio.ScalePitch | Soundboard/AudioDevices.cs:174-178 | Returns its input unchanged |
| InterleavedAudio.FramesRequested | Soundboard/AudioDevices.cs:146 | `wData.Count / Channels` throws exactly for zero speaker channels, and otherwise is the number of whole frames |
| InterleavedAudio.RenderPacket | Soundboard/AudioDevices.cs:146-153 | Fails exactly for zero speaker channels. Otherwise it writes `wData` into a buffer of exactly `framesRequested * Channels` floats |
| InterleavedAudio.MixedPacketFillsRenderBuffer | Soundboard/AudioDevices.cs:143-153 | A packet of `numFrames` whole input frames mixes without error to exactly `numFrames * outChannels` values, so `framesRequested == numFrames` and the write count matches the buffer |
| InterleavedAudio.CaptureFeedsWholeFrames | Soundboard/AudioDevices.cs:121-153 | A captured packet's values mix without error and fill exactly the `numFrames` speaker frames requested |
| InterleavedAudio.Audio.constructor | Soundboard/AudioDevices.cs:33-47 | Pitch scale starts at 0, the byte list is empty, and both frame sizes are 0 |
| InterleavedAudio.Audio.SetMicrophone | Soundboard/AudioDevices.cs:67-79 | The microphone frame size becomes `Channels * BitsPerSample / 8`, and nothing else changes |
| InterleavedAudio.Audio.SetSpeaker | Soundboard/AudioDevices.cs:81-93 | The speaker frame size becomes `Channels * BitsPerSample / 8`, and nothing else changes |
| InterleavedAudio.Audio.StartCapture | Soundboard/AudioDevices.cs:95-103 | Creates a cancellation source that has not been cancelled |
| InterleavedAudio.Audio.StopCapture | Soundboard/AudioDevices.cs:162-172 | Requires a prior `StartCapture`, and requests cancellation |
| InterleavedMixer.MixedFrames | Soundboard/AudioDevices.cs:199-213 | `n` input frames give `n * outChannels` values |
| InterleavedMixer.FrameAverage | Soundboard/AudioDevices.cs:202-207 | The `frameAvg` loop is the mean of the frame's `inChannels` values, or throws when the frame runs past the end of the data |
| InterleavedMixer.Mixed | Soundboard/AudioDevices.cs:185-216 | What `ModifyChannels` returns or throws: the input for equal counts, the throw for a zero count, `ElementAt`'s throw for a trailing partial frame, and otherwise each frame's mean repeated `outChannels` times |
| InterleavedMixer.ModifyChannels | Soundboard/AudioDevices.cs:185-216 | The loops compute `Mixed`. Equal counts return the input (so `0 -> 0` succeeds). Otherwise a zero count throws, a trailing partial frame throws, and each frame's mean is repeated `outChannels` times |
| InterleavedMixer.MixedFailsIff | Soundboard/AudioDevices.cs:187-205 | Mixing fails exactly when the counts differ and either one is zero or `data.Count` is not a multiple of `inChannels`. The partial-frame error arises exactly in the last of these cases |
| InterleavedMixer.MixedLength | Soundboard/AudioDevices.cs:199-213 | A successful non-identity mix has length `(data.Count / inChannels) * outChannels` over whole frames |
| InterleavedMixer.MixedFramesSlice | Soundboard/AudioDevices.cs:200-213 | Output frame `f` is `outChannels` copies of input frame `f`'s mean |
| InterleavedMixer.MixedFrameIsMean | Soundboard/AudioDevices.cs:200-213 | In a successful non-identity mix, all values of output frame `f` equal the mean of input frame `f` |

## Left out

- Device plumbing is not modelled. That covers device enumeration, `AudioClient.Initialize`/`Start`/`Stop`, `GetNextPacketSize`, `GetBuffer`/`ReleaseBuffer` and mix-format lookups. These are calls into NAudio and the operating system. The packet, its frame count and the relevant format fields are parameters instead. The device promises that containers are whole bytes and that `BlockAlign = Channels * bytes`; this is the precondition `PlanarAudio.WellFormed`.
- The capture task, the cancellation token's effect and `Thread.Sleep` are left out. They are concurrency and timing. Only the order in which `StartCapture` and `StopCapture` are called is kept. `StartCapture` does not require `SetMicrophone` and `SetSpeaker` to have run first, although the capture task dereferences the device clients they set.
- The outer `while` loops of `GetCaptureData` are not modelled as one method. The per-packet loops are modelled separately, and the lemmas in `PlanarAudio` and `InterleavedAudio` connect them. Not modelled as a result: the `continue` after a zero-channel mix, which skips both the clear and the next `GetNextPacketSize`, and the `ReleaseBuffer` calls.
- `Sample(float)` and `ToFloat` reinterpret bits through pointers. They are not modelled. Samples keep their bit patterns, and the mixers and the resampler take the float values as reals. Between the two stages the lemmas speak of shapes (lengths and alignment), not values.
- This means the planar cycle lemmas pad channel 0 with `0.0` when stating the mixer's behaviour, and with `Sample(0)` when stating the render's. Both are `new Sample(0f)`.
- Float rounding in the averages and in the interpolation is not modelled. The values are exact reals.
- The trigonometric sums of `DFT` and `IDFT` are numerics and are not modelled. That includes `PI = 3.14159` and `EXPONENT`. `Transform.Dft` returns only the length of the spectrum array, not its contents.
- `Complex.Magnitude` is not modelled, because `Math.Sqrt` is floating-point.
- `TimeStretchModification` is not modelled. It computes an unused value and returns its input.
- The `PitchScale` and `Resample` calls in `GetCaptureData` are commented out in the source, so they are not part of the cycle.
- `GetMicrophones` and `GetSpeakers` only copy device lists, and the console diagnostics only write to the console. Neither is modelled.
- `Soundboard/Controls/LineGraph.xaml.cs` and `Soundboard/MainWindow.xaml.cs` are not part of this model.
- Resampler.Resample: numSamples == 1 is modelled as `Err(DivideByZero)`. The source computes `0.0 / 0` as NaN, and then `ElementAt((int)Math.Ceiling(NaN))` throws. The model assumes .NET Framework, or .NET before version 9 on x86/x64, where `(int)NaN` is `int.MinValue`. From .NET 9 the conversion saturates to 0, and the source would return NaN samples instead. Both that case and the empty channel really throw `ArgumentOutOfRangeException`; the model tells them apart.
- Resampler.ResampleNoOp: is stated only for `numSamples >= 2`. For one sample the source fails even on one-sample channels, as `Resampler.ResampleToOneFails` states.
- Transform.Dft: returns the spectrum length as a number, not the `Complex` array.
- InterleavedAudio.CapturePacket: requires `BitsPerSample/8 <= 4` and a packet holding the bytes it reads. Past either bound the source copies into or reads from memory it does not own, which is undefined behaviour.
- InterleavedAudio.RenderPacket: requires the value count to be a multiple of the speaker channel count, since otherwise the source writes past the buffer it requested. `InterleavedAudio.MixedPacketFillsRenderBuffer` shows that the mixer's output always meets this.
- PlanarAudio.CapturePacket: uses the corrected read offset from the second finding below; the as-written offset is modelled only by `PlanarAudio.AsWrittenReadOffset` and its lemmas. The sample constructor it calls is the corrected one from the first finding.
- PlanarAudio.RenderPacket: models the device buffer as a fresh array of exactly `framesRequested * speakData.Count` slots. Its `Err(NoOutputChannels)` stands for the `continue` at Soundboard/AudioProcessor.cs:279-283, which the source reaches without an exception; after `DFT` that branch cannot run, as `PlanarAudio.MixedAfterPaddingHasChannels` states.
- Samples.NewSample: places the bytes in the high bytes, the corrected reading; the loop as written is `Samples.NewSampleAsWritten`.
- PlanarAudio.Captured: describes the corrected capture, decoding with `SampleFromBytes` at `ReadOffset`. The as-written capture reads at `PlanarAudio.AsWrittenReadOffset` with `SampleFromBytesAsWritten`, and is modelled only by those members and their lemmas.
- PlanarAudio.CapturedFloatIsWord: is stated for the corrected capture at `ReadOffset`; as written, every sample after the first of a multi-channel packet is read at `AsWrittenReadOffset` instead.
- PlanarAudio.CaptureRenderRoundTrip: is stated for the corrected capture at `ReadOffset`, and sends `Captured` straight to `Rendered`. In the program's cycle, `DFT` padding and the mixer run in between, and the padding makes the render throw unless the packet length is a power of two or there is one channel, as `PlanarAudio.PaddingBreaksRender` states.
- PlanarAudio.CaptureFrame: reads sample (`frame`, `c`) at the corrected offset and advances one block per frame, where the source advances one block per sample and reads past the packet for two or more channels; that overrun is modelled only by `PlanarAudio.AsWrittenReadOffset` and its lemmas. It also decodes with the corrected constructor.
- Spectral.Complex: models the `double` parts as exact reals, with no rounding, no overflow to infinity and no NaN.
- 32-bit wrap-around of `int` and `uint` counters is not modelled, apart from `power` in `DFT`. Lists hold fewer than 2^31 elements, so no other counter can wrap.

## Findings

| source | as written | input that shows it | evidently intended | confidence | as-written member | corrected member |
|---|---|---|---|---|---|---|
| Soundboard/AudioProcessor.cs:25-31 | The bytes are copied into the low bytes of `tempValue`, which is then shifted right by `32 - numBits` | 16-bit sample bytes `00 80` (-32768) decode to 0; every 16-bit sample decodes to 0, and every sample of 24 bits or fewer loses its sign | Bytes placed in the high bytes, so the right shift discards the padding and sign-extends: `00 80` decodes to -32768 | not executed | Samples.SixteenBitCounterexample | Samples.SampleFromBytes |
| Soundboard/AudioProcessor.cs:431-441 | `DFT` names its argument `localData` but pads it in place, so channel 0 of the captured packet grows to the next power of two | Two input channels and a packet of 480 frames (10 ms at 48 kHz): channel 0 becomes 512 long, so mixing to another channel count throws on channel 1, and rendering to the same count throws on channel 1 | Pad a copy for the transform and leave the channels as captured, so aligned channels mix and render | not executed | PlanarAudio.PaddingBreaksMixer | PlanarAudio.CopiedPaddingMixes |
| Soundboard/AudioProcessor.cs:252 | The capture cursor advances by `BlockAlign` (a whole frame) after every channel sample | One stereo frame of 32-bit floats is an 8-byte packet; the second sample is read at byte 8, past its end | Advance by the sample's byte width, so sample (`frame`, `c`) is read at `frame*BlockAlign + c*bytes` | not executed | PlanarAudio.AsWrittenCaptureOverruns | PlanarAudio.CaptureReadInBounds |
