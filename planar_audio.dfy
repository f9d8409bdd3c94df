/**
 * The per-packet loops of `GetCaptureData` in Soundboard/AudioProcessor.cs
 * (the planar engine): capture de-interleaves a packet of little-endian
 * bytes into one `Channel` per input channel, render interleaves the output
 * channels frame by frame into the device's float buffer, and the capture
 * channels are cleared after every packet. The device buffers are explicit
 * byte and slot sequences here.
 */
module PlanarAudio {
  import opened Wrappers
  import opened Arithmetic
  import opened Bytes
  import opened Samples
  import opened PlanarMixer
  import opened Transform

  datatype SubFormat =
    | IeeeFloatSubFormat  // KSDATAFORMAT_SUBTYPE_IEEE_FLOAT, 00000003-0000-0010-8000-00aa00389b71
    | OtherSubFormat

  datatype Encoding =
    | Extensible(subFormat: SubFormat)  // WAVE_FORMAT_EXTENSIBLE
    | OtherEncoding

  /** The fields of a device mix format that the loops read. */
  datatype MixFormat = MixFormat(channels: nat, bitsPerSample: nat, blockAlign: nat, encoding: Encoding)

  /**
   * What a device format guarantees: whole-byte containers, and a block (one
   * frame) holding one container per channel.
   */
  predicate WellFormed(fmt: MixFormat)
  {
    fmt.bitsPerSample % 8 == 0 && fmt.blockAlign == fmt.channels * (fmt.bitsPerSample / 8)
  }

  /** Frame size in bytes as `SetMicrophone` and `SetSpeaker` compute it. */
  function FrameSize(fmt: MixFormat): (size: nat)
    ensures WellFormed(fmt) ==> size == fmt.blockAlign
  {
    var size := fmt.channels * fmt.bitsPerSample / 8;
    if WellFormed(fmt) then
      assert fmt.channels * fmt.bitsPerSample == (fmt.channels * (fmt.bitsPerSample / 8)) * 8;
      DivExact(fmt.channels * (fmt.bitsPerSample / 8), 8);
      size
    else size
  }

  datatype EngineError =
    | CaptureFormatNotSupported  // Extensible capture format with a non-float subformat
    | SampleRefused(e: SampleError)  // the `Sample` byte constructor throws
    | RenderFormatNotSupported   // render format other than Extensible IEEE float
    | NoOutputChannels           // the mixed data has no channel to render
    | ShortChannel               // `ElementAt` past the end of a shorter output channel
    | NoInputChannel             // `channels.ElementAt(0)` on an empty channel list, at the `DFT` call
    | DftRefused(cause: TransformError)  // `DFT` throws on a channel 0 too long for its power of two

  // ----- Capture -----

  /**
   * Where the capture loop reads sample (`frame`, `channel`): the cursor
   * starts at the packet and advances by `BlockAlign` after every sample.
   */
  function AsWrittenReadOffset(frame: nat, channel: nat, fmt: MixFormat): nat
  {
    (frame * fmt.channels + channel) * fmt.blockAlign
  }

  /** Where sample (`frame`, `channel`) is: block `frame`, container `channel` within it. */
  function ReadOffset(frame: nat, channel: nat, fmt: MixFormat): nat
  {
    frame * fmt.blockAlign + channel * ByteCount(fmt.bitsPerSample)
  }

  /**
   * With two channels or more, the last sample the loop reads starts at or
   * after the end of a packet of `numFrames` blocks.
   */
  lemma AsWrittenCaptureOverruns(numFrames: nat, fmt: MixFormat)
    requires numFrames >= 1 && fmt.channels >= 2
    ensures AsWrittenReadOffset(numFrames - 1, fmt.channels - 1, fmt) >= numFrames * fmt.blockAlign
  {
    var n := fmt.channels;
    assert (numFrames - 1) * n + n - 1 >= numFrames by {
      LeqMul(1, numFrames, n - 1);
    }
    LeqMul(numFrames, (numFrames - 1) * n + n - 1, fmt.blockAlign);
  }

  /** One stereo frame of 32-bit floats is eight bytes, and the second read starts at byte 8. */
  lemma AsWrittenStereoCounterexample()
    ensures var fmt := MixFormat(2, 32, 8, Extensible(IeeeFloatSubFormat));
      WellFormed(fmt) && AsWrittenReadOffset(0, 1, fmt) == 8 == 1 * fmt.blockAlign &&
      ReadOffset(0, 1, fmt) == 4
  {
  }

  lemma ByteCountOfWholeBytes(bits: nat)
    requires bits % 8 == 0
    ensures ByteCount(bits) == bits / 8
  {
  }

  /** Every container the corrected loop reads lies inside the packet. */
  lemma CaptureReadInBounds(frame: nat, channel: nat, numFrames: nat, fmt: MixFormat)
    requires WellFormed(fmt) && frame < numFrames && channel < fmt.channels
    ensures ReadOffset(frame, channel, fmt) + ByteCount(fmt.bitsPerSample) <= numFrames * fmt.blockAlign
  {
    var b := fmt.bitsPerSample / 8;
    ByteCountOfWholeBytes(fmt.bitsPerSample);
    LeqMul(channel + 1, fmt.channels, b);
    LeqMul(frame + 1, numFrames, fmt.blockAlign);
  }

  /** The capture formats the loop decodes samples from. */
  predicate Decodable(fmt: MixFormat)
  {
    fmt.encoding == Extensible(IeeeFloatSubFormat) && fmt.bitsPerSample <= 32
  }

  /** The sample at (`frame`, `channel`) of a packet. */
  function SampleAt(buffer: seq<Byte>, numFrames: nat, fmt: MixFormat, frame: nat, channel: nat): Sample
    requires WellFormed(fmt) && Decodable(fmt) && |buffer| == numFrames * fmt.blockAlign
    requires frame < numFrames && channel < fmt.channels
  {
    CaptureReadInBounds(frame, channel, numFrames, fmt);
    SampleFromBytes(buffer[ReadOffset(frame, channel, fmt)..], fmt.bitsPerSample).value
  }

  /** The first `n` samples of channel `channel` of a packet. */
  function CapturedChannel(buffer: seq<Byte>, numFrames: nat, fmt: MixFormat, channel: nat, n: nat): (ch: seq<Sample>)
    requires WellFormed(fmt) && Decodable(fmt) && |buffer| == numFrames * fmt.blockAlign
    requires channel < fmt.channels && n <= numFrames
    ensures |ch| == n
  {
    seq(n, f requires 0 <= f < n => SampleAt(buffer, numFrames, fmt, f, channel))
  }

  /** What the capture loop appends to each channel for one packet, or what it throws. */
  function Captured(buffer: seq<Byte>, numFrames: nat, fmt: MixFormat): Result<seq<seq<Sample>>, EngineError>
    requires WellFormed(fmt) && |buffer| == numFrames * fmt.blockAlign
  {
    if !fmt.encoding.Extensible? || numFrames == 0 || fmt.channels == 0 then
      Ok(seq(fmt.channels, _ => []))
    else if fmt.encoding.subFormat != IeeeFloatSubFormat then Err(CaptureFormatNotSupported)
    else if fmt.bitsPerSample > 32 then Err(SampleRefused(SampleTooWide))
    else Ok(seq(fmt.channels, c requires 0 <= c < fmt.channels => CapturedChannel(buffer, numFrames, fmt, c, numFrames)))
  }

  /** What has been appended to channel `channel` once `n` frames are done. */
  ghost function CapturedPrefix(buffer: seq<Byte>, numFrames: nat, fmt: MixFormat, channel: nat, n: nat): seq<Sample>
    requires WellFormed(fmt) && |buffer| == numFrames * fmt.blockAlign
    requires channel < fmt.channels && n <= numFrames
  {
    if Decodable(fmt) then CapturedChannel(buffer, numFrames, fmt, channel, n) else []
  }

  /** The samples of a list of channels. */
  function Contents(channels: seq<Channel>): (data: seq<seq<Sample>>)
    reads channels
    ensures |data| == |channels|
  {
    seq(|channels|, c reads channels requires 0 <= c < |channels| => channels[c].samples)
  }

  /** The cursor moves one container per channel, and one block per frame. */
  lemma ReadOffsetStep(frame: nat, channel: nat, fmt: MixFormat)
    requires WellFormed(fmt)
    ensures ReadOffset(frame, channel + 1, fmt) == ReadOffset(frame, channel, fmt) + ByteCount(fmt.bitsPerSample)
    ensures ReadOffset(frame, fmt.channels, fmt) == ReadOffset(frame + 1, 0, fmt)
  {
    ByteCountOfWholeBytes(fmt.bitsPerSample);
    assert (channel + 1) * ByteCount(fmt.bitsPerSample) == channel * ByteCount(fmt.bitsPerSample) + ByteCount(fmt.bitsPerSample);
    assert (frame + 1) * fmt.blockAlign == frame * fmt.blockAlign + fmt.blockAlign;
  }

  /** The channels hold what they held before the packet plus its first `n` frames. */
  ghost predicate CapturedUpTo(channels: seq<Channel>, before: seq<seq<Sample>>, buffer: seq<Byte>, numFrames: nat, fmt: MixFormat, n: nat)
    reads channels
    requires WellFormed(fmt) && |buffer| == numFrames * fmt.blockAlign
    requires |channels| == |before| == fmt.channels && n <= numFrames
  {
    forall c | 0 <= c < |channels| :: channels[c].samples == before[c] + CapturedPrefix(buffer, numFrames, fmt, c, n)
  }

  /** The inner loop of the capture: one sample per channel for frame `frame`; returns the new cursor. */
  method CaptureFrame(channels: seq<Channel>, buffer: seq<Byte>, numFrames: nat, fmt: MixFormat,
                      frame: nat, pData: nat, ghost before: seq<seq<Sample>>)
    returns (r: Result<nat, EngineError>)
    requires WellFormed(fmt) && |buffer| == numFrames * fmt.blockAlign
    requires |channels| == |before| == fmt.channels
    requires forall i, j | 0 <= i < j < |channels| :: channels[i] != channels[j]
    requires frame < numFrames
    requires fmt.encoding.Extensible? ==> pData == ReadOffset(frame, 0, fmt)
    requires frame > 0 && fmt.channels > 0 && fmt.encoding.Extensible? ==> Decodable(fmt)
    requires CapturedUpTo(channels, before, buffer, numFrames, fmt, frame)
    modifies channels
    ensures r.Err? ==> Captured(buffer, numFrames, fmt) == Err(r.error)
    ensures r.Ok? ==> CapturedUpTo(channels, before, buffer, numFrames, fmt, frame + 1)
    ensures r.Ok? && fmt.channels > 0 && fmt.encoding.Extensible? ==> Decodable(fmt)
    ensures r.Ok? && fmt.encoding.Extensible? ==> r.value == ReadOffset(frame + 1, 0, fmt)
  {
    var cursor: nat := pData;
    var channel := 0;
    while channel < fmt.channels
      invariant 0 <= channel <= fmt.channels
      invariant fmt.encoding.Extensible? ==> cursor == ReadOffset(frame, channel, fmt)
      invariant channel > 0 && fmt.encoding.Extensible? ==> Decodable(fmt)
      invariant forall c | 0 <= c < channel ::
        channels[c].samples == before[c] + CapturedPrefix(buffer, numFrames, fmt, c, frame + 1)
      invariant forall c | channel <= c < fmt.channels ::
        channels[c].samples == before[c] + CapturedPrefix(buffer, numFrames, fmt, c, frame)
    {
      if fmt.encoding.Extensible? {
        if fmt.encoding.subFormat == IeeeFloatSubFormat {
          CaptureReadInBounds(frame, channel, numFrames, fmt);
          var sample := NewSample(buffer[cursor..], fmt.bitsPerSample);
          if sample.Err? {
            return Err(SampleRefused(sample.error));
          }
          ReadOffsetStep(frame, channel, fmt);
          cursor := cursor + ByteCount(fmt.bitsPerSample);
          assert CapturedPrefix(buffer, numFrames, fmt, channel, frame + 1) ==
            CapturedPrefix(buffer, numFrames, fmt, channel, frame) + [sample.value];
          channels[channel].samples := channels[channel].samples + [sample.value];
        } else {
          return Err(CaptureFormatNotSupported);
        }
      }
      channel := channel + 1;
    }
    ReadOffsetStep(frame, channel, fmt);
    return Ok(cursor);
  }

  /** The capture loop over one packet of `numFrames` blocks. */
  method CapturePacket(channels: seq<Channel>, buffer: seq<Byte>, numFrames: nat, fmt: MixFormat)
    returns (r: Result<(), EngineError>)
    requires WellFormed(fmt) && |buffer| == numFrames * fmt.blockAlign
    requires |channels| == fmt.channels
    requires forall i, j | 0 <= i < j < |channels| :: channels[i] != channels[j]
    modifies channels
    ensures r.Err? ==> Captured(buffer, numFrames, fmt) == Err(r.error)
    ensures r.Ok? ==> Captured(buffer, numFrames, fmt).Ok? && forall c | 0 <= c < |channels| ::
      channels[c].samples == old(channels[c].samples) + Captured(buffer, numFrames, fmt).value[c]
  {
    ghost var before := Contents(channels);
    var pData := 0;
    var frame := 0;
    while frame < numFrames
      invariant 0 <= frame <= numFrames
      invariant fmt.encoding.Extensible? ==> pData == ReadOffset(frame, 0, fmt)
      invariant frame > 0 && fmt.channels > 0 && fmt.encoding.Extensible? ==> Decodable(fmt)
      invariant CapturedUpTo(channels, before, buffer, numFrames, fmt, frame)
    {
      var next := CaptureFrame(channels, buffer, numFrames, fmt, frame, pData, before);
      if next.Err? {
        return Err(next.error);
      }
      pData := next.value;
      frame := frame + 1;
    }
    assert CapturedUpTo(channels, before, buffer, numFrames, fmt, numFrames);
    if numFrames > 0 && fmt.channels > 0 && Decodable(fmt) {
      assert forall c | 0 <= c < fmt.channels ::
        CapturedPrefix(buffer, numFrames, fmt, c, numFrames) == Captured(buffer, numFrames, fmt).value[c];
    }
    return Ok(());
  }

  /** Capture with a float format yields `numFrames` samples per channel; other encodings yield none. */
  lemma CapturedShape(buffer: seq<Byte>, numFrames: nat, fmt: MixFormat)
    requires WellFormed(fmt) && |buffer| == numFrames * fmt.blockAlign
    requires Captured(buffer, numFrames, fmt).Ok?
    ensures |Captured(buffer, numFrames, fmt).value| == fmt.channels
    ensures forall c | 0 <= c < fmt.channels ::
      |Captured(buffer, numFrames, fmt).value[c]| == if fmt.encoding.Extensible? then numFrames else 0
  {
  }

  /** Capture throws exactly for an Extensible non-float format, or a sample wider than 32 bits, when the packet has a sample. */
  lemma CaptureFailsIff(buffer: seq<Byte>, numFrames: nat, fmt: MixFormat)
    requires WellFormed(fmt) && |buffer| == numFrames * fmt.blockAlign
    ensures Captured(buffer, numFrames, fmt).Err? <==>
      fmt.encoding.Extensible? && numFrames > 0 && fmt.channels > 0 &&
      (fmt.encoding.subFormat != IeeeFloatSubFormat || fmt.bitsPerSample > 32)
  {
  }

  /** A 32-bit float sample keeps the exact bit pattern of its four bytes. */
  lemma CapturedFloatIsWord(buffer: seq<Byte>, numFrames: nat, fmt: MixFormat, frame: nat, channel: nat)
    requires WellFormed(fmt) && |buffer| == numFrames * fmt.blockAlign
    requires fmt.encoding == Extensible(IeeeFloatSubFormat) && fmt.bitsPerSample == 32
    requires frame < numFrames && channel < fmt.channels
    ensures ReadOffset(frame, channel, fmt) + 4 <= |buffer|
    ensures var off := ReadOffset(frame, channel, fmt);
      LittleEndian(buffer[off..off + 4]) < WORD &&
      Captured(buffer, numFrames, fmt).value[channel][frame] == Sample(AsInt32(LittleEndian(buffer[off..off + 4])))
  {
    CaptureReadInBounds(frame, channel, numFrames, fmt);
    var off := ReadOffset(frame, channel, fmt);
    var d := buffer[off..];
    FullWordSample(d);
    assert d[..4] == buffer[off..off + 4];
  }

  // ----- Render -----

  /** Frame `frame` of the first `k` channels, in channel order, as float bit patterns. */
  function FrameSlots(data: seq<seq<Sample>>, frame: nat, k: nat): (slots: seq<Int32>)
    requires k <= |data| && forall c | 0 <= c < k :: frame < |data[c]|
    ensures |slots| == k && forall c | 0 <= c < k :: slots[c] == data[c][frame].value
  {
    seq(k, c requires 0 <= c < k => data[c][frame].value)
  }

  /** The first `n` frames of `data`, frame-major. */
  function Interleave(data: seq<seq<Sample>>, n: nat): (slots: seq<Int32>)
    requires forall c | 0 <= c < |data| :: n <= |data[c]|
    ensures |slots| == n * |data|
  {
    if n == 0 then []
    else
      assert n * |data| == (n - 1) * |data| + |data|;
      Interleave(data, n - 1) + FrameSlots(data, n - 1, |data|)
  }

  /** What the render loop writes into the device buffer for one packet, or what it throws. */
  function Rendered(speakData: seq<seq<Sample>>, fmt: MixFormat): Result<seq<Int32>, EngineError>
  {
    if |speakData| == 0 then Err(NoOutputChannels)
    else if |speakData[0]| == 0 then Ok([])
    else if fmt.encoding != Extensible(IeeeFloatSubFormat) then Err(RenderFormatNotSupported)
    else if Ragged(speakData) then Err(ShortChannel)
    else Ok(Interleave(speakData, |speakData[0]|))
  }

  /** Slot `frame * channels + channel` of the render buffer holds sample `frame` of channel `channel`. */
  lemma {:induction false} InterleaveSlot(data: seq<seq<Sample>>, n: nat, frame: nat, channel: nat)
    requires forall c | 0 <= c < |data| :: n <= |data[c]|
    requires frame < n && channel < |data|
    ensures frame * |data| + channel < |Interleave(data, n)|
    ensures Interleave(data, n)[frame * |data| + channel] == data[channel][frame].value
    decreases n
  {
    assert n * |data| == (n - 1) * |data| + |data|;
    if frame < n - 1 {
      InterleaveSlot(data, n - 1, frame, channel);
    } else {
      assert Interleave(data, n) == Interleave(data, n - 1) + FrameSlots(data, n - 1, |data|);
    }
  }

  /** The inner loop of the render: frame `frame` of every channel, written from slot `cursor` on. */
  method RenderFrame(speakData: seq<Channel>, fmt: MixFormat, pData: array<Int32>, frame: nat, cursor: nat, ghost data: seq<seq<Sample>>)
    returns (r: Result<nat, EngineError>)
    requires data == Contents(speakData) && |data| > 0
    requires frame < |data[0]| && cursor + |data| <= pData.Length
    requires forall c | 0 <= c < |data| :: frame <= |data[c]|
    requires frame > 0 ==> fmt.encoding == Extensible(IeeeFloatSubFormat)
    requires pData[..cursor] == Interleave(data, frame)
    modifies pData
    ensures r.Err? ==> Rendered(data, fmt) == Err(r.error)
    ensures r.Ok? ==> fmt.encoding == Extensible(IeeeFloatSubFormat)
    ensures r.Ok? ==> forall c | 0 <= c < |data| :: frame < |data[c]|
    ensures r.Ok? ==> r.value == cursor + |data| && pData[..r.value] == Interleave(data, frame + 1)
  {
    var next := cursor;
    var ch := 0;
    while ch < |speakData|
      invariant 0 <= ch <= |data|
      invariant next == cursor + ch
      invariant forall c | 0 <= c < ch :: frame < |data[c]|
      invariant ch > 0 ==> fmt.encoding == Extensible(IeeeFloatSubFormat)
      invariant pData[..next] == Interleave(data, frame) + FrameSlots(data, frame, ch)
    {
      assert speakData[ch].samples == data[ch];
      if fmt.encoding != Extensible(IeeeFloatSubFormat) {
        RenderedWrongFormat(data, fmt);
        return Err(RenderFormatNotSupported);
      }
      if frame >= |speakData[ch].samples| {
        RenderedShortChannel(data, fmt, ch);
        return Err(ShortChannel);
      }
      assert frame < |data[ch]|;
      pData[next] := speakData[ch].samples[frame].value;
      FrameSlotsSnoc(data, frame, ch);
      assert pData[..next + 1] == pData[..next] + [pData[next]];
      next := next + 1;
      ch := ch + 1;
    }
    InterleaveOneMore(data, frame);
    return Ok(next);
  }

  lemma RenderedWrongFormat(data: seq<seq<Sample>>, fmt: MixFormat)
    requires |data| > 0 && |data[0]| > 0 && fmt.encoding != Extensible(IeeeFloatSubFormat)
    ensures Rendered(data, fmt) == Err(RenderFormatNotSupported)
  {
  }

  lemma RenderedShortChannel(data: seq<seq<Sample>>, fmt: MixFormat, ch: nat)
    requires ch < |data| && |data[ch]| < |data[0]| && fmt.encoding == Extensible(IeeeFloatSubFormat)
    ensures Rendered(data, fmt) == Err(ShortChannel)
  {
    assert Ragged(data);
  }

  lemma FrameSlotsSnoc(data: seq<seq<Sample>>, frame: nat, ch: nat)
    requires ch < |data| && forall c | 0 <= c <= ch :: frame < |data[c]|
    ensures FrameSlots(data, frame, ch + 1) == FrameSlots(data, frame, ch) + [data[ch][frame].value]
  {
  }

  lemma InterleaveOneMore(data: seq<seq<Sample>>, frame: nat)
    requires forall c | 0 <= c < |data| :: frame < |data[c]|
    ensures Interleave(data, frame + 1) == Interleave(data, frame) + FrameSlots(data, frame, |data|)
  {
  }

  /** The render loop over the output channels of one packet. */
  method RenderPacket(speakData: seq<Channel>, fmt: MixFormat) returns (r: Result<array<Int32>, EngineError>)
    ensures r.Err? ==> Rendered(Contents(speakData), fmt) == Err(r.error)
    ensures r.Ok? ==> fresh(r.value) && Rendered(Contents(speakData), fmt) == Ok(r.value[..])
  {
    if |speakData| == 0 {
      return Err(NoOutputChannels);
    }
    ghost var data := Contents(speakData);
    var framesRequested := |speakData[0].samples|;
    // The device buffer of `framesRequested` frames.
    var pData := new Int32[framesRequested * |speakData|];
    var cursor := 0;
    var frame := 0;
    while frame < framesRequested
      invariant 0 <= frame <= framesRequested
      invariant forall c | 0 <= c < |data| :: frame <= |data[c]|
      invariant cursor == frame * |data|
      invariant frame > 0 ==> fmt.encoding == Extensible(IeeeFloatSubFormat)
      invariant pData[..cursor] == Interleave(data, frame)
      invariant data == Contents(speakData)
    {
      NextFrameFits(frame, framesRequested, |data|);
      var next := RenderFrame(speakData, fmt, pData, frame, cursor, data);
      if next.Err? {
        return Err(next.error);
      }
      cursor := next.value;
      frame := frame + 1;
    }
    RenderedWhole(data, fmt);
    assert pData[..] == pData[..cursor];
    return Ok(pData);
  }

  /** The next frame of `w` slots still fits a buffer of `n` frames. */
  lemma NextFrameFits(frame: nat, n: nat, w: nat)
    requires frame < n
    ensures frame * w + w == (frame + 1) * w <= n * w
  {
    LeqMul(frame + 1, n, w);
  }

  /** Once every frame of channel 0 is written, the render succeeds with the interleaved frames. */
  lemma RenderedWhole(data: seq<seq<Sample>>, fmt: MixFormat)
    requires |data| > 0 && forall c | 0 <= c < |data| :: |data[0]| <= |data[c]|
    requires |data[0]| > 0 ==> fmt.encoding == Extensible(IeeeFloatSubFormat)
    ensures Rendered(data, fmt) == Ok(Interleave(data, |data[0]|))
  {
  }

  /** The render loop writes exactly `framesRequested * speakData.Count` slots. */
  lemma RenderedLength(speakData: seq<seq<Sample>>, fmt: MixFormat)
    requires Rendered(speakData, fmt).Ok?
    ensures |Rendered(speakData, fmt).value| == |speakData[0]| * |speakData|
  {
  }

  /** Render throws for any format but Extensible IEEE float once there is a frame to write. */
  lemma RenderFormatIff(speakData: seq<seq<Sample>>, fmt: MixFormat)
    requires |speakData| > 0 && |speakData[0]| > 0
    ensures Rendered(speakData, fmt) == Err(RenderFormatNotSupported) <==> fmt.encoding != Extensible(IeeeFloatSubFormat)
  {
  }

  /** Rendering what was captured from a float packet gives back the packet's bit patterns, slot for slot. */
  lemma {:induction false} CaptureRenderRoundTrip(buffer: seq<Byte>, numFrames: nat, fmt: MixFormat, frame: nat, channel: nat)
    requires WellFormed(fmt) && |buffer| == numFrames * fmt.blockAlign
    requires fmt.encoding == Extensible(IeeeFloatSubFormat) && fmt.bitsPerSample == 32
    requires frame < numFrames && channel < fmt.channels
    ensures Rendered(Captured(buffer, numFrames, fmt).value, fmt).Ok?
    ensures frame * fmt.channels + channel < |Rendered(Captured(buffer, numFrames, fmt).value, fmt).value|
    ensures ReadOffset(frame, channel, fmt) + 4 <= |buffer|
    ensures var off := ReadOffset(frame, channel, fmt);
      LittleEndian(buffer[off..off + 4]) < WORD &&
      Rendered(Captured(buffer, numFrames, fmt).value, fmt).value[frame * fmt.channels + channel] ==
      AsInt32(LittleEndian(buffer[off..off + 4]))
  {
    var data := Captured(buffer, numFrames, fmt).value;
    CapturedShape(buffer, numFrames, fmt);
    assert |data| == fmt.channels && |data[0]| == numFrames;
    assert !Ragged(data);
    assert Rendered(data, fmt) == Ok(Interleave(data, numFrames));
    InterleaveSlot(data, numFrames, frame, channel);
    CapturedFloatIsWord(buffer, numFrames, fmt, frame, channel);
  }

  // ----- Channel lists -----

  /** The capture channels allocated before the first packet, one per input channel. */
  method NewChannels(numChannels: nat) returns (channels: seq<Channel>)
    ensures |channels| == numChannels
    ensures forall c | 0 <= c < numChannels :: fresh(channels[c]) && channels[c].samples == []
    ensures forall i, j | 0 <= i < j < numChannels :: channels[i] != channels[j]
  {
    channels := [];
    while |channels| < numChannels
      invariant |channels| <= numChannels
      invariant forall c | 0 <= c < |channels| :: fresh(channels[c]) && channels[c].samples == []
      invariant forall i, j | 0 <= i < j < |channels| :: channels[i] != channels[j]
    {
      var ch := new Channel();
      channels := channels + [ch];
    }
  }

  /** The clear loop after every packet: every capture channel ends empty. */
  method ClearChannels(channels: seq<Channel>)
    modifies channels
    ensures forall c | 0 <= c < |channels| :: channels[c].samples == []
  {
    var i := 0;
    while i < |channels|
      invariant 0 <= i <= |channels|
      invariant forall c | 0 <= c < i :: channels[c].samples == []
    {
      channels[i].samples := [];
      i := i + 1;
    }
  }

  // ----- The packet cycle: capture, DFT(channels[0]), ModifyChannels, render -----

  /**
   * The channels after `DFT(channels.ElementAt(0))`: channel 0 padded through
   * its alias, the throw of `ElementAt(0)` when there is no channel, or the
   * throw of `DFT` itself for a channel 0 longer than `MAX_POWER`.
   */
  function PadFirst<T>(data: seq<seq<T>>, zero: T): (r: Result<seq<seq<T>>, EngineError>)
    ensures r.Err? <==> |data| == 0 || MAX_POWER < |data[0]|
    ensures |data| == 0 ==> r == Err(NoInputChannel)
    ensures |data| > 0 && MAX_POWER < |data[0]| ==> r == Err(DftRefused(PowerOverflow))
    ensures r.Ok? ==> |r.value| == |data| && r.value[0] == ZeroPadded(data[0], zero, NextPowerOfTwo(|data[0]|))
    ensures r.Ok? ==> forall c | 0 < c < |data| :: r.value[c] == data[c]
  {
    if |data| == 0 then Err(NoInputChannel)
    else match DftPadded(data[0], zero)
      case Err(e) => Err(DftRefused(e))
      case Ok(padded) => Ok(data[0 := padded])
  }

  /** Channel 0 after `PadFirst` is exactly what `Transform.Dft` leaves in the channel it is handed. */
  lemma PadFirstIsDftPadding<T>(data: seq<seq<T>>, zero: T)
    requires |data| > 0
    ensures PadFirst(data, zero).Ok? <==> DftPadded(data[0], zero).Ok?
    ensures PadFirst(data, zero).Ok? ==> PadFirst(data, zero).value[0] == DftPadded(data[0], zero).value
    ensures PadFirst(data, zero).Err? ==> PadFirst(data, zero) == Err(DftRefused(DftPadded(data[0], zero).error))
  {
  }

  /**
   * Once `DFT` has run, mixing never yields zero channels: the render guard
   * for an empty output (a `continue`, not a throw) cannot be reached.
   */
  lemma MixedAfterPaddingHasChannels(data: seq<seq<real>>, outChannels: int)
    requires PadFirst(data, 0.0).Ok?
    ensures Mixed(PadFirst(data, 0.0).value, outChannels).Ok? ==> |Mixed(PadFirst(data, 0.0).value, outChannels).value| > 0
  {
    var padded := PadFirst(data, 0.0).value;
    assert |padded| == |data| > 0;
  }

  /**
   * With two input channels or more and a packet whose length is not a power
   * of two, the padded channel 0 is longer than channel 1, so mixing to a
   * different channel count runs off the end of channel 1.
   */
  lemma PaddingBreaksMixer(data: seq<seq<real>>, outChannels: int)
    requires |data| >= 2 && forall c | 0 <= c < |data| :: |data[c]| == |data[0]|
    requires !IsPowerOfTwo(|data[0]|)
    requires outChannels > 0 && outChannels != |data|
    ensures PadFirst(data, 0.0).Ok? <==> |data[0]| <= MAX_POWER
    ensures PadFirst(data, 0.0).Ok? ==> Mixed(PadFirst(data, 0.0).value, outChannels) == Err(IndexOutOfRange)
  {
    if PadFirst(data, 0.0).Err? {
      return;
    }
    var padded := PadFirst(data, 0.0).value;
    assert |padded[1]| < |padded[0]|;
  }

  /** Mixing to the same channel count hands the padded channels to the render loop, which runs off channel 1. */
  lemma PaddingBreaksRender(data: seq<seq<Sample>>, fmt: MixFormat)
    requires |data| >= 2 && forall c | 0 <= c < |data| :: |data[c]| == |data[0]|
    requires !IsPowerOfTwo(|data[0]|)
    requires fmt.encoding == Extensible(IeeeFloatSubFormat)
    ensures PadFirst(data, Sample(0)).Ok? <==> |data[0]| <= MAX_POWER
    ensures PadFirst(data, Sample(0)).Ok? ==> Rendered(PadFirst(data, Sample(0)).value, fmt) == Err(ShortChannel)
  {
    if PadFirst(data, Sample(0)).Err? {
      return;
    }
    var padded := PadFirst(data, Sample(0)).value;
    assert |padded[1]| < |padded[0]|;
  }

  /**
   * What `DFT` evidently intends: pad a copy of channel 0 for the transform
   * (the pair's first part) and leave the captured channels (its second part)
   * as they were.
   */
  function PadCopy<T>(data: seq<seq<T>>, zero: T): (r: Result<(seq<T>, seq<seq<T>>), EngineError>)
    ensures r.Err? <==> |data| == 0 || MAX_POWER < |data[0]|
    ensures |data| > 0 && MAX_POWER < |data[0]| ==> r == Err(DftRefused(PowerOverflow))
    ensures r.Ok? ==> IsPowerOfTwo(|r.value.0|) && |data[0]| <= |r.value.0| && r.value.0[..|data[0]|] == data[0]
    ensures r.Ok? ==> forall i | |data[0]| <= i < |r.value.0| :: r.value.0[i] == zero
    ensures r.Ok? ==> r.value.1 == data
  {
    if |data| == 0 then Err(NoInputChannel)
    else match DftPadded(data[0], zero)
      case Err(e) => Err(DftRefused(e))
      case Ok(padded) => Ok((padded, data))
  }

  /** With the copy padded instead, aligned channels of any length mix without error. */
  lemma CopiedPaddingMixes(data: seq<seq<real>>, outChannels: int)
    requires |data| > 0 && forall c | 0 <= c < |data| :: |data[c]| == |data[0]|
    requires outChannels > 0
    ensures PadCopy(data, 0.0).Ok? <==> |data[0]| <= MAX_POWER
    ensures PadCopy(data, 0.0).Ok? ==> Mixed(PadCopy(data, 0.0).value.1, outChannels).Ok?
  {
    MixedFailsIff(data, outChannels);
  }

  /** ... and, at the render format, aligned channels render every frame. */
  lemma CopiedPaddingRenders(data: seq<seq<Sample>>, fmt: MixFormat)
    requires |data| > 0 && forall c | 0 <= c < |data| :: |data[c]| == |data[0]|
    requires fmt.encoding == Extensible(IeeeFloatSubFormat)
    ensures PadCopy(data, Sample(0)).Ok? <==> |data[0]| <= MAX_POWER
    ensures PadCopy(data, Sample(0)).Ok? ==> Rendered(PadCopy(data, Sample(0)).value.1, fmt) == Ok(Interleave(data, |data[0]|))
  {
    RenderedWhole(data, fmt);
  }

  /** A power-of-two packet, or a single input channel, leaves the channels aligned. */
  lemma PaddingKeepsAlignment<T>(data: seq<seq<T>>, zero: T)
    requires |data| > 0 && forall c | 0 <= c < |data| :: |data[c]| == |data[0]|
    requires IsPowerOfTwo(|data[0]|) || |data| == 1
    ensures PadFirst(data, zero).Ok? <==> |data[0]| <= MAX_POWER
    ensures PadFirst(data, zero).Ok? ==> !Ragged(PadFirst(data, zero).value)
    ensures PadFirst(data, zero).Ok? && IsPowerOfTwo(|data[0]|) ==> PadFirst(data, zero) == Ok(data)
  {
    if PadFirst(data, zero).Ok? && IsPowerOfTwo(|data[0]|) {
      PaddingKeepsPowerOfTwoLength(data[0], zero);
      assert PadFirst(data, zero).value == data;
    }
  }

  /** Captured channels are aligned, so mixing them before the padding would not fail on length. */
  lemma CaptureKeepsChannelsAligned(buffer: seq<Byte>, numFrames: nat, fmt: MixFormat)
    requires WellFormed(fmt) && |buffer| == numFrames * fmt.blockAlign
    requires Captured(buffer, numFrames, fmt).Ok? && fmt.channels > 0
    ensures !Ragged(Captured(buffer, numFrames, fmt).value)
  {
    CapturedShape(buffer, numFrames, fmt);
  }

  // ----- The engine object -----

  class Audio {
    var pitchScale: real
    var micFrameSize: int
    var speakFrameSize: int
    /** `cancelTokenSource` has been created by `StartCapture`. */
    var captureStarted: bool
    var cancellationRequested: bool

    constructor ()
      ensures pitchScale == 2.0 && micFrameSize == 0 && speakFrameSize == 0
      ensures !captureStarted && !cancellationRequested
    {
      pitchScale := 2.0;
      micFrameSize := 0;
      speakFrameSize := 0;
      captureStarted := false;
      cancellationRequested := false;
    }

    method GetPitchScale() returns (p: real)
      ensures p == pitchScale
    {
      return pitchScale;
    }

    method SetPitchScale(p: real)
      modifies this
      ensures pitchScale == p
      ensures micFrameSize == old(micFrameSize) && speakFrameSize == old(speakFrameSize)
      ensures captureStarted == old(captureStarted) && cancellationRequested == old(cancellationRequested)
    {
      pitchScale := p;
    }

    /** The frame size the microphone's mix format gives; the device initialisation is not modelled. */
    method SetMicrophone(fmt: MixFormat)
      modifies this
      ensures micFrameSize == FrameSize(fmt)
      ensures pitchScale == old(pitchScale) && speakFrameSize == old(speakFrameSize)
      ensures captureStarted == old(captureStarted) && cancellationRequested == old(cancellationRequested)
    {
      micFrameSize := fmt.channels * fmt.bitsPerSample / 8;
    }

    method SetSpeaker(fmt: MixFormat)
      modifies this
      ensures speakFrameSize == FrameSize(fmt)
      ensures pitchScale == old(pitchScale) && micFrameSize == old(micFrameSize)
      ensures captureStarted == old(captureStarted) && cancellationRequested == old(cancellationRequested)
    {
      speakFrameSize := fmt.channels * fmt.bitsPerSample / 8;
    }

    /** Creates a fresh cancellation source; starting the devices and the capture task is not modelled. */
    method StartCapture()
      modifies this
      ensures captureStarted && !cancellationRequested
      ensures pitchScale == old(pitchScale) && micFrameSize == old(micFrameSize) && speakFrameSize == old(speakFrameSize)
    {
      captureStarted := true;
      cancellationRequested := false;
    }

    /** Cancels the capture task; before any `StartCapture` the source dereferences a null token source. */
    method StopCapture()
      requires captureStarted
      modifies this
      ensures captureStarted && cancellationRequested
      ensures pitchScale == old(pitchScale) && micFrameSize == old(micFrameSize) && speakFrameSize == old(speakFrameSize)
    {
      cancellationRequested := true;
    }
  }
}
