/**
 * The packet loop of `GetCaptureData` in Soundboard/AudioDevices.cs (the
 * earlier, interleaved engine): every captured value is assembled from the
 * packet's bytes into a zeroed 4-byte float slot, the interleaved values go
 * through `ScalePitch` and `ModifyChannels`, and the render loop writes them
 * into a device buffer of `wData.Count / Channels` frames.
 */
module InterleavedAudio {
  import opened Wrappers
  import opened Arithmetic
  import opened Bytes
  import opened InterleavedMixer

  /** The fields of a device mix format that the loops read. */
  datatype WaveFormat = WaveFormat(channels: nat, bitsPerSample: nat)

  /** Bytes copied per value: `BitsPerSample / 8`, rounded down. */
  function BytesPerValue(fmt: WaveFormat): nat
  {
    fmt.bitsPerSample / 8
  }

  /** Frame size in bytes as `SetMicrophone` and `SetSpeaker` compute it, left to right. */
  function FrameSize(fmt: WaveFormat): nat
  {
    fmt.channels * fmt.bitsPerSample / 8
  }

  /** A frame holds the bytes the capture reads from it, exactly so for whole-byte samples. */
  lemma FrameSizeHoldsValues(fmt: WaveFormat)
    ensures fmt.channels * BytesPerValue(fmt) <= FrameSize(fmt)
    ensures fmt.bitsPerSample % 8 == 0 ==> fmt.channels * BytesPerValue(fmt) == FrameSize(fmt)
  {
    var c, b := fmt.channels, fmt.bitsPerSample;
    var q, r := b / 8, b % 8;
    assert b == 8 * q + r && 0 <= r < 8;
    assert c * b == 8 * (c * q) + c * r;
    assert c * r <= 7 * c by {
      LeqMul(r, 7, c);
    }
    DivBounds(c * b, 8, c * q, c * q + c + 1);
    if r == 0 {
      DivExact(c * q, 8);
    }
  }

  // ----- Capture -----

  /** The float bit pattern of a zeroed 4-byte slot whose low bytes are `bytes`. */
  function Slot(bytes: seq<Byte>): Int32
    requires |bytes| <= 4
  {
    LittleEndianBound(bytes + Zeros(4 - |bytes|));
    Pow2Values();
    AsInt32(LittleEndian(bytes + Zeros(4 - |bytes|)))
  }

  /** The slot is the little-endian number of its bytes; fewer than four bytes leave the sign and top bits clear. */
  lemma SlotIsLittleEndian(bytes: seq<Byte>)
    requires |bytes| <= 4
    ensures LittleEndian(bytes) < WORD
    ensures Slot(bytes) == AsInt32(LittleEndian(bytes))
    ensures |bytes| < 4 ==> 0 <= Slot(bytes) == LittleEndian(bytes) < Pow2(8 * |bytes|)
  {
    LittleEndianHighZeros(bytes, 4 - |bytes|);
    LittleEndianBound(bytes);
    Pow2Monotone(8 * |bytes|, 32);
    Pow2Values();
    if |bytes| < 4 {
      Pow2Monotone(8 * |bytes|, 24);
    }
  }

  /** Value `k` of a packet read `b` bytes at a time. */
  function ValueAt(buffer: seq<Byte>, b: nat, k: nat): Int32
    requires b <= 4 && (k + 1) * b <= |buffer|
  {
    assert k * b + b == (k + 1) * b;
    Slot(buffer[k * b..k * b + b])
  }

  /** The first `n` values of a packet read `b` bytes at a time. */
  function Values(buffer: seq<Byte>, b: nat, n: nat): (values: seq<Int32>)
    requires b <= 4 && n * b <= |buffer|
    ensures |values| == n
  {
    seq(n, k requires 0 <= k < n => (LeqMul(k + 1, n, b); ValueAt(buffer, b, k)))
  }

  lemma ValuesAt(buffer: seq<Byte>, b: nat, n: nat, k: nat)
    requires b <= 4 && n * b <= |buffer| && k < n
    ensures (k + 1) * b <= |buffer| && k * b + b == (k + 1) * b
    ensures Values(buffer, b, n)[k] == ValueAt(buffer, b, k)
  {
    LeqMul(k + 1, n, b);
  }

  lemma ValuesSnoc(buffer: seq<Byte>, b: nat, k: nat)
    requires b <= 4 && (k + 1) * b <= |buffer|
    ensures k * b <= |buffer| && k * b + b == (k + 1) * b
    ensures Values(buffer, b, k + 1) == Values(buffer, b, k) + [ValueAt(buffer, b, k)]
  {
    LeqMul(k, k + 1, b);
    assert k * b + b == (k + 1) * b;
    assert Values(buffer, b, k + 1)[..k] == Values(buffer, b, k);
  }

  /** The interleaved values the capture loop produces from a packet of `numFrames` frames. */
  function CapturedValues(buffer: seq<Byte>, numFrames: nat, fmt: WaveFormat): (values: seq<Int32>)
    requires BytesPerValue(fmt) <= 4 && numFrames * fmt.channels * BytesPerValue(fmt) <= |buffer|
    ensures |values| == numFrames * fmt.channels
  {
    Values(buffer, BytesPerValue(fmt), numFrames * fmt.channels)
  }

  /** The byte loop for one value: copy `b` bytes from `start` into the low bytes of a zeroed slot. */
  method AssembleValue(buffer: seq<Byte>, start: nat, b: nat) returns (v: Int32)
    requires b <= 4 && start + b <= |buffer|
    ensures v == Slot(buffer[start..start + b])
  {
    var temp := new Byte[4](_ => 0);
    var frameByte := 0;
    while frameByte < b
      invariant 0 <= frameByte <= b
      invariant forall j | 0 <= j < frameByte :: temp[j] == buffer[start + j]
      invariant forall j | frameByte <= j < 4 :: temp[j] == 0
    {
      temp[frameByte] := buffer[start + frameByte];
      frameByte := frameByte + 1;
    }
    assert temp[..] == buffer[start..start + b] + Zeros(4 - b);
    LittleEndianBound(temp[..]);
    Pow2Values();
    v := AsInt32(LittleEndian(temp[..]));
  }

  /** The channel loop for one frame: `channels` more values, read from the cursor `pData` on. */
  method CaptureFrame(buffer: seq<Byte>, b: nat, channels: nat, n: nat, data: seq<Int32>, pData: nat)
    returns (frameData: seq<Int32>, next: nat)
    requires b <= 4 && n * b <= |buffer| && |data| + channels <= n
    requires pData == |data| * b && data == Values(buffer, b, |data|)
    ensures |frameData| == |data| + channels && next == |frameData| * b
    ensures frameData == Values(buffer, b, |frameData|)
  {
    frameData, next := data, pData;
    var channel := 0;
    while channel < channels
      invariant 0 <= channel <= channels
      invariant |frameData| == |data| + channel
      invariant next == |frameData| * b
      invariant frameData == Values(buffer, b, |frameData|)
    {
      ghost var k := |frameData|;
      LeqMul(k + 1, n, b);
      ValuesSnoc(buffer, b, k);
      var temp := AssembleValue(buffer, next, b);
      assert temp == ValueAt(buffer, b, k);
      frameData := frameData + [temp];
      next := next + b;
      assert next == (k + 1) * b;
      channel := channel + 1;
    }
  }

  /** The capture loop: the values of one packet, and the number of bytes the cursor has passed. */
  method CapturePacket(buffer: seq<Byte>, numFrames: nat, fmt: WaveFormat) returns (data: seq<Int32>, bytesRead: nat)
    requires BytesPerValue(fmt) <= 4  // more bytes would overrun the 4-byte float slot
    requires numFrames * fmt.channels * BytesPerValue(fmt) <= |buffer|
    ensures data == CapturedValues(buffer, numFrames, fmt)
    ensures bytesRead == numFrames * fmt.channels * BytesPerValue(fmt)
  {
    var b := BytesPerValue(fmt);
    var n := numFrames * fmt.channels;
    data := [];
    var pData := 0;
    var frame := 0;
    while frame < numFrames
      invariant 0 <= frame <= numFrames
      invariant |data| == frame * fmt.channels
      invariant pData == |data| * b <= n * b
      invariant data == Values(buffer, b, |data|)
    {
      LeqMul(frame + 1, numFrames, fmt.channels);
      assert (frame + 1) * fmt.channels == |data| + fmt.channels;
      data, pData := CaptureFrame(buffer, b, fmt.channels, n, data, pData);
      LeqMul(|data|, n, b);
      frame := frame + 1;
    }
    return data, pData;
  }

  /** Value `frame * Channels + channel` comes from the `b` bytes at that position times `b`. */
  lemma CapturedValueAt(buffer: seq<Byte>, numFrames: nat, fmt: WaveFormat, frame: nat, channel: nat)
    requires BytesPerValue(fmt) <= 4 && numFrames * fmt.channels * BytesPerValue(fmt) <= |buffer|
    requires frame < numFrames && channel < fmt.channels
    ensures frame * fmt.channels + channel < numFrames * fmt.channels
    ensures var k, b := frame * fmt.channels + channel, BytesPerValue(fmt);
      (k + 1) * b == k * b + b <= |buffer|
    ensures var k, b := frame * fmt.channels + channel, BytesPerValue(fmt);
      LittleEndian(buffer[k * b..k * b + b]) < WORD &&
      CapturedValues(buffer, numFrames, fmt)[k] == AsInt32(LittleEndian(buffer[k * b..k * b + b]))
  {
    var c, b := fmt.channels, BytesPerValue(fmt);
    var n, k := numFrames * c, frame * c + channel;
    FrameIndex(frame, numFrames, c, channel);
    assert CapturedValues(buffer, numFrames, fmt)[k] == ValueAt(buffer, b, k) by {
      ValuesAt(buffer, b, n, k);
    }
    var bytes := buffer[k * b..k * b + b];
    assert ValueAt(buffer, b, k) == Slot(bytes);
    SlotIsLittleEndian(bytes);
  }

  lemma FrameIndex(frame: nat, numFrames: nat, c: nat, channel: nat)
    requires frame < numFrames && channel < c
    ensures frame * c + channel < numFrames * c
  {
    LeqMul(frame + 1, numFrames, c);
    assert (frame + 1) * c == frame * c + c;
  }

  // ----- Pitch, mixing and render -----

  /** The pitch stage: a placeholder that hands its input on. */
  method ScalePitch(data: seq<real>) returns (r: seq<real>)
    ensures r == data
  {
    return data;
  }

  datatype RenderError =
    | DivideByZero  // `wData.Count / Channels` with a zero-channel speaker format

  /** `framesRequested`: whole frames in `count` values. */
  function FramesRequested(count: nat, speakChannels: nat): (r: Result<nat, RenderError>)
    ensures r.Err? <==> speakChannels == 0
    ensures r.Ok? ==> r.value * speakChannels <= count < (r.value + 1) * speakChannels
  {
    if speakChannels == 0 then Err(DivideByZero)
    else
      var q := count / speakChannels;
      DivBounds(count, speakChannels, q, q + 1);
      var r := count % speakChannels;
      assert count == q * speakChannels + r;
      assert (q + 1) * speakChannels == q * speakChannels + speakChannels;
      Ok(q)
  }

  /**
   * The render loop: a device buffer of `framesRequested` frames, then one
   * float per value of `wData`. A count that is not a multiple of the speaker
   * channels would write past that buffer.
   */
  method RenderPacket(wData: seq<real>, speakChannels: nat) returns (r: Result<array<real>, RenderError>)
    requires speakChannels > 0 ==> |wData| % speakChannels == 0
    ensures r.Err? <==> speakChannels == 0
    ensures r.Ok? ==> fresh(r.value) && r.value[..] == wData
    ensures r.Ok? ==> r.value.Length == FramesRequested(|wData|, speakChannels).value * speakChannels
  {
    var framesRequested := FramesRequested(|wData|, speakChannels);
    if framesRequested.Err? {
      return Err(framesRequested.error);
    }
    assert framesRequested.value * speakChannels == |wData| by {
      var q := framesRequested.value;
      assert |wData| == (|wData| / speakChannels) * speakChannels + |wData| % speakChannels;
    }
    var pData := new real[framesRequested.value * speakChannels];
    var i := 0;
    while i < |wData|
      invariant 0 <= i <= |wData|
      invariant pData[..i] == wData[..i]
    {
      pData[i] := wData[i];
      i := i + 1;
    }
    assert pData[..] == pData[..i];
    return Ok(pData);
  }

  /**
   * One packet through the mixer: whatever the speaker channel count, the
   * mixed packet is exactly `numFrames` whole speaker frames, so the render
   * loop fills the buffer it requested.
   */
  lemma MixedPacketFillsRenderBuffer(values: seq<real>, numFrames: nat, inChannels: nat, outChannels: nat)
    requires |values| == numFrames * inChannels && inChannels > 0 && outChannels > 0
    ensures Mixed(values, inChannels, outChannels).Ok?
    ensures |Mixed(values, inChannels, outChannels).value| == numFrames * outChannels
    ensures FramesRequested(|Mixed(values, inChannels, outChannels).value|, outChannels) == Ok(numFrames)
  {
    DivExact(numFrames, inChannels);
    DivExact(numFrames, outChannels);
  }

  /** The capture delivers `numFrames` frames of the microphone's channel count to the mixer. */
  lemma CaptureFeedsWholeFrames(buffer: seq<Byte>, numFrames: nat, fmt: WaveFormat, values: seq<real>, outChannels: nat)
    requires BytesPerValue(fmt) <= 4 && numFrames * fmt.channels * BytesPerValue(fmt) <= |buffer|
    requires |values| == |CapturedValues(buffer, numFrames, fmt)| && fmt.channels > 0 && outChannels > 0
    ensures Mixed(values, fmt.channels, outChannels).Ok?
    ensures FramesRequested(|Mixed(values, fmt.channels, outChannels).value|, outChannels) == Ok(numFrames)
  {
    MixedPacketFillsRenderBuffer(values, numFrames, fmt.channels, outChannels);
  }

  // ----- The engine object -----

  class Audio {
    /** The byte list the constructor allocates; no loop uses it. */
    var data: seq<Byte>
    var micFrameSize: int
    var speakFrameSize: int
    var pitchScale: real
    /** `cancelTokenSource` has been created by `StartCapture`. */
    var captureStarted: bool
    var cancellationRequested: bool

    constructor ()
      ensures data == [] && micFrameSize == 0 && speakFrameSize == 0 && pitchScale == 0.0
      ensures !captureStarted && !cancellationRequested
    {
      data := [];
      micFrameSize := 0;
      speakFrameSize := 0;
      pitchScale := 0.0;
      captureStarted := false;
      cancellationRequested := false;
    }

    /** The frame size the microphone's mix format gives; the device initialisation is not modelled. */
    method SetMicrophone(fmt: WaveFormat)
      modifies this
      ensures micFrameSize == FrameSize(fmt)
      ensures data == old(data) && speakFrameSize == old(speakFrameSize) && pitchScale == old(pitchScale)
      ensures captureStarted == old(captureStarted) && cancellationRequested == old(cancellationRequested)
    {
      micFrameSize := fmt.channels * fmt.bitsPerSample / 8;
    }

    method SetSpeaker(fmt: WaveFormat)
      modifies this
      ensures speakFrameSize == FrameSize(fmt)
      ensures data == old(data) && micFrameSize == old(micFrameSize) && pitchScale == old(pitchScale)
      ensures captureStarted == old(captureStarted) && cancellationRequested == old(cancellationRequested)
    {
      speakFrameSize := fmt.channels * fmt.bitsPerSample / 8;
    }

    /** Creates a fresh cancellation source; starting the devices and the capture task is not modelled. */
    method StartCapture()
      modifies this
      ensures captureStarted && !cancellationRequested
      ensures data == old(data) && micFrameSize == old(micFrameSize) && speakFrameSize == old(speakFrameSize)
      ensures pitchScale == old(pitchScale)
    {
      captureStarted := true;
      cancellationRequested := false;
    }

    /** Cancels the capture task; before any `StartCapture` the source dereferences a null token source. */
    method StopCapture()
      requires captureStarted
      modifies this
      ensures captureStarted && cancellationRequested
      ensures data == old(data) && micFrameSize == old(micFrameSize) && speakFrameSize == old(speakFrameSize)
      ensures pitchScale == old(pitchScale)
    {
      cancellationRequested := true;
    }
  }
}
