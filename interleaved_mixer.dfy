/**
 * `ModifyChannels` of Soundboard/AudioDevices.cs: the interleaved channel
 * mixer. The input is frame-major with `inChannels` values per frame; every
 * output frame repeats the mean of its input frame `outChannels` times.
 * Values are seen through their float value, as reals.
 */
module InterleavedMixer {
  import opened Wrappers
  import opened Arithmetic
  import opened Averages

  datatype MixError =
    | ChannelCountZero  // "Number of channels must be non-zero."
    | IndexOutOfRange   // `ElementAt(i + j)` inside a trailing partial frame

  /** Input frame `f`: values `f * inChannels` up to `(f + 1) * inChannels`. */
  function InFrame(data: seq<real>, inChannels: nat, f: nat): (frame: seq<real>)
    requires (f + 1) * inChannels <= |data|
    ensures |frame| == inChannels
  {
    assert f * inChannels <= (f + 1) * inChannels by {
      LeqMul(f, f + 1, inChannels);
    }
    data[f * inChannels..(f + 1) * inChannels]
  }

  /** The first `n` output frames, each the mean of its input frame repeated `outChannels` times. */
  function MixedFrames(data: seq<real>, inChannels: nat, outChannels: nat, n: nat): (mixed: seq<real>)
    requires inChannels > 0 && n * inChannels <= |data|
    ensures |mixed| == n * outChannels
  {
    if n == 0 then []
    else
      assert n * outChannels == (n - 1) * outChannels + outChannels;
      assert (n - 1) * inChannels <= n * inChannels by {
        LeqMul(n - 1, n, inChannels);
      }
      MixedFrames(data, inChannels, outChannels, n - 1) + seq(outChannels, _ => Mean(InFrame(data, inChannels, n - 1)))
  }

  /** What `ModifyChannels(data, inChannels, outChannels)` returns or throws. */
  function Mixed(data: seq<real>, inChannels: nat, outChannels: nat): Result<seq<real>, MixError>
  {
    if inChannels == outChannels then Ok(data)
    else if inChannels == 0 || outChannels == 0 then Err(ChannelCountZero)
    else if |data| % inChannels != 0 then Err(IndexOutOfRange)
    else
      assert (|data| / inChannels) * inChannels == |data|;
      Ok(MixedFrames(data, inChannels, outChannels, |data| / inChannels))
  }

  /** A length strictly between two multiples of `inChannels` ends in a partial frame. */
  lemma PartialFrame(len: nat, inChannels: nat, frames: nat)
    requires inChannels > 0 && frames * inChannels < len < (frames + 1) * inChannels
    ensures len % inChannels != 0
  {
    DivBounds(len, inChannels, frames, frames + 1);
    var q, r := len / inChannels, len % inChannels;
    assert len == q * inChannels + r;
    assert q == frames;
  }

  /** The `frameAvg` loop over the frame that starts at `i`. */
  method FrameAverage(data: seq<real>, i: nat, inChannels: nat) returns (r: Result<real, MixError>)
    requires inChannels > 0 && i < |data|
    ensures i + inChannels <= |data| ==> r == Ok(Mean(data[i..i + inChannels]))
    ensures |data| < i + inChannels ==> r == Err(IndexOutOfRange)
  {
    var frameAvg := 0.0;
    var j := 0;
    while j < inChannels
      invariant 0 <= j <= inChannels
      invariant i + j <= |data|
      invariant frameAvg == Sum(data[i..i + j])
    {
      if i + j >= |data| {
        return Err(IndexOutOfRange);
      }
      assert data[i..i + j + 1][..j] == data[i..i + j];
      frameAvg := frameAvg + data[i + j];
      j := j + 1;
    }
    frameAvg := frameAvg / inChannels as real;
    return Ok(frameAvg);
  }

  method ModifyChannels(data: seq<real>, inChannels: nat, outChannels: nat) returns (r: Result<seq<real>, MixError>)
    ensures r == Mixed(data, inChannels, outChannels)
  {
    if inChannels == outChannels {
      return Ok(data);
    } else if inChannels == 0 || outChannels == 0 {
      return Err(ChannelCountZero);
    }
    var returnData: seq<real> := [];
    var i := 0;
    ghost var frames := 0;
    while i < |data|
      invariant i == frames * inChannels && i <= |data|
      invariant returnData == MixedFrames(data, inChannels, outChannels, frames)
    {
      assert (frames + 1) * inChannels == i + inChannels;
      var frameAvg := FrameAverage(data, i, inChannels);
      if frameAvg.Err? {
        PartialFrame(|data|, inChannels, frames);
        return Err(IndexOutOfRange);
      }
      assert frameAvg.value == Mean(InFrame(data, inChannels, frames));
      var j := 0;
      ghost var prefix := returnData;
      while j < outChannels
        invariant 0 <= j <= outChannels
        invariant returnData == prefix + seq(j, _ => frameAvg.value)
      {
        returnData := returnData + [frameAvg.value];
        j := j + 1;
      }
      i := i + inChannels;
      frames := frames + 1;
    }
    DivExact(frames, inChannels);
    return Ok(returnData);
  }

  /** Mixing fails exactly when the counts differ and one is zero, or the input ends in a partial frame. */
  lemma MixedFailsIff(data: seq<real>, inChannels: nat, outChannels: nat)
    ensures Mixed(data, inChannels, outChannels).Err? <==>
      inChannels != outChannels && (inChannels == 0 || outChannels == 0 || |data| % inChannels != 0)
    ensures Mixed(data, inChannels, outChannels) == Err(IndexOutOfRange) <==>
      inChannels != outChannels && inChannels != 0 && outChannels != 0 && |data| % inChannels != 0
  {
  }

  /** A mix of whole frames has `outChannels` values per input frame. */
  lemma MixedLength(data: seq<real>, inChannels: nat, outChannels: nat)
    requires Mixed(data, inChannels, outChannels).Ok?
    ensures inChannels != outChannels ==> |data| % inChannels == 0
    ensures |Mixed(data, inChannels, outChannels).value| ==
      if inChannels == outChannels then |data| else (|data| / inChannels) * outChannels
  {
  }

  /** Output frame `f` of the first `n`: `outChannels` copies of input frame `f`'s mean. */
  lemma {:induction false} MixedFramesSlice(data: seq<real>, inChannels: nat, outChannels: nat, n: nat, f: nat)
    requires inChannels > 0 && n * inChannels <= |data| && f < n
    ensures (f + 1) * inChannels <= |data| && (f + 1) * outChannels <= n * outChannels
    ensures MixedFrames(data, inChannels, outChannels, n)[f * outChannels..(f + 1) * outChannels] ==
      seq(outChannels, _ => Mean(InFrame(data, inChannels, f)))
    decreases n
  {
    var w := outChannels;
    FrameArith(f, n, inChannels);
    FrameArith(f, n, w);
    var prev := MixedFrames(data, inChannels, w, n - 1);
    var last := seq(w, _ => Mean(InFrame(data, inChannels, n - 1)));
    assert MixedFrames(data, inChannels, w, n) == prev + last;
    if f < n - 1 {
      MixedFramesSlice(data, inChannels, w, n - 1, f);
      assert (prev + last)[f * w..(f + 1) * w] == prev[f * w..(f + 1) * w];
    } else {
      assert (prev + last)[f * w..(f + 1) * w] == last;
    }
  }

  /** The multiples of `k` that bound frame `f` of `n`. */
  lemma FrameArith(f: nat, n: nat, k: nat)
    requires f < n
    ensures (f + 1) * k == f * k + k <= n * k
    ensures n * k == (n - 1) * k + k
    ensures f < n - 1 ==> (f + 1) * k <= (n - 1) * k
  {
    LeqMul(f + 1, n, k);
    if f < n - 1 {
      LeqMul(f + 1, n - 1, k);
    }
  }

  /** Output frame `f` is `outChannels` copies of input frame `f`'s mean. */
  lemma MixedFrameIsMean(data: seq<real>, inChannels: nat, outChannels: nat, f: nat)
    requires inChannels != outChannels && Mixed(data, inChannels, outChannels).Ok?
    requires f < |data| / inChannels
    ensures (f + 1) * inChannels <= |data| && (f + 1) * outChannels <= |Mixed(data, inChannels, outChannels).value|
    ensures Mixed(data, inChannels, outChannels).value[f * outChannels..(f + 1) * outChannels] ==
      seq(outChannels, _ => Mean(InFrame(data, inChannels, f)))
  {
    var n := |data| / inChannels;
    assert n * inChannels == |data|;
    MixedFramesSlice(data, inChannels, outChannels, n, f);
  }
}
