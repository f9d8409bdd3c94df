/**
 * `Resample` of Soundboard/AudioProcessor.cs: linear interpolation of every
 * channel to `numSamples` samples. The fractional source index
 * `sample * (count - 1) / (numSamples - 1)` is kept exact, as an integer
 * quotient (the floor) and remainder over the divisor `numSamples - 1`.
 */
module Resampler {
  import opened Wrappers
  import opened Arithmetic

  datatype ResampleError =
    | ZeroSamples      // "Can not resample to have 0 samples."
    | DivideByZero     // numSamples == 1: the divisor numSamples - 1 is zero
    | IndexOutOfRange  // ElementAt on an empty channel

  /** `(int)Math.Floor(index)`. */
  function LowIndex(sample: nat, count: nat, numSamples: nat): nat
    requires numSamples >= 2 && count >= 1
  {
    (sample * (count - 1)) / (numSamples - 1)
  }

  /** `(int)Math.Ceiling(index)`. */
  function HighIndex(sample: nat, count: nat, numSamples: nat): nat
    requires numSamples >= 2 && count >= 1
  {
    if (sample * (count - 1)) % (numSamples - 1) == 0 then LowIndex(sample, count, numSamples)
    else LowIndex(sample, count, numSamples) + 1
  }

  /** `index`, the exact fractional position in the source channel. */
  function Index(sample: nat, count: nat, numSamples: nat): real
    requires numSamples >= 2 && count >= 1
  {
    (sample * (count - 1)) as real / (numSamples - 1) as real
  }

  /** `index - lowIndex`, the weight of the high neighbour. */
  function Weight(sample: nat, count: nat, numSamples: nat): real
    requires numSamples >= 2 && count >= 1
  {
    ((sample * (count - 1)) % (numSamples - 1)) as real / (numSamples - 1) as real
  }

  /** The low and high indices are the floor and the ceiling of the fractional index. */
  lemma IndexIsFloorAndCeiling(sample: nat, count: nat, numSamples: nat)
    requires numSamples >= 2 && count >= 1
    ensures Index(sample, count, numSamples) == LowIndex(sample, count, numSamples) as real + Weight(sample, count, numSamples)
    ensures 0.0 <= Weight(sample, count, numSamples) < 1.0
    ensures LowIndex(sample, count, numSamples) as real <= Index(sample, count, numSamples) < LowIndex(sample, count, numSamples) as real + 1.0
    ensures HighIndex(sample, count, numSamples) as real - 1.0 < Index(sample, count, numSamples) <= HighIndex(sample, count, numSamples) as real
    ensures HighIndex(sample, count, numSamples) == LowIndex(sample, count, numSamples) <==> Weight(sample, count, numSamples) == 0.0
  {
    var x, p := sample * (count - 1), numSamples - 1;
    var q, r := x / p, x % p;
    assert x == q * p + r && 0 <= r < p;
    assert x as real == q as real * p as real + r as real;
    assert x as real / p as real == q as real + r as real / p as real;
    FractionBounds(r as real, p as real);
  }

  lemma FractionBounds(r: real, p: real)
    requires 0.0 <= r < p
    ensures 0.0 <= r / p < 1.0
  {
  }

  /** Both neighbours lie in the channel and are at most one apart. */
  lemma IndexBounds(sample: nat, count: nat, numSamples: nat)
    requires numSamples >= 2 && count >= 1 && sample < numSamples
    ensures 0 <= LowIndex(sample, count, numSamples) <= HighIndex(sample, count, numSamples) <= count - 1
    ensures HighIndex(sample, count, numSamples) - LowIndex(sample, count, numSamples) <= 1
  {
    var x, p := sample * (count - 1), numSamples - 1;
    var q, r := x / p, x % p;
    assert x == q * p + r && 0 <= r < p;
    if count > 1 {
      LeqMul(sample, numSamples - 1, count - 1);
    }
    assert x <= (count - 1) * p;
    assert (count - 1) * p < count * p;
    DivBounds(x, p, 0, count);
    if r != 0 {
      assert q * p < (count - 1) * p;
      MulLessCancel(q, count - 1, p);
    }
  }

  /** Output sample `sample`: `slope * (index - lowIndex) + ch[lowIndex]`. */
  function Interpolated(ch: seq<real>, sample: nat, numSamples: nat): real
    requires numSamples >= 2 && |ch| >= 1 && sample < numSamples
  {
    IndexBounds(sample, |ch|, numSamples);
    var lowIndex, highIndex := LowIndex(sample, |ch|, numSamples), HighIndex(sample, |ch|, numSamples);
    var slope := ch[highIndex] - ch[lowIndex];
    slope * Weight(sample, |ch|, numSamples) + ch[lowIndex]
  }

  function ResampledChannel(ch: seq<real>, numSamples: nat): (out: seq<real>)
    requires numSamples >= 2 && |ch| >= 1
    ensures |out| == numSamples
  {
    seq(numSamples, s requires 0 <= s < numSamples => Interpolated(ch, s, numSamples))
  }

  /** What `Resample(data, numSamples)` returns or throws. */
  function Resampled(data: seq<seq<real>>, numSamples: nat): Result<seq<seq<real>>, ResampleError>
  {
    if numSamples == 0 then Err(ZeroSamples)
    else if |data| == 0 then Ok([])
    else if numSamples == 1 then Err(DivideByZero)
    else if exists c | 0 <= c < |data| :: |data[c]| == 0 then Err(IndexOutOfRange)
    else Ok(seq(|data|, c requires 0 <= c < |data| => ResampledChannel(data[c], numSamples)))
  }

  method Resample(data: seq<seq<real>>, numSamples: nat) returns (r: Result<seq<seq<real>>, ResampleError>)
    ensures r == Resampled(data, numSamples)
  {
    if numSamples == 0 {
      return Err(ZeroSamples);
    }
    var returnData: seq<seq<real>> := [];
    var c := 0;
    while c < |data|
      invariant 0 <= c <= |data|
      invariant c > 0 ==> numSamples >= 2
      invariant forall k | 0 <= k < c :: |data[k]| >= 1
      invariant |returnData| == c
      invariant forall k | 0 <= k < c :: returnData[k] == ResampledChannel(data[k], numSamples)
    {
      var ch := data[c];
      // The source fails on the first sample of this channel, before appending
      // anything that could be returned.
      if numSamples == 1 {
        return Err(DivideByZero);
      }
      if |ch| == 0 {
        return Err(IndexOutOfRange);
      }
      returnData := returnData + [[]];
      var sample := 0;
      while sample < numSamples
        invariant 0 <= sample <= numSamples
        invariant |returnData| == c + 1
        invariant forall k | 0 <= k < c :: returnData[k] == ResampledChannel(data[k], numSamples)
        invariant returnData[c] == ResampledChannel(ch, numSamples)[..sample]
      {
        IndexBounds(sample, |ch|, numSamples);
        var highIndex := HighIndex(sample, |ch|, numSamples);
        var lowIndex := LowIndex(sample, |ch|, numSamples);
        var slope := ch[highIndex] - ch[lowIndex];
        var output := slope * Weight(sample, |ch|, numSamples) + ch[lowIndex];
        assert ResampledChannel(ch, numSamples)[sample] == output;
        assert ResampledChannel(ch, numSamples)[..sample + 1] == ResampledChannel(ch, numSamples)[..sample] + [output];
        returnData := returnData[c := returnData[c] + [output]];
        sample := sample + 1;
      }
      assert returnData[c] == ResampledChannel(ch, numSamples);
      c := c + 1;
    }
    assert returnData == seq(|data|, k requires 0 <= k < |data| => ResampledChannel(data[k], numSamples));
    return Ok(returnData);
  }

  /** The first output sample is the first input sample, the last is the last. */
  lemma ResampleKeepsEndpoints(ch: seq<real>, numSamples: nat)
    requires numSamples >= 2 && |ch| >= 1
    ensures ResampledChannel(ch, numSamples)[0] == ch[0]
    ensures ResampledChannel(ch, numSamples)[numSamples - 1] == ch[|ch| - 1]
  {
    assert LowIndex(0, |ch|, numSamples) == 0;
    DivExact(|ch| - 1, numSamples - 1);
    assert (numSamples - 1) * (|ch| - 1) == (|ch| - 1) * (numSamples - 1);
    assert LowIndex(numSamples - 1, |ch|, numSamples) == |ch| - 1;
    assert Weight(numSamples - 1, |ch|, numSamples) == 0.0;
  }

  /** Resampling a channel to its own length reproduces it. */
  lemma ResampleToSameLengthIsIdentity(ch: seq<real>)
    requires |ch| >= 2
    ensures ResampledChannel(ch, |ch|) == ch
  {
    forall s | 0 <= s < |ch|
      ensures ResampledChannel(ch, |ch|)[s] == ch[s]
    {
      SameLengthIndex(s, |ch|);
    }
  }

  /** Resampling to the same length puts output sample `s` exactly on source sample `s`. */
  lemma SameLengthIndex(s: nat, n: nat)
    requires 2 <= n && s < n
    ensures LowIndex(s, n, n) == s && HighIndex(s, n, n) == s && Weight(s, n, n) == 0.0
  {
    DivExact(s, n - 1);
  }

  /** With every channel already `numSamples` long (at least two), `Resample` is a no-op. */
  lemma ResampleNoOp(data: seq<seq<real>>, numSamples: nat)
    requires numSamples >= 2 && forall c | 0 <= c < |data| :: |data[c]| == numSamples
    ensures Resampled(data, numSamples) == Ok(data)
  {
    forall c | 0 <= c < |data|
      ensures ResampledChannel(data[c], numSamples) == data[c]
    {
      ResampleToSameLengthIsIdentity(data[c]);
    }
    assert data == seq(|data|, c requires 0 <= c < |data| => ResampledChannel(data[c], numSamples));
  }

  /** Every output sample lies between its two neighbours in the source channel. */
  lemma InterpolatedBetweenNeighbours(ch: seq<real>, sample: nat, numSamples: nat)
    requires numSamples >= 2 && |ch| >= 1 && sample < numSamples
    ensures HighIndex(sample, |ch|, numSamples) < |ch|
    ensures var lo, hi := ch[LowIndex(sample, |ch|, numSamples)], ch[HighIndex(sample, |ch|, numSamples)];
      (lo <= hi ==> lo <= Interpolated(ch, sample, numSamples) <= hi) &&
      (hi <= lo ==> hi <= Interpolated(ch, sample, numSamples) <= lo)
  {
    IndexBounds(sample, |ch|, numSamples);
    IndexIsFloorAndCeiling(sample, |ch|, numSamples);
    var lo, hi := ch[LowIndex(sample, |ch|, numSamples)], ch[HighIndex(sample, |ch|, numSamples)];
    var w := Weight(sample, |ch|, numSamples);
    assert Interpolated(ch, sample, numSamples) == lo + (hi - lo) * w;
    if lo <= hi {
      assert 0.0 <= (hi - lo) * w <= hi - lo;
    } else {
      assert lo - hi >= (lo - hi) * w >= 0.0;
    }
  }

  /** A target of one sample fails even when the input is already one sample long. */
  lemma ResampleToOneFails(data: seq<seq<real>>)
    requires |data| > 0
    ensures Resampled(data, 1) == Err(DivideByZero)
  {
  }

  /** Each output channel has exactly `numSamples` samples, one per input channel. */
  lemma ResampledShape(data: seq<seq<real>>, numSamples: nat, c: nat)
    requires Resampled(data, numSamples).Ok? && c < |data|
    ensures |Resampled(data, numSamples).value| == |data|
    ensures |Resampled(data, numSamples).value[c]| == numSamples
  {
  }
}
