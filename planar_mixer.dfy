/**
 * `ModifyChannels` of Soundboard/AudioProcessor.cs: the planar channel mixer.
 * Every output channel receives, frame by frame, the mean of all input
 * channels. A sample is seen here through its float value, as a real.
 */
module PlanarMixer {
  import opened Wrappers
  import opened Averages

  datatype MixError =
    | ChannelCountNotPositive  // "Number of channels must be non-zero and non-negative."
    | IndexOutOfRange          // `ElementAt` past the end of a shorter input channel

  /** The samples at index `frame` of the first `k` channels. */
  function Column(data: seq<seq<real>>, k: nat, frame: nat): (col: seq<real>)
    requires k <= |data| && forall c | 0 <= c < k :: frame < |data[c]|
    ensures |col| == k && forall c | 0 <= c < k :: col[c] == data[c][frame]
  {
    seq(k, c requires 0 <= c < k => data[c][frame])
  }

  /** The mean of all input channels at `frame`. */
  function FrameMean(data: seq<seq<real>>, frame: nat): real
    requires |data| > 0 && forall c | 0 <= c < |data| :: frame < |data[c]|
  {
    Mean(Column(data, |data|, frame))
  }

  /** Some input channel is shorter than channel 0, whose length drives the frame loop. */
  predicate Ragged<T>(data: seq<seq<T>>)
    requires |data| > 0
  {
    exists c | 0 <= c < |data| :: |data[c]| < |data[0]|
  }

  /** The first `n` frame means: the channel every output channel receives. */
  function MeanChannel(data: seq<seq<real>>, n: nat): (ch: seq<real>)
    requires |data| > 0 && forall c | 0 <= c < |data| :: n <= |data[c]|
    ensures |ch| == n
  {
    seq(n, f requires 0 <= f < n => FrameMean(data, f))
  }

  /** What `ModifyChannels(data, outChannels)` returns or throws. */
  function Mixed(data: seq<seq<real>>, outChannels: int): Result<seq<seq<real>>, MixError>
  {
    if |data| == outChannels then Ok(data)
    else if |data| == 0 || outChannels <= 0 then Err(ChannelCountNotPositive)
    else if Ragged(data) then Err(IndexOutOfRange)
    else Ok(seq(outChannels, _ => MeanChannel(data, |data[0]|)))
  }

  method ModifyChannels(data: seq<seq<real>>, outChannels: int) returns (r: Result<seq<seq<real>>, MixError>)
    ensures r == Mixed(data, outChannels)
  {
    if |data| == outChannels {
      return Ok(data);
    } else if |data| <= 0 || outChannels <= 0 {
      return Err(ChannelCountNotPositive);
    }

    var returnData: seq<seq<real>> := [];
    var i := 0;
    while i < outChannels
      invariant 0 <= i <= outChannels
      invariant returnData == seq(i, _ => [])
    {
      returnData := returnData + [[]];
      i := i + 1;
    }

    var frame := 0;
    while frame < |data[0]|
      invariant 0 <= frame <= |data[0]|
      invariant forall c | 0 <= c < |data| :: frame <= |data[c]|
      invariant returnData == seq(outChannels, _ => MeanChannel(data, frame))
    {
      var frameAvg := 0.0;
      var ch := 0;
      while ch < |data|
        invariant 0 <= ch <= |data|
        invariant forall c | 0 <= c < ch :: frame < |data[c]|
        invariant frameAvg == Sum(Column(data, ch, frame))
      {
        if frame >= |data[ch]| {
          assert Ragged(data);
          return Err(IndexOutOfRange);
        }
        assert Column(data, ch + 1, frame)[..ch] == Column(data, ch, frame);
        frameAvg := frameAvg + data[ch][frame];
        ch := ch + 1;
      }
      frameAvg := frameAvg / |data| as real;
      assert frameAvg == FrameMean(data, frame);
      var next := MeanChannel(data, frame + 1);
      assert next == MeanChannel(data, frame) + [frameAvg];

      ch := 0;
      while ch < outChannels
        invariant 0 <= ch <= outChannels
        invariant |returnData| == outChannels
        invariant forall c | 0 <= c < ch :: returnData[c] == next
        invariant forall c | ch <= c < outChannels :: returnData[c] == MeanChannel(data, frame)
      {
        returnData := returnData[ch := returnData[ch] + [frameAvg]];
        ch := ch + 1;
      }
      frame := frame + 1;
    }
    assert !Ragged(data);
    return Ok(returnData);
  }

  /** Mixing fails exactly when the counts differ and one is not positive, or an input channel is short. */
  lemma MixedFailsIff(data: seq<seq<real>>, outChannels: int)
    ensures Mixed(data, outChannels).Err? <==>
      |data| != outChannels && (|data| == 0 || outChannels <= 0 || Ragged(data))
    ensures Mixed(data, outChannels) == Err(ChannelCountNotPositive) <==>
      |data| != outChannels && (|data| == 0 || outChannels <= 0)
  {
  }

  /** A mixed result has `outChannels` channels as long as channel 0, all holding the frame means. */
  lemma MixedIsFrameMeans(data: seq<seq<real>>, outChannels: int, c: nat, f: nat)
    requires |data| != outChannels && Mixed(data, outChannels).Ok?
    requires c < outChannels && f < |data[0]|
    ensures |Mixed(data, outChannels).value| == outChannels
    ensures |Mixed(data, outChannels).value[c]| == |data[0]|
    ensures forall ch | 0 <= ch < |data| :: f < |data[ch]|
    ensures Mixed(data, outChannels).value[c][f] == FrameMean(data, f)
  {
  }

  /** Mixing a mixed result again equals mixing once: every channel already holds the mean. */
  lemma {:induction false} MixTwiceIsMixOnce(data: seq<seq<real>>, k: int, m: int)
    requires |data| != k && Mixed(data, k).Ok?
    requires m != k && m != |data| && m > 0
    ensures Mixed(Mixed(data, k).value, m) == Mixed(data, m)
  {
    var n := |data[0]|;
    var once := Mixed(data, k).value;
    assert |once| == k && k > 0 && |once[0]| == n;
    assert !Ragged(once);
    forall f | 0 <= f < n
      ensures FrameMean(once, f) == FrameMean(data, f)
    {
      MeanOfConstant(Column(once, k, f), FrameMean(data, f));
    }
    assert MeanChannel(once, n) == MeanChannel(data, n);
  }

  /** Two constant channels 1.0 and 3.0 mix down to 2.0, and mixing that up to four channels keeps 2.0. */
  lemma {:induction false} DownAndUpMix(n: nat)
    ensures Mixed([seq(n, _ => 1.0), seq(n, _ => 3.0)], 1) == Ok([seq(n, _ => 2.0)])
    ensures Mixed([seq(n, _ => 2.0)], 4) == Ok(seq(4, _ => seq(n, _ => 2.0)))
  {
    var stereo := [seq(n, _ => 1.0), seq(n, _ => 3.0)];
    assert !Ragged(stereo);
    forall f | 0 <= f < n
      ensures FrameMean(stereo, f) == 2.0
    {
      var col := Column(stereo, 2, f);
      assert col == [1.0, 3.0];
      assert col[..1] == [1.0];
      assert [1.0][..0] == [];
      assert Sum([1.0]) == 1.0;
      assert Sum(col) == 4.0;
    }
    assert MeanChannel(stereo, n) == seq(n, _ => 2.0);
    assert Mixed(stereo, 1).value == seq(1, _ => MeanChannel(stereo, n));
    assert seq(1, _ => MeanChannel(stereo, n)) == [MeanChannel(stereo, n)];
    var mono := [seq(n, _ => 2.0)];
    assert !Ragged(mono);
    forall f | 0 <= f < n
      ensures FrameMean(mono, f) == 2.0
    {
      MeanOfConstant(Column(mono, 1, f), 2.0);
    }
    assert MeanChannel(mono, n) == seq(n, _ => 2.0);
  }
}
