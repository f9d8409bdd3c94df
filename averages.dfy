/** Sums and means over exact reals: the float averages of both channel mixers without rounding. */
module Averages {
  /** The left-to-right sum, the order in which both mixers accumulate `frameAvg`. */
  function Sum(s: seq<real>): real
  {
    if s == [] then 0.0 else Sum(s[..|s| - 1]) + s[|s| - 1]
  }

  function Mean(s: seq<real>): real
    requires |s| > 0
  {
    Sum(s) / |s| as real
  }

  /** `n` copies of `v` sum to `n * v`. */
  lemma {:induction false} SumOfConstant(s: seq<real>, v: real)
    requires forall i | 0 <= i < |s| :: s[i] == v
    ensures Sum(s) == |s| as real * v
  {
    if s != [] {
      SumOfConstant(s[..|s| - 1], v);
    }
  }

  /** The mean of equal values is that value. */
  lemma MeanOfConstant(s: seq<real>, v: real)
    requires |s| > 0 && forall i | 0 <= i < |s| :: s[i] == v
    ensures Mean(s) == v
  {
    SumOfConstant(s, v);
  }
}
