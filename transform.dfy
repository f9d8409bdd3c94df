/**
 * The zero-padding front end of `DFT` in Soundboard/AudioProcessor.cs: the
 * transform length is the least power of two that holds the channel, and the
 * channel itself (through the alias `localData`) is padded with zero samples
 * up to that length.
 */
module Transform {
  import opened Wrappers
  import opened Bytes
  import opened Samples

  datatype TransformError =
    | PowerOverflow  // `power *= 2` passes int.MaxValue; `new Complex[power]` then throws

  /** The largest power of two an `int` holds. */
  const MAX_POWER: nat := 0x4000_0000

  predicate IsPowerOfTwo(n: int)
    decreases if n < 0 then 0 else n
  {
    n == 1 || (n > 1 && n % 2 == 0 && IsPowerOfTwo(n / 2))
  }

  lemma {:induction false} Pow2IsPowerOfTwo(e: nat)
    ensures IsPowerOfTwo(Pow2(e))
  {
    if e > 0 {
      Pow2IsPowerOfTwo(e - 1);
      assert Pow2(e) == 2 * Pow2(e - 1);
      assert Pow2(e) / 2 == Pow2(e - 1);
    }
  }

  /** The least power of two that is at least `n` (and at least 1). */
  function NextPowerOfTwo(n: nat): (p: nat)
    ensures IsPowerOfTwo(p) && n <= p
    ensures p == 1 || p / 2 < n
  {
    if n <= 1 then 1
    else
      var h := NextPowerOfTwo((n + 1) / 2);
      assert (2 * h) / 2 == h;
      2 * h
  }

  /** Between two powers of two there is a factor of two at least. */
  lemma {:induction false} PowerOfTwoBelow(q: int, p: int)
    requires IsPowerOfTwo(q) && IsPowerOfTwo(p) && q < p
    ensures q <= p / 2
    decreases p
  {
    if q > 1 {
      PowerOfTwoBelow(q / 2, p / 2);
    }
  }

  /** `NextPowerOfTwo(n)` is below every power of two that holds `n`. */
  lemma NextPowerOfTwoIsLeast(n: nat, q: int)
    requires IsPowerOfTwo(q) && n <= q
    ensures NextPowerOfTwo(n) <= q
  {
    var p := NextPowerOfTwo(n);
    if q < p {
      PowerOfTwoBelow(q, p);
    }
  }

  /** A power of two at least `n` whose half is below `n` is `NextPowerOfTwo(n)`. */
  lemma LeastPowerOfTwoUnique(n: nat, p: int)
    requires IsPowerOfTwo(p) && n <= p && (p == 1 || p / 2 < n)
    ensures p == NextPowerOfTwo(n)
  {
    NextPowerOfTwoIsLeast(n, p);
    var m := NextPowerOfTwo(n);
    if m < p {
      PowerOfTwoBelow(m, p);
    }
  }

  /** `s` followed by copies of `zero`, up to `n` elements in all. */
  function ZeroPadded<T>(s: seq<T>, zero: T, n: nat): (r: seq<T>)
    requires |s| <= n
    ensures |r| == n && r[..|s|] == s
    ensures forall i | |s| <= i < n :: r[i] == zero
  {
    s + seq(n - |s|, _ => zero)
  }

  /** Padding to the current length changes nothing. */
  lemma ZeroPaddedToLengthIsIdentity<T>(s: seq<T>, zero: T)
    ensures ZeroPadded(s, zero, |s|) == s
  {
  }

  /**
   * The channel `DFT` leaves behind: padded with zeros to the least power of
   * two that holds it, or the throw once that power no longer fits an `int`.
   */
  function DftPadded<T>(s: seq<T>, zero: T): (r: Result<seq<T>, TransformError>)
    ensures r.Err? <==> MAX_POWER < |s|
    ensures r.Ok? ==> IsPowerOfTwo(|r.value|) && |s| <= |r.value| && r.value[..|s|] == s
    ensures r.Ok? ==> forall i | |s| <= i < |r.value| :: r.value[i] == zero
  {
    if MAX_POWER < |s| then Err(PowerOverflow)
    else Ok(ZeroPadded(s, zero, NextPowerOfTwo(|s|)))
  }

  /**
   * The padding part of `DFT`: returns the length of the spectrum array it
   * allocates. The channel passed in is the caller's own channel, so the
   * caller sees it padded.
   */
  method Dft(data: Channel, samplingFreq: int) returns (r: Result<nat, TransformError>)
    requires |data.samples| < 0x8000_0000  // List<T>.Count is an int
    modifies data
    ensures |old(data.samples)| <= MAX_POWER ==>
      r == Ok(NextPowerOfTwo(|old(data.samples)|)) &&
      data.samples == ZeroPadded(old(data.samples), Sample(0), r.value)
    ensures MAX_POWER < |old(data.samples)| ==> r == Err(PowerOverflow) && data.samples == old(data.samples)
    ensures r.Ok? <==> DftPadded(old(data.samples), Sample(0)).Ok?
    ensures r.Ok? ==> data.samples == DftPadded(old(data.samples), Sample(0)).value && r.value == |data.samples|
  {
    var localData := data;
    var power: int := 1;
    ghost var e: nat := 0;
    Pow2Values();
    while |localData.samples| > power
      invariant power == Pow2(e) && e <= 30
      invariant localData.samples == old(data.samples)
      invariant power == 1 || power / 2 < |localData.samples|
    {
      if power == MAX_POWER {
        // Doubling wraps to int.MinValue, the loop ends on a negative power and
        // the array allocation that follows throws.
        return Err(PowerOverflow);
      }
      power := power * 2;
      e := e + 1;
    }
    Pow2IsPowerOfTwo(e);
    LeastPowerOfTwoUnique(|localData.samples|, power);
    Pow2Monotone(e, 30);
    ghost var original := localData.samples;
    while |localData.samples| < power
      invariant |original| <= |localData.samples| <= power
      invariant localData.samples == ZeroPadded(original, Sample(0), |localData.samples|)
    {
      localData.samples := localData.samples + [Sample(0)];
    }
    return Ok(power);
  }

  /** Padding to the next power of two leaves a power-of-two length unchanged. */
  lemma PaddingKeepsPowerOfTwoLength<T>(s: seq<T>, zero: T)
    requires IsPowerOfTwo(|s|)
    ensures ZeroPadded(s, zero, NextPowerOfTwo(|s|)) == s
  {
    LeastPowerOfTwoUnique(|s|, |s|);
  }

  /** Any other length grows strictly. */
  lemma PaddingGrowsOtherLengths(n: nat)
    requires !IsPowerOfTwo(n)
    ensures n < NextPowerOfTwo(n)
  {
  }
}
