/**
 * Samples and channels of the planar engine (Soundboard/AudioProcessor.cs).
 * A `Sample` keeps the 32-bit pattern of its value in a C# `int`; `ToFloat`
 * reads the same 32 bits as an IEEE float, so the bit pattern is all the
 * model needs to follow a sample from the capture buffer to the render buffer.
 */
module Samples {
  import opened Arithmetic
  import opened Bytes
  import opened Wrappers

  datatype SampleError = SampleTooWide

  datatype Sample = Sample(value: Int32) {
    function ToInt(): (d: Int32)
      ensures Sample(d) == this
    {
      value
    }
  }

  /** `new Sample(int)`: the value is kept as given. */
  function FromInt(d: Int32): (s: Sample)
    ensures s.ToInt() == d
  {
    Sample(d)
  }

  /** The copy constructor `new Sample(Sample)`. */
  function Copy(s: Sample): (r: Sample)
    ensures r.ToInt() == s.ToInt()
  {
    Sample(s.value)
  }

  /** A channel: one list of samples, appended to and cleared in place. */
  class Channel {
    var samples: seq<Sample>

    constructor ()
      ensures samples == []
    {
      samples := [];
    }
  }

  /** Bytes the byte constructor copies: `Math.Ceiling(numBits / 8.0)`, none when `numBits <= 0`. */
  function ByteCount(numBits: int): (k: nat)
    ensures numBits <= 32 ==> k <= 4
    ensures numBits <= 0 ==> k == 0
    ensures 0 < numBits ==> 8 * (k - 1) < numBits <= 8 * k
  {
    if numBits <= 0 then 0 else (numBits + 7) / 8
  }

  /** The count of `>> (sizeof(int) * 8 - numBits)`: C# keeps only the low five bits of an `int` shift count. */
  function ShiftCount(numBits: int): (s: nat)
    ensures s < 32
    ensures 0 < numBits <= 32 ==> s == 32 - numBits
  {
    (32 - numBits) % 32
  }

  /** `x >> s` on a C# `int`: the arithmetic shift, which rounds toward negative infinity. */
  function ShiftRight(x: Int32, s: nat): (r: Int32)
    requires s < 32
    ensures -Pow2(31 - s) <= r < Pow2(31 - s)
  {
    ShiftBounds(x, s);
    x / Pow2(s)
  }

  lemma ShiftBounds(x: Int32, s: nat)
    requires s < 32
    ensures -Pow2(31 - s) <= x / Pow2(s) < Pow2(31 - s) <= 0x8000_0000
  {
    Pow2Add(31 - s, s);
    Pow2ThirtyOne();
    DivideWord(x, Pow2(31 - s), Pow2(s));
  }

  /** Dividing a 32-bit value by `b` leaves it within `a` of zero when `a * b` is the sign bit. */
  lemma DivideWord(x: Int32, a: int, b: int)
    requires a > 0 && b > 0 && a * b == 0x8000_0000
    ensures -a <= x / b < a <= 0x8000_0000
  {
    assert (-a) * b == -(a * b);
    DivBounds(x, b, -a, a);
    LeqMul(1, b, a);
  }

  /** The value of the `numBits`-wide two's-complement pattern `v`. */
  function SignExtend(v: nat, numBits: nat): int
    requires 0 < numBits
  {
    if v < Pow2(numBits - 1) then v else v - Pow2(numBits)
  }

  /**
   * `new Sample(byte*, numBits)` as the source writes it: the bytes go into the
   * LOW bytes of the zeroed `int`, which is then shifted right by `32 - numBits`.
   */
  function SampleFromBytesAsWritten(d: seq<Byte>, numBits: int): (r: Result<Sample, SampleError>)
    requires numBits <= 32 ==> ByteCount(numBits) <= |d|
    ensures r.Err? <==> numBits > 32
  {
    if numBits > 32 then Err(SampleTooWide)
    else
      var k := ByteCount(numBits);
      var temp := d[..k] + Zeros(4 - k);
      WordBound(temp);
      Ok(Sample(ShiftRight(AsInt32(LittleEndian(temp)), ShiftCount(numBits))))
  }

  /**
   * `new Sample(byte*, numBits)` as its comment intends: the bytes go into the
   * HIGH bytes of the zeroed `int`, so that the right shift leaves the padding
   * (the sign extension) on the left. Fails when `numBits / 8.0 > sizeof(int)`.
   */
  function SampleFromBytes(d: seq<Byte>, numBits: int): (r: Result<Sample, SampleError>)
    requires numBits <= 32 ==> ByteCount(numBits) <= |d|
    ensures r.Err? <==> numBits > 32
    ensures r.Ok? && 0 < numBits ==> -Pow2(numBits - 1) <= r.value.value < Pow2(numBits - 1)
  {
    if numBits > 32 then Err(SampleTooWide)
    else
      var k := ByteCount(numBits);
      var temp := Zeros(4 - k) + d[..k];
      WordBound(temp);
      Ok(Sample(ShiftRight(AsInt32(LittleEndian(temp)), ShiftCount(numBits))))
  }

  /** At 32 bits both readings are the little-endian word taken as a two's-complement `int`. */
  lemma FullWordSample(d: seq<Byte>)
    requires 4 <= |d|
    ensures LittleEndian(d[..4]) < WORD
    ensures SampleFromBytes(d, 32) == Ok(Sample(AsInt32(LittleEndian(d[..4]))))
    ensures SampleFromBytesAsWritten(d, 32) == SampleFromBytes(d, 32)
  {
    WordBound(d[..4]);
    assert ByteCount(32) == 4 && ShiftCount(32) == 0 && Pow2(0) == 1;
    assert Zeros(0) + d[..4] == d[..4];
    assert d[..4] + Zeros(0) == d[..4];
  }

  /** For whole-byte widths the intended reading is the sign-extended little-endian value. */
  lemma SampleFromBytesSignExtends(d: seq<Byte>, numBits: int)
    requires 0 < numBits <= 32 && numBits % 8 == 0 && numBits / 8 <= |d|
    ensures LittleEndian(d[..numBits / 8]) < Pow2(numBits)
    ensures SampleFromBytes(d, numBits).Ok?
    ensures SampleFromBytes(d, numBits).value.value == SignExtend(LittleEndian(d[..numBits / 8]), numBits)
  {
    var k := numBits / 8;
    assert ByteCount(numBits) == k;
    var v := LittleEndian(d[..k]);
    assert v < Pow2(numBits) by {
      LittleEndianBound(d[..k]);
      assert 8 * k == numBits;
    }
    var w := Zeros(4 - k) + d[..k];
    assert LittleEndian(w) == v * Pow2(32 - numBits) by {
      LittleEndianLowZeros(d[..k], 4 - k);
      assert 8 * (4 - k) == 32 - numBits;
    }
    assert LittleEndian(w) < WORD && SampleFromBytes(d, numBits) == Ok(Sample(ShiftRight(AsInt32(LittleEndian(w)), ShiftCount(numBits)))) by {
      SampleFromBytesUnfold(d, numBits);
    }
    ShiftOfLeftJustified(v, numBits);
  }

  /** Shifting a left-justified `numBits`-wide pattern back down sign-extends it. */
  lemma ShiftOfLeftJustified(v: nat, numBits: int)
    requires 0 < numBits <= 32 && v < Pow2(numBits)
    ensures v * Pow2(32 - numBits) < WORD
    ensures ShiftRight(AsInt32(v * Pow2(32 - numBits)), ShiftCount(numBits)) == SignExtend(v, numBits)
  {
    var s := 32 - numBits;
    Pow2Add(numBits - 1, s);
    Pow2ThirtyOne();
    assert Pow2(numBits) == 2 * Pow2(numBits - 1);
    SignExtendArith(v, Pow2(numBits - 1), Pow2(s));
  }

  lemma SignExtendArith(v: int, half: int, p: int)
    requires p > 0 && half > 0 && half * p == 0x8000_0000 && 0 <= v < 2 * half
    ensures 0 <= v * p < WORD
    ensures AsInt32(v * p) / p == if v < half then v else v - 2 * half
  {
    LessMul(v, 2 * half, p);
    assert (2 * half) * p == WORD;
    if v < half {
      LessMul(v, half, p);
      assert AsInt32(v * p) == v * p;
      DivExact(v, p);
    } else {
      LeqMul(half, v, p);
      assert AsInt32(v * p) == v * p - WORD;
      assert v * p - WORD == (v - 2 * half) * p;
      DivExact(v - 2 * half, p);
    }
  }

  /** As written, widths of one to three bytes read a non-negative value: the sign is lost. */
  lemma AsWrittenDropsSign(d: seq<Byte>, numBits: int)
    requires 0 < numBits <= 24 && ByteCount(numBits) <= |d|
    ensures SampleFromBytesAsWritten(d, numBits).Ok?
    ensures SampleFromBytesAsWritten(d, numBits).value.value >= 0
  {
    var k := ByteCount(numBits);
    var temp := d[..k] + Zeros(4 - k);
    var v := LittleEndian(temp);
    assert v < 0x8000_0000 by {
      LittleEndianHighZeros(d[..k], 4 - k);
      LittleEndianBound(d[..k]);
      Pow2Monotone(8 * k, 31);
      Pow2ThirtyOne();
    }
    assert AsInt32(v) == v;
    DivNonNegative(v, Pow2(ShiftCount(numBits)));
  }

  /** As written, a 16-bit sample always reads as 0: both bytes are shifted out. */
  lemma AsWrittenSixteenBitsIsZero(d: seq<Byte>)
    requires 2 <= |d|
    ensures SampleFromBytesAsWritten(d, 16) == Ok(Sample(0))
  {
    var temp := d[..2] + Zeros(2);
    LittleEndianHighZeros(d[..2], 2);
    LittleEndianBound(d[..2]);
    Pow2Values();
    assert LittleEndian(temp) < 0x1_0000;
    DivBounds(LittleEndian(temp), 0x1_0000, 0, 1);
  }

  /** The 16-bit pattern 0x8000 (the most negative 16-bit value) shows the two readings apart. */
  lemma SixteenBitCounterexample(d: seq<Byte>)
    requires |d| == 2 && d[0] == 0x00 && d[1] == 0x80
    ensures SampleFromBytesAsWritten(d, 16) == Ok(Sample(0))
    ensures SampleFromBytes(d, 16) == Ok(Sample(-0x8000))
  {
    assert SampleFromBytesAsWritten(d, 16) == Ok(Sample(0)) by {
      AsWrittenSixteenBitsIsZero(d);
    }
    IntendedSixteenBitIsNegative(d);
  }

  lemma IntendedSixteenBitIsNegative(d: seq<Byte>)
    requires |d| == 2 && d[0] == 0x00 && d[1] == 0x80
    ensures SampleFromBytes(d, 16) == Ok(Sample(-0x8000))
  {
    assert LittleEndian(d[..2]) == 0x8000 by {
      assert d[..2] == d;
      assert LittleEndian(d[1..][1..]) == 0 by {
        assert |d[1..][1..]| == 0;
      }
    }
    assert SignExtend(0x8000, 16) == -0x8000 by {
      Pow2Values();
      assert Pow2(16) == 2 * Pow2(15);
    }
    assert SampleFromBytes(d, 16) == Ok(Sample(-0x8000)) by {
      SampleFromBytesSignExtends(d, 16);
      assert 16 / 8 == 2;
    }
  }

  /** The intended reading, spelled out for a width the constructor accepts. */
  lemma SampleFromBytesUnfold(d: seq<Byte>, numBits: int)
    requires numBits <= 32 && ByteCount(numBits) <= |d|
    ensures LittleEndian(Zeros(4 - ByteCount(numBits)) + d[..ByteCount(numBits)]) < WORD
    ensures SampleFromBytes(d, numBits) ==
      Ok(Sample(ShiftRight(AsInt32(LittleEndian(Zeros(4 - ByteCount(numBits)) + d[..ByteCount(numBits)])), ShiftCount(numBits))))
  {
    WordBound(Zeros(4 - ByteCount(numBits)) + d[..ByteCount(numBits)]);
  }

  /**
   * The byte constructor's copy loop, writing each of the `ceil(numBits / 8)`
   * bytes into the zeroed four-byte `int` (high bytes first, as intended).
   */
  method NewSample(d: seq<Byte>, numBits: int) returns (r: Result<Sample, SampleError>)
    requires numBits <= 32 ==> ByteCount(numBits) <= |d|
    ensures r == SampleFromBytes(d, numBits)
  {
    if numBits > 32 {
      return Err(SampleTooWide);
    }
    var temp := new Byte[4](_ => 0);
    var k := ByteCount(numBits);
    var i := 0;
    while i < k
      invariant 0 <= i <= k <= 4
      invariant forall j | 0 <= j < 4 - k :: temp[j] == 0
      invariant forall j | 0 <= j < i :: temp[4 - k + j] == d[j]
      invariant forall j | 4 - k + i <= j < 4 :: temp[j] == 0
    {
      temp[4 - k + i] := d[i];
      i := i + 1;
    }
    assert temp[..] == Zeros(4 - k) + d[..k];
    SampleFromBytesUnfold(d, numBits);
    var tempValue := AsInt32(LittleEndian(temp[..]));
    r := Ok(Sample(ShiftRight(tempValue, ShiftCount(numBits))));
  }

  /**
   * The same copy loop as the source writes it: byte `i` goes to byte `i` of
   * the zeroed `int`, filling its low bytes.
   */
  method NewSampleAsWritten(d: seq<Byte>, numBits: int) returns (r: Result<Sample, SampleError>)
    requires numBits <= 32 ==> ByteCount(numBits) <= |d|
    ensures r == SampleFromBytesAsWritten(d, numBits)
  {
    if numBits > 32 {
      return Err(SampleTooWide);
    }
    var temp := new Byte[4](_ => 0);
    var k := ByteCount(numBits);
    var i := 0;
    while i < k
      invariant 0 <= i <= k <= 4
      invariant forall j | 0 <= j < i :: temp[j] == d[j]
      invariant forall j | i <= j < 4 :: temp[j] == 0
    {
      temp[i] := d[i];
      i := i + 1;
    }
    assert temp[..] == d[..k] + Zeros(4 - k);
    WordBound(temp[..]);
    var tempValue := AsInt32(LittleEndian(temp[..]));
    r := Ok(Sample(ShiftRight(tempValue, ShiftCount(numBits))));
  }
}
