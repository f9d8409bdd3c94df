/**
 * Bytes and 32-bit words: the raw material of device buffers.
 * A byte string is read little-endian (byte 0 least significant), as the
 * x86 pointer copies in both audio engines do.
 */
module Bytes {
  import opened Arithmetic

  type Byte = x: int | 0 <= x < 256

  /** A C# `int`. */
  type Int32 = x: int | -0x8000_0000 <= x < 0x8000_0000

  const WORD: nat := 0x1_0000_0000

  function Pow2(n: nat): (r: int)
    ensures r >= 1
  {
    if n == 0 then 1 else 2 * Pow2(n - 1)
  }

  lemma {:induction false} Pow2Add(a: nat, b: nat)
    ensures Pow2(a + b) == Pow2(a) * Pow2(b)
  {
    if a > 0 {
      Pow2Add(a - 1, b);
      assert Pow2(a + b) == 2 * Pow2(a - 1 + b);
    }
  }

  lemma {:induction false} Pow2Monotone(a: nat, b: nat)
    requires a <= b
    ensures Pow2(a) <= Pow2(b)
    decreases b - a
  {
    if a < b {
      Pow2Monotone(a, b - 1);
    }
  }

  lemma Pow2Byte()
    ensures Pow2(7) == 128 && Pow2(8) == 256
  {
    assert Pow2(1) == 2;
    assert Pow2(2) == 4;
    assert Pow2(3) == 8;
    assert Pow2(4) == 16;
    assert Pow2(5) == 32;
    assert Pow2(6) == 64;
  }

  lemma Pow2Values()
    ensures Pow2(8) == 256 && Pow2(16) == 0x1_0000 && Pow2(24) == 0x100_0000
    ensures Pow2(31) == 0x8000_0000 && Pow2(32) == WORD
  {
    Pow2Byte();
    Pow2Add(8, 8);
    Pow2Add(16, 8);
    Pow2Add(24, 7);
    assert Pow2(32) == 2 * Pow2(31);
  }

  lemma Pow2ThirtyOne()
    ensures Pow2(31) == 0x8000_0000
  {
    Pow2Values();
  }

  function Zeros(n: nat): (z: seq<Byte>)
    ensures |z| == n && forall i | 0 <= i < n :: z[i] == 0
  {
    seq(n, _ => 0)
  }

  /** The number whose little-endian encoding is `bs`. */
  function LittleEndian(bs: seq<Byte>): nat
  {
    if bs == [] then 0 else bs[0] + 256 * LittleEndian(bs[1..])
  }

  lemma {:induction false} LittleEndianBound(bs: seq<Byte>)
    ensures LittleEndian(bs) < Pow2(8 * |bs|)
  {
    if bs != [] {
      LittleEndianBound(bs[1..]);
      Pow2Add(8, 8 * (|bs| - 1));
      Pow2Values();
      assert 8 * |bs| == 8 + 8 * (|bs| - 1);
    }
  }

  /** A four-byte little-endian string is a 32-bit word. */
  lemma WordBound(bs: seq<Byte>)
    requires |bs| == 4
    ensures LittleEndian(bs) < WORD
  {
    LittleEndianBound(bs);
    Pow2Values();
  }

  /** Zero bytes at the high end of a little-endian string do not change its value. */
  lemma {:induction false} LittleEndianHighZeros(bs: seq<Byte>, n: nat)
    ensures LittleEndian(bs + Zeros(n)) == LittleEndian(bs)
  {
    if bs == [] {
      ZerosValue(n);
      assert bs + Zeros(n) == Zeros(n);
    } else {
      assert (bs + Zeros(n))[1..] == bs[1..] + Zeros(n);
      LittleEndianHighZeros(bs[1..], n);
    }
  }

  lemma {:induction false} ZerosValue(n: nat)
    ensures LittleEndian(Zeros(n)) == 0
  {
    if n > 0 {
      assert Zeros(n)[1..] == Zeros(n - 1);
      ZerosValue(n - 1);
    }
  }

  /** Zero bytes at the low end shift a little-endian string up by eight bits each. */
  lemma {:induction false} LittleEndianLowZeros(bs: seq<Byte>, n: nat)
    ensures LittleEndian(Zeros(n) + bs) == LittleEndian(bs) * Pow2(8 * n)
  {
    if n > 0 {
      assert (Zeros(n) + bs)[1..] == Zeros(n - 1) + bs;
      LittleEndianLowZeros(bs, n - 1);
      Pow2Step8(n);
      var a, b := LittleEndian(bs), Pow2(8 * (n - 1));
      assert LittleEndian(Zeros(n) + bs) == 256 * (a * b);
      MulLeft256(a, b);
    } else {
      assert Zeros(n) + bs == bs;
    }
  }

  lemma Pow2Step8(n: nat)
    requires n > 0
    ensures Pow2(8 * n) == 256 * Pow2(8 * (n - 1))
  {
    var m := 8 * (n - 1);
    assert 8 * n == m + 8;
    assert Pow2(m + 8) == 2 * Pow2(m + 7);
    assert Pow2(m + 7) == 2 * Pow2(m + 6);
    assert Pow2(m + 6) == 2 * Pow2(m + 5);
    assert Pow2(m + 5) == 2 * Pow2(m + 4);
    assert Pow2(m + 4) == 2 * Pow2(m + 3);
    assert Pow2(m + 3) == 2 * Pow2(m + 2);
    assert Pow2(m + 2) == 2 * Pow2(m + 1);
    assert Pow2(m + 1) == 2 * Pow2(m);
  }

  lemma MulLeft256(a: int, b: int)
    ensures 256 * (a * b) == a * (256 * b)
  {
  }

  /** The `int` whose two's-complement bit pattern is the 32-bit word `w`. */
  function AsInt32(w: nat): Int32
    requires w < WORD
  {
    if w < 0x8000_0000 then w else w - WORD
  }
}
