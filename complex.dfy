/**
 * The `Complex` class of Soundboard/AudioProcessor.cs: a real and an imaginary
 * part with a cached squared magnitude that every constructor and setter
 * recomputes. Doubles are modelled as reals.
 */
module Spectral {
  class Complex {
    var realPart: real
    var imaginary: real
    /** The cache: the squared magnitude, not the magnitude its name suggests. */
    var magnitude: real

    ghost predicate Valid()
      reads this
    {
      magnitude == realPart * realPart + imaginary * imaginary
    }

    constructor Zero()
      ensures Valid()
      ensures realPart == 0.0 && imaginary == 0.0 && magnitude == 0.0
    {
      realPart := 0.0;
      imaginary := 0.0;
      magnitude := 0.0;
    }

    constructor (r: real, i: real)
      ensures Valid()
      ensures realPart == r && imaginary == i
    {
      realPart := r;
      imaginary := i;
      magnitude := r * r + i * i;
    }

    method Set(r: real, i: real)
      modifies this
      ensures Valid()
      ensures realPart == r && imaginary == i
    {
      realPart := r;
      imaginary := i;
      magnitude := realPart * realPart + imaginary * imaginary;
    }

    method SetRealPart(r: real)
      modifies this
      ensures Valid()
      ensures realPart == r && imaginary == old(imaginary)
    {
      realPart := r;
      magnitude := realPart * realPart + imaginary * imaginary;
    }

    /** Named as in the source. */
    method SetImagninaryPart(i: real)
      modifies this
      ensures Valid()
      ensures imaginary == i && realPart == old(realPart)
    {
      imaginary := i;
      magnitude := realPart * realPart + imaginary * imaginary;
    }

    method GetRealPart() returns (r: real)
      ensures r == realPart
    {
      r := realPart;
    }

    method GetImaginaryPart() returns (i: real)
      ensures i == imaginary
    {
      i := imaginary;
    }

    /** The cached value; on a valid object it is the squared modulus, never negative. */
    method SquaredMagnitude() returns (m: real)
      requires Valid()
      ensures m == realPart * realPart + imaginary * imaginary
      ensures m >= 0.0
    {
      m := magnitude;
    }
  }
}
