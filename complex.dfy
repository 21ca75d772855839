/** The optional value of the renderers: a job number, a directory, a step that may fail. */
module Wrappers {
  datatype Option<+T> = None | Some(value: T)
}

/** Complex numbers over exact reals, used the way the renderers use Python's `complex`. */
module ComplexArith {

  datatype Complex = Complex(re: real, im: real)

  const Zero := Complex(0.0, 0.0)
  const One := Complex(1.0, 0.0)

  function Add(z: Complex, w: Complex): Complex {
    Complex(z.re + w.re, z.im + w.im)
  }

  function Mul(z: Complex, w: Complex): Complex {
    Complex(z.re * w.re - z.im * w.im, z.re * w.im + z.im * w.re)
  }

  /** `z**2`: Python raises a complex to a small integer power by repeated multiplication. */
  function Square(z: Complex): Complex {
    Mul(z, z)
  }

  /** The squared modulus re^2 + im^2; `abs(z) > r` is decided exactly as `NormSq(z) > r * r`. */
  function NormSq(z: Complex): real {
    z.re * z.re + z.im * z.im
  }

  /** Multiplying both sides of an inequality by a positive real keeps it strict. */
  lemma MulLess(a: real, b: real, c: real)
    requires a < b && 0.0 < c
    ensures a * c < b * c
  {
  }

  lemma MulAtMost(a: real, b: real, c: real)
    requires a <= b && 0.0 <= c
    ensures a * c <= b * c
  {
  }

  /** Squaring is strictly monotone on the non-negative reals. */
  lemma SquareLess(r: real, a: real)
    requires 0.0 <= r < a
    ensures r * r < a * a
  {
    calc {
      r * r;
    <= { MulAtMost(r, a, r); }
      a * r;
    ==
      r * a;
    < { MulLess(r, a, a); }
      a * a;
    }
  }

  lemma SquareAtMost(a: real, r: real)
    requires 0.0 <= a <= r
    ensures a * a <= r * r
  {
    calc {
      a * a;
    <= { MulAtMost(a, r, a); }
      r * a;
    ==
      a * r;
    <= { MulAtMost(a, r, r); }
      r * r;
    }
  }

  lemma SquarePositive(x: real)
    ensures 0.0 <= x * x
    ensures x != 0.0 ==> 0.0 < x * x
  {
    if x < 0.0 {
      assert x * x == (-x) * (-x);
      SquareLess(0.0, -x);
    } else if 0.0 < x {
      SquareLess(0.0, x);
    }
  }

  lemma NormSqZero(z: Complex)
    ensures 0.0 <= NormSq(z)
    ensures z == Zero ==> NormSq(z) == 0.0
    ensures z != Zero ==> 0.0 < NormSq(z)
  {
    SquarePositive(z.re);
    SquarePositive(z.im);
    if z.re != 0.0 {
      calc { 0.0; < z.re * z.re; <= NormSq(z); }
    } else if z.im != 0.0 {
      calc { 0.0; < z.im * z.im; <= NormSq(z); }
    }
  }

  lemma MulDiv(x: real, y: real, d: real)
    requires 0.0 < d
    ensures x * (y / d) == (x * y) / d
  {
  }

  /** The two components of z * (conj(z) / |z|^2). */
  lemma RecipParts(a: real, b: real, d: real)
    requires 0.0 < d && d == a * a + b * b
    ensures a * (a / d) - b * (-b / d) == 1.0
    ensures a * (-b / d) + b * (a / d) == 0.0
  {
    MulDiv(a, a, d);
    MulDiv(b, -b, d);
    MulDiv(a, -b, d);
    MulDiv(b, a, d);
    calc {
      a * (a / d) - b * (-b / d);
      (a * a) / d - (b * -b) / d;
      (a * a + b * b) / d;
      1.0;
    }
    calc {
      a * (-b / d) + b * (a / d);
      (a * -b) / d + (b * a) / d;
      (a * -b + b * a) / d;
      0.0;
    }
  }

  /** `1/z`. Python raises ZeroDivisionError for `z == 0`, so the caller must rule that out. */
  function Recip(z: Complex): Complex
    requires z != Zero
  {
    NormSqZero(z);
    Complex(z.re / NormSq(z), -z.im / NormSq(z))
  }

  /** `Recip` is the multiplicative inverse. */
  lemma RecipInverse(z: Complex)
    requires z != Zero
    ensures Mul(z, Recip(z)) == One && Mul(Recip(z), z) == One
  {
    NormSqZero(z);
    RecipParts(z.re, z.im, NormSq(z));
  }
}
