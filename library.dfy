/**
 * The library routines the renderers call but do not define: `abs` of a complex number, `math.exp`,
 * `math.log2`, `math.log10`, complex `**`, and `colorsys.hsv_to_rgb`. They are passed in as
 * functions; the few facts the model relies on are predicates that callers require. `colorsys` is
 * also written out, and proved to meet the one fact required of it.
 */
module Library {
  import opened ComplexArith

  datatype Routines = Routines(
    abs: Complex -> real,                           // abs(z), the modulus of a complex number
    exp: real -> real,                              // math.exp
    log2: real -> real,                             // math.log2
    log10: real -> real,                            // math.log10
    pow: (Complex, Complex) -> Complex,             // z ** w on complex numbers
    hsvToRgb: (real, real, real) -> (real, real, real))  // colorsys.hsv_to_rgb

  /** The routines as the renderers use them: `math.log10(2)` is a non-zero divisor. */
  type Maths = m: Routines | m.log10(2.0) != 0.0
    witness Routines(z => 0.0, x => 1.0, x => 1.0, x => 1.0, (z, w) => z, HsvToRgb)

  /** `abs(z)` is the non-negative square root of re^2 + im^2. */
  ghost predicate AbsIsModulus(m: Maths) {
    forall z :: 0.0 <= m.abs(z) && m.abs(z) * m.abs(z) == NormSq(z)
  }

  /** `exp(x)` lies in (0, 1] when x <= 0. */
  ghost predicate ExpBounds(m: Maths) {
    forall x :: x <= 0.0 ==> 0.0 < m.exp(x) <= 1.0
  }

  /** Python's `int()` on a float: the integer part, truncated toward zero. */
  function Truncate(x: real): (n: int)
    ensures 0.0 <= x ==> n as real <= x < n as real + 1.0
    ensures x < 0.0 ==> n as real - 1.0 < x <= n as real
  {
    if 0.0 <= x then x.Floor else -((-x).Floor)
  }

  /**
   * `colorsys.hsv_to_rgb(h, s, v)`: grey for `s == 0`; otherwise the sector `int(h*6) % 6` and the
   * fraction `f = h*6 - int(h*6)` pick a permutation of `v`, `p = v(1-s)`, `q = v(1-sf)` and
   * `t = v(1-s(1-f))`. Whatever the hue, `v` itself is one of the three channels. (For a hue below
   * -1/6 the truncation makes `f` negative and `q` exceeds `v`, so `v` need not be the largest.)
   */
  function HsvToRgb(h: real, s: real, v: real): (rgb: (real, real, real))
    ensures rgb.0 == v || rgb.1 == v || rgb.2 == v
  {
    if s == 0.0 then (v, v, v)
    else
      var i := Truncate(h * 6.0);
      var f := h * 6.0 - i as real;
      var p, q, t := v * (1.0 - s), v * (1.0 - s * f), v * (1.0 - s * (1.0 - f));
      match i % 6
      case 0 => (v, t, p)
      case 1 => (q, v, p)
      case 2 => (p, v, t)
      case 3 => (p, q, v)
      case 4 => (t, p, v)
      case _ => (v, p, q)
  }

  /** The HSV model: the value v is one of the three channels, whatever the hue. */
  ghost predicate ValueIsAChannel(m: Maths) {
    forall h, s, v :: var t := m.hsvToRgb(h, s, v); t.0 == v || t.1 == v || t.2 == v
  }

  /** `colorsys.hsv_to_rgb` as written meets `ValueIsAChannel`. */
  lemma ColorsysValueIsAChannel(m: Maths)
    requires m.hsvToRgb == HsvToRgb
    ensures ValueIsAChannel(m)
  {
    forall h, s, v ensures var t := m.hsvToRgb(h, s, v); t.0 == v || t.1 == v || t.2 == v {
      assert m.hsvToRgb(h, s, v) == HsvToRgb(h, s, v);
    }
  }

  /** At hue -1/4 (sector 5, f = -1/2) the channel `q` is above `v`: v is a channel but not the largest. */
  lemma NegativeHueExceedsValue()
    ensures HsvToRgb(-0.25, 0.79, 0.59) == (0.59, 0.1239, 0.82305)
  {
    assert Truncate(-1.5) == -1;
  }

  /** `log10(x) / log10(2)` is `log2(x)` for positive x. */
  ghost predicate LogsAgree(m: Maths) {
    forall x :: 0.0 < x ==> m.log10(x) == m.log2(x) * m.log10(2.0)
  }

  /** The escape test `abs(z) > r` of the renderers is decided exactly by the squared modulus. */
  lemma EscapeTestExact(m: Maths, z: Complex, r: real)
    requires AbsIsModulus(m) && 0.0 <= r
    ensures m.abs(z) > r <==> NormSq(z) > r * r
  {
    var a := m.abs(z);
    assert 0.0 <= a && a * a == NormSq(z);
    if a > r {
      SquareLess(r, a);
    } else {
      SquareAtMost(a, r);
    }
  }
}
