/**
 * How an escaping pixel is coloured. Three policies exist: Mandelbrot-style smoothing of the escape
 * iteration, Julia-style hue from the trajectory sum `nsmooth`, and plain white. Both smooth policies
 * go through `hsv2rgb` with saturation 0.79 and value 0.59; a pixel that never escapes stays black.
 */
module Colouring {
  import opened ComplexArith
  import opened Library
  import opened Escape

  datatype Rgb = Rgb(r: int, g: int, b: int)

  /** The colour `Image.new(..., 'black')` starts every pixel with, and the loop's "not yet coloured". */
  const Black := Rgb(0, 0, 0)
  const White := Rgb(255, 255, 255)

  const Saturation: real := 0.79
  const Brightness: real := 0.59

  /** Python's `round` on a float: to the nearest integer, ties to the even one. */
  function RoundHalfEven(x: real): (n: int)
    ensures x - 0.5 <= n as real <= x + 0.5
    ensures n as real - x == 0.5 || x - n as real == 0.5 ==> n % 2 == 0
  {
    var f := x.Floor;
    var d := x - f as real;
    if d < 0.5 then f
    else if d > 0.5 then f + 1
    else if f % 2 == 0 then f
    else f + 1
  }

  /** `hsv2rgb(h, s, v)`: each channel of `colorsys.hsv_to_rgb(h, s, v)` times 255, rounded. */
  function Hsv2Rgb(m: Maths, h: real, s: real, v: real): Rgb {
    var t := m.hsvToRgb(h, s, v);
    Rgb(RoundHalfEven(t.0 * 255.0), RoundHalfEven(t.1 * 255.0), RoundHalfEven(t.2 * 255.0))
  }

  /** One channel stored into the 8-bit RGB image: Pillow clips it to 0..255. */
  function Clip8(n: int): (c: int)
    ensures 0 <= c <= 255
    ensures 0 <= n <= 255 ==> c == n
    ensures n < 0 ==> c == 0
    ensures 255 < n ==> c == 255
  {
    if n <= 0 then 0 else if n < 256 then n else 255
  }

  /** What `pixel[x, y] = (r, g, b)` leaves in the image: every channel clipped to 0..255. */
  function Stored(c: Rgb): (s: Rgb)
    ensures 0 <= s.r <= 255 && 0 <= s.g <= 255 && 0 <= s.b <= 255
    ensures 0 <= c.r <= 255 && 0 <= c.g <= 255 && 0 <= c.b <= 255 ==> s == c
  {
    Rgb(Clip8(c.r), Clip8(c.g), Clip8(c.b))
  }

  /**
   * With value 0.59 one channel is 0.59, and round(0.59 * 255) = 150, so the colour is never black,
   * whatever the hue, and neither is what the image stores. This is what makes the loop stop after
   * the first write.
   */
  lemma ColourAtBrightnessNotBlack(m: Maths, h: real)
    requires ValueIsAChannel(m)
    ensures var c := Hsv2Rgb(m, h, Saturation, Brightness); c.r == 150 || c.g == 150 || c.b == 150
    ensures Stored(Hsv2Rgb(m, h, Saturation, Brightness)) != Black
  {
    var t := m.hsvToRgb(h, Saturation, Brightness);
    assert t.0 == Brightness || t.1 == Brightness || t.2 == Brightness;
    assert Brightness * 255.0 == 150.45;
  }

  /**
   * For a negative hue `colorsys` can return a channel above 1: at hue -0.32 `hsv2rgb` gives a blue
   * channel of 260, and the image keeps 255.
   */
  lemma OvershootIsClipped(m: Maths)
    requires m.hsvToRgb == HsvToRgb
    ensures Hsv2Rgb(m, -0.32, Saturation, Brightness) == Rgb(150, 32, 260)
    ensures Stored(Hsv2Rgb(m, -0.32, Saturation, Brightness)) == Rgb(150, 32, 255)
  {
    assert Truncate(-1.92) == -1;
    assert m.hsvToRgb(-0.32, Saturation, Brightness) == HsvToRgb(-0.32, Saturation, Brightness)
        == (0.59, 0.1239, 1.018812);
    assert RoundHalfEven(0.59 * 255.0) == 150;
    assert RoundHalfEven(0.1239 * 255.0) == 32;
    assert RoundHalfEven(1.018812 * 255.0) == 260;
  }

  datatype Policy = SmoothIteration | TrajectoryHue | PlainWhite

  /** The exotic renderer's choice: `m_style` wins over `j_style`; with neither the pixel is white. */
  function SelectPolicy(mStyle: bool, jStyle: bool): (p: Policy)
    ensures p == SmoothIteration <==> mStyle
    ensures p == TrajectoryHue <==> !mStyle && jStyle
    ensures p == PlainWhite <==> !mStyle && !jStyle
  {
    if mStyle then SmoothIteration
    else if jStyle then TrajectoryHue
    else PlainWhite
  }

  /** The smoothed hue `(l + 1 - log10(log2(abs(z))) / log10(2)) / max_iter`. */
  function SmoothHue(m: Maths, l: int, absZ: real, maxIter: int): real
    requires maxIter != 0
  {
    ((l + 1) as real - m.log10(m.log2(absZ)) / m.log10(2.0)) / maxIter as real
  }

  /** Since `log10(x) / log10(2)` is `log2(x)`, the smoothed hue is `(l + 1 - log2(log2(abs(z)))) / max_iter`. */
  lemma SmoothHueIsLog2(m: Maths, l: int, absZ: real, maxIter: int)
    requires maxIter != 0 && LogsAgree(m) && 0.0 < m.log2(absZ)
    ensures SmoothHue(m, l, absZ, maxIter) == ((l + 1) as real - m.log2(m.log2(absZ))) / maxIter as real
  {
    var x := m.log2(absZ);
    assert m.log10(x) == m.log2(x) * m.log10(2.0);
    assert m.log10(x) / m.log10(2.0) == m.log2(x);
  }

  /** The Julia-style hue `initial_color_hue + color_scale * (nsmooth / max_iter)` after escaping at k. */
  function TrajectoryHueAt(m: Maths, rec: Recurrence, z0: Complex, k: nat, maxIter: int,
                           hue: real, scale: real): real
    requires maxIter != 0
  {
    hue + scale * (TrajectorySum(m, rec, z0, k) / maxIter as real)
  }

  /** The colour the image holds after the pixel escapes at iteration k under `policy`. */
  function EscapeColour(m: Maths, policy: Policy, rec: Recurrence, z0: Complex, k: nat, maxIter: int,
                        hue: real, scale: real): Rgb
    requires k < maxIter
  {
    match policy
    case SmoothIteration =>
      Stored(Hsv2Rgb(m, SmoothHue(m, k, m.abs(Orbit(m.pow, rec, z0, k)), maxIter), Saturation, Brightness))
    case TrajectoryHue =>
      Stored(Hsv2Rgb(m, TrajectoryHueAt(m, rec, z0, k, maxIter, hue, scale), Saturation, Brightness))
    case PlainWhite =>
      White
  }

  /** The colour a pixel with plane point `z0` ends with; black unless the loop escapes. */
  function PixelColour(m: Maths, policy: Policy, rec: Recurrence, z0: Complex, maxIter: int,
                       hue: real, scale: real): Rgb
  {
    match ExitOf(m.pow, rec, z0, maxIter)
    case Escape(k) => EscapeColour(m, policy, rec, z0, k, maxIter, hue, scale)
    case _ => Black
  }

  /** The colour by outcome: the policy's colour at the escaping iteration, else black. */
  lemma PixelColourByExit(m: Maths, policy: Policy, rec: Recurrence, z0: Complex, maxIter: int, hue: real, scale: real)
    ensures ExitOf(m.pow, rec, z0, maxIter).Escape? ==>
      PixelColour(m, policy, rec, z0, maxIter, hue, scale)
      == EscapeColour(m, policy, rec, z0, ExitOf(m.pow, rec, z0, maxIter).index, maxIter, hue, scale)
    ensures !ExitOf(m.pow, rec, z0, maxIter).Escape? ==> PixelColour(m, policy, rec, z0, maxIter, hue, scale) == Black
  {
  }

  /**
   * When a pixel loop stops with the pixel still black, `max_iter` is used up: there was no escape,
   * the pixel's colour is black, and the loop ran `Iterations` times.
   */
  lemma LoopExhausted(m: Maths, policy: Policy, rec: Recurrence, z: Complex, maxIter: int, hue: real, scale: real, l: nat)
    requires l <= maxIter || l == 0
    requires maxIter <= l && ExitOf(m.pow, rec, z, maxIter) == ExitFrom(m.pow, rec, z, maxIter, l)
    ensures ExitOf(m.pow, rec, z, maxIter) == Exhausted
    ensures PixelColour(m, policy, rec, z, maxIter, hue, scale) == Black
    ensures l == Iterations(ExitOf(m.pow, rec, z, maxIter), maxIter)
  {
    ExitFromStep(m.pow, rec, z, maxIter, l);
  }

  /** Every policy writes a colour other than black. */
  lemma EscapeColourNotBlack(m: Maths, policy: Policy, rec: Recurrence, z0: Complex, k: nat, maxIter: int,
                             hue: real, scale: real)
    requires ValueIsAChannel(m) && k < maxIter
    ensures EscapeColour(m, policy, rec, z0, k, maxIter, hue, scale) != Black
  {
    match policy
    case SmoothIteration =>
      ColourAtBrightnessNotBlack(m, SmoothHue(m, k, m.abs(Orbit(m.pow, rec, z0, k)), maxIter));
    case TrajectoryHue =>
      ColourAtBrightnessNotBlack(m, TrajectoryHueAt(m, rec, z0, k, maxIter, hue, scale));
    case PlainWhite =>
  }

  /** A pixel is left black exactly when its loop does not escape. */
  lemma BlackIffNoEscape(m: Maths, policy: Policy, rec: Recurrence, z0: Complex, maxIter: int,
                         hue: real, scale: real)
    requires ValueIsAChannel(m)
    ensures PixelColour(m, policy, rec, z0, maxIter, hue, scale) == Black <==> !ExitOf(m.pow, rec, z0, maxIter).Escape?
  {
    var e := ExitOf(m.pow, rec, z0, maxIter);
    if e.Escape? {
      EscapeColourNotBlack(m, policy, rec, z0, e.index, maxIter, hue, scale);
    }
  }

  /** The colour is the policy's colour at the first iteration that lands outside. */
  lemma ColourAtFirstEscape(m: Maths, policy: Policy, rec: Recurrence, z0: Complex, maxIter: int,
                            hue: real, scale: real, k: nat)
    requires k < maxIter && OutsideAt(m.pow, rec, z0, k)
    requires ContinuesBetween(OutsideTest(m.pow, rec, z0), FailsTest(m.pow, rec, z0), 0, k)
    ensures PixelColour(m, policy, rec, z0, maxIter, hue, scale) == EscapeColour(m, policy, rec, z0, k, maxIter, hue, scale)
  {
    ExitIsFirstEscape(m.pow, rec, z0, maxIter, k);
  }

  /** Smoothing does not read `initial_color_hue` or `color_scale`. */
  lemma SmoothIgnoresHueAndScale(m: Maths, rec: Recurrence, z0: Complex, maxIter: int,
                                 hue: real, scale: real, hue': real, scale': real)
    ensures PixelColour(m, SmoothIteration, rec, z0, maxIter, hue, scale)
         == PixelColour(m, SmoothIteration, rec, z0, maxIter, hue', scale')
  {
  }

  /** White reads nothing but whether the orbit escapes: not the hue, the scale, the logs or `exp`. */
  lemma WhiteReadsOnlyEscape(m: Maths, m': Maths, rec: Recurrence, z0: Complex, maxIter: int,
                             hue: real, scale: real, hue': real, scale': real)
    requires m.pow == m'.pow
    ensures PixelColour(m, PlainWhite, rec, z0, maxIter, hue, scale)
         == PixelColour(m', PlainWhite, rec, z0, maxIter, hue', scale')
  {
  }

  /** The trajectory hue at an escape reads `exp`, `abs` and the orbit only. */
  lemma TrajectoryHueReads(m: Maths, m': Maths, rec: Recurrence, z0: Complex, k: nat, maxIter: int,
                           hue: real, scale: real)
    requires m.exp == m'.exp && m.abs == m'.abs && m.pow == m'.pow && maxIter != 0
    ensures TrajectoryHueAt(m, rec, z0, k, maxIter, hue, scale) == TrajectoryHueAt(m', rec, z0, k, maxIter, hue, scale)
  {
    DecaySumReads(m, m', rec, z0, k + 1);
  }

  /** The trajectory-hue colour reads `exp`, `abs`, colorsys and the orbit, and not `log2` or `log10`. */
  lemma TrajectoryIgnoresLogs(m: Maths, m': Maths, rec: Recurrence, z0: Complex, maxIter: int,
                              hue: real, scale: real)
    requires m.exp == m'.exp && m.abs == m'.abs && m.pow == m'.pow && m.hsvToRgb == m'.hsvToRgb
    ensures PixelColour(m, TrajectoryHue, rec, z0, maxIter, hue, scale)
         == PixelColour(m', TrajectoryHue, rec, z0, maxIter, hue, scale)
  {
    PixelColourByExit(m, TrajectoryHue, rec, z0, maxIter, hue, scale);
    PixelColourByExit(m', TrajectoryHue, rec, z0, maxIter, hue, scale);
    var e := ExitOf(m.pow, rec, z0, maxIter);
    if e.Escape? {
      TrajectoryHueReads(m, m', rec, z0, e.index, maxIter, hue, scale);
      var h := TrajectoryHueAt(m, rec, z0, e.index, maxIter, hue, scale);
      assert m.hsvToRgb(h, Saturation, Brightness) == m'.hsvToRgb(h, Saturation, Brightness);
    }
  }
}
