/**
 * The region of the complex plane a renderer draws, and the map from pixels to points of it.
 * All four renderers derive it the same way: a box symmetric about 0 whose half-width is `x_max`
 * and whose half-height follows from the aspect ratio, then scaled by `1/zoom_level` and moved to
 * `center_point`.
 */
module Plane {
  import opened ComplexArith

  datatype Viewport = Viewport(xMin: real, xMax: real, yMin: real, yMax: real)

  /** The renderers' defaults: `x_max=2.3`, `aspect_ratio = 16/9`, `image_size = (1920, 1080)`. */
  const DefaultXMax: real := 2.3
  const DefaultAspectRatio: real := 16.0 / 9.0

  lemma DivAtMost(x: real, d: real)
    requires 0.0 <= x && 1.0 < d
    ensures 0.0 <= x / d <= x
  {
    assert x / d * d == x;
    if x / d > x {
      MulLess(x, x / d, d);
      MulAtMost(1.0, d, x);
    }
  }

  lemma DivPositive(x: real, d: real)
    requires 0.0 < x && 0.0 < d
    ensures 0.0 < x / d
  {
    if x / d <= 0.0 {
      MulAtMost(x / d, 0.0, d);
    }
  }

  /**
   * The half-height of the box before zooming: `x_max / aspect_ratio` for a wide image and
   * `x_max * aspect_ratio` otherwise. It never exceeds the half-width.
   */
  function HalfHeight(xMax: real, aspectRatio: real): (h: real)
    ensures 0.0 <= xMax ==> h <= xMax
    ensures 0.0 < xMax && 0.0 < aspectRatio ==> 0.0 < h
    ensures aspectRatio == 1.0 ==> h == xMax
  {
    if aspectRatio > 1.0 then
      if 0.0 <= xMax then DivAtMost(xMax, aspectRatio); xMax / aspectRatio
      else xMax / aspectRatio
    else
      if 0.0 <= xMax && 0.0 <= aspectRatio then MulAtMost(aspectRatio, 1.0, xMax); xMax * aspectRatio
      else if 0.0 <= xMax then MulAtMost(aspectRatio, 0.0, xMax); xMax * aspectRatio
      else xMax * aspectRatio
  }

  lemma NegDiv(x: real, d: real)
    requires d != 0.0
    ensures (-x) * 1.0 / d == -(x * 1.0 / d)
    ensures x * 1.0 / d - (-x) * 1.0 / d == 2.0 * x / d
  {
  }

  /**
   * The viewport for `x_max`, `aspect_ratio`, `zoom_level` and `center_point`: every bound of the
   * symmetric box becomes `center + bound * 1/zoom_level`. The result is centred on the centre
   * point and is `2 * x_max / zoom_level` wide.
   */
  function ViewportOf(xMax: real, aspectRatio: real, zoom: real, center: (real, real)): (vp: Viewport)
    requires zoom != 0.0
    ensures (vp.xMin + vp.xMax) / 2.0 == center.0
    ensures (vp.yMin + vp.yMax) / 2.0 == center.1
    ensures vp.xMax - vp.xMin == 2.0 * xMax / zoom
    ensures vp.yMax - vp.yMin == 2.0 * HalfHeight(xMax, aspectRatio) / zoom
  {
    var yMax := HalfHeight(xMax, aspectRatio);
    var xMin := -xMax;
    var yMin := -yMax;
    NegDiv(xMax, zoom);
    NegDiv(yMax, zoom);
    Viewport(center.0 + xMin * 1.0 / zoom, center.0 + xMax * 1.0 / zoom,
             center.1 + yMin * 1.0 / zoom, center.1 + yMax * 1.0 / zoom)
  }

  /** With a positive half-width, aspect ratio and zoom the bounds are ordered. */
  lemma ViewportOrdered(xMax: real, aspectRatio: real, zoom: real, center: (real, real))
    requires 0.0 < xMax && 0.0 < aspectRatio && 0.0 < zoom
    ensures ViewportOf(xMax, aspectRatio, zoom, center).xMin < ViewportOf(xMax, aspectRatio, zoom, center).xMax
    ensures ViewportOf(xMax, aspectRatio, zoom, center).yMin < ViewportOf(xMax, aspectRatio, zoom, center).yMax
  {
    DivPositive(2.0 * xMax, zoom);
    DivPositive(2.0 * HalfHeight(xMax, aspectRatio), zoom);
  }

  /** Doubling the zoom with the same centre halves the width and the height. */
  lemma ZoomDoublingHalves(xMax: real, aspectRatio: real, zoom: real, center: (real, real))
    requires zoom != 0.0
    ensures var v1, v2 := ViewportOf(xMax, aspectRatio, zoom, center), ViewportOf(xMax, aspectRatio, 2.0 * zoom, center);
      && 2.0 * (v2.xMax - v2.xMin) == v1.xMax - v1.xMin
      && 2.0 * (v2.yMax - v2.yMin) == v1.yMax - v1.yMin
      && (v2.xMin + v2.xMax) / 2.0 == (v1.xMin + v1.xMax) / 2.0
      && (v2.yMin + v2.yMax) / 2.0 == (v1.yMin + v1.yMax) / 2.0
  {
    HalveOverDouble(2.0 * xMax, zoom);
    HalveOverDouble(2.0 * HalfHeight(xMax, aspectRatio), zoom);
  }

  lemma HalveOverDouble(a: real, z: real)
    requires z != 0.0
    ensures 2.0 * (a / (2.0 * z)) == a / z
  {
    var q := a / (2.0 * z);
    assert q * (2.0 * z) == a;
    assert (2.0 * q) * z == a;
  }

  /** With the defaults the plane shown is [-2.3, 2.3] x [-1.29375, 1.29375]. */
  lemma DefaultViewport()
    ensures ViewportOf(DefaultXMax, DefaultAspectRatio, 1.0, (0.0, 0.0)) == Viewport(-2.3, 2.3, -1.29375, 1.29375)
  {
    assert HalfHeight(DefaultXMax, DefaultAspectRatio) == 1.29375;
  }

  /** `x_size` and `y_size`: the plane distance between neighbouring pixels. */
  function XStep(vp: Viewport, width: nat): real
    requires 0 < width
  {
    (vp.xMax - vp.xMin) / width as real
  }

  function YStep(vp: Viewport, height: nat): real
    requires 0 < height
  {
    (vp.yMax - vp.yMin) / height as real
  }

  /** The plane point of pixel (x, y): `complex(x_min + x * x_size, y_min + y * y_size)`. */
  function PixelPoint(vp: Viewport, width: nat, height: nat, x: int, y: int): Complex
    requires 0 < width && 0 < height
  {
    Complex(vp.xMin + x as real * XStep(vp, width), vp.yMin + y as real * YStep(vp, height))
  }

  /** The map is affine: one column right adds `x_size` to the real part, one row down adds `y_size`. */
  lemma PixelPointStep(vp: Viewport, width: nat, height: nat, x: int, y: int)
    requires 0 < width && 0 < height
    ensures PixelPoint(vp, width, height, x + 1, y).re == PixelPoint(vp, width, height, x, y).re + XStep(vp, width)
    ensures PixelPoint(vp, width, height, x + 1, y).im == PixelPoint(vp, width, height, x, y).im
    ensures PixelPoint(vp, width, height, x, y + 1).im == PixelPoint(vp, width, height, x, y).im + YStep(vp, height)
    ensures PixelPoint(vp, width, height, x, y + 1).re == PixelPoint(vp, width, height, x, y).re
  {
    assert (x + 1) as real * XStep(vp, width) == x as real * XStep(vp, width) + XStep(vp, width);
    assert (y + 1) as real * YStep(vp, height) == y as real * YStep(vp, height) + YStep(vp, height);
  }

  /** `k` of the `n` equal steps of a span `len` cover at least 0 and less than `len`. */
  lemma StepsWithinSpan(len: real, n: nat, k: int)
    requires 0.0 < len && 0 <= k < n
    ensures 0.0 <= k as real * (len / n as real) < len
  {
    var step := len / n as real;
    DivPositive(len, n as real);
    MulAtMost(0.0, k as real, step);
    MulLess(k as real, n as real, step);
    assert n as real * step == len;
  }

  /** Every pixel of the image maps into the viewport, the last column one step short of `x_max`. */
  lemma PixelPointInViewport(vp: Viewport, width: nat, height: nat, x: int, y: int)
    requires 0 < width && 0 < height
    requires vp.xMin < vp.xMax && vp.yMin < vp.yMax
    requires 0 <= x < width && 0 <= y < height
    ensures vp.xMin <= PixelPoint(vp, width, height, x, y).re < vp.xMax
    ensures vp.yMin <= PixelPoint(vp, width, height, x, y).im < vp.yMax
  {
    StepsWithinSpan(vp.xMax - vp.xMin, width, x);
    StepsWithinSpan(vp.yMax - vp.yMin, height, y);
  }

  /** The first pixel is the corner (x_min, y_min); the last is one step inside (x_max, y_max). */
  lemma PixelPointCorners(vp: Viewport, width: nat, height: nat)
    requires 0 < width && 0 < height
    ensures PixelPoint(vp, width, height, 0, 0) == Complex(vp.xMin, vp.yMin)
    ensures PixelPoint(vp, width, height, width - 1, height - 1)
         == Complex(vp.xMax - XStep(vp, width), vp.yMax - YStep(vp, height))
  {
    var sx, sy := XStep(vp, width), YStep(vp, height);
    assert width as real * sx == vp.xMax - vp.xMin;
    assert height as real * sy == vp.yMax - vp.yMin;
    assert (width - 1) as real * sx == width as real * sx - sx;
    assert (height - 1) as real * sy == height as real * sy - sy;
  }
}
