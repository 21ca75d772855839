/**
 * What the three renderers share: their settings, the bounds computation they each spell out with
 * reassigned variables, and the plane point of a pixel.
 */
module Render {
  import opened Wrappers
  import opened ComplexArith
  import opened Plane

  /**
   * The keyword arguments common to `generate_julia`, `generate_mandelbrot_zoom` and `generate_fractal`.
   * `job` is the already formatted `str(job)`; `image_size` is (`width`, `height`).
   */
  datatype Settings = Settings(
    zoom: real,
    center: (real, real),
    maxIter: int,
    job: Option<string>,
    directory: Option<string>,
    width: nat,
    height: nat,
    imageSave: bool,
    xMax: real,
    aspectRatio: real)

  /** The defaults of the keyword arguments: 1920 x 1080, zoom 1 about the origin, 250 iterations. */
  const DefaultSettings := Settings(1.0, (0.0, 0.0), 250, None, None, 1920, 1080, true, DefaultXMax, DefaultAspectRatio)

  /** The renderers divide by `zoom_level`, by the width and by the height: all must be non-zero. */
  predicate Renderable(s: Settings) {
    0 < s.width && 0 < s.height && s.zoom != 0.0
  }

  function ViewportFor(s: Settings): Viewport
    requires Renderable(s)
  {
    ViewportOf(s.xMax, s.aspectRatio, s.zoom, s.center)
  }

  /** `complex(x_min + x * x_size, y_min + y * y_size)` for the settings' viewport and image size. */
  function PlanePoint(s: Settings, x: int, y: int): Complex
    requires Renderable(s)
  {
    PixelPoint(ViewportFor(s), s.width, s.height, x, y)
  }

  /**
   * The bounds as each renderer computes them: the half-height from the aspect ratio, the negated
   * minima, then each bound moved to `center_point + bound * 1/zoom_level`, overwriting the variables.
   */
  method ComputeBounds(xMax0: real, aspectRatio: real, zoom: real, center: (real, real)) returns (vp: Viewport)
    requires zoom != 0.0
    ensures vp == ViewportOf(xMax0, aspectRatio, zoom, center)
  {
    var xMax := xMax0;
    var yMax: real;
    if aspectRatio > 1.0 {
      yMax := xMax / aspectRatio;
    } else {
      yMax := xMax * aspectRatio;
    }
    var xMin := -xMax;
    var yMin := -yMax;
    assert yMax == HalfHeight(xMax0, aspectRatio);
    xMax := center.0 + xMax * 1.0 / zoom;
    yMax := center.1 + yMax * 1.0 / zoom;
    xMin := center.0 + xMin * 1.0 / zoom;
    yMin := center.1 + yMin * 1.0 / zoom;
    vp := Viewport(xMin, xMax, yMin, yMax);
  }

  /** Half of an even number of equal steps spans half the length. */
  lemma HalfOfSteps(len: real, n: nat)
    requires 0 < n && n % 2 == 0
    ensures (n / 2) as real * (len / n as real) == len / 2.0
  {
    var h := n / 2;
    assert n as real == 2.0 * h as real;
    assert h as real * (len / (2.0 * h as real)) == len / 2.0;
  }

  /** For an even width and height the middle pixel (width/2, height/2) is exactly the centre point. */
  lemma MiddlePixelIsCentre(s: Settings)
    requires Renderable(s) && s.width % 2 == 0 && s.height % 2 == 0
    ensures PlanePoint(s, s.width / 2, s.height / 2) == Complex(s.center.0, s.center.1)
  {
    var vp := ViewportFor(s);
    HalfOfSteps(vp.xMax - vp.xMin, s.width);
    HalfOfSteps(vp.yMax - vp.yMin, s.height);
  }
}
