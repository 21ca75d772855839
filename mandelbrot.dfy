/**
 * `generate_mandelbrot_zoom` in mandelbrot.py: every pixel's plane point z is iterated under
 * z_curr*z_curr + z, so the added term is the pixel's own point; an escaping pixel (`abs > 2`) is
 * coloured by the smoothed escape iteration. `initial_color_hue` and `color_scale` only reach the
 * file name.
 */
module Mandelbrot {
  import opened Wrappers
  import opened ComplexArith
  import opened Library
  import opened Plane
  import opened Escape
  import opened Colouring
  import opened Render
  import opened Naming

  /** The colour pixel (x, y) ends with; it does not depend on the hue or the scale. */
  function MandelbrotColour(m: Maths, s: Settings, x: int, y: int): Rgb
    requires Renderable(s)
  {
    PixelColour(m, SmoothIteration, MandelbrotMap, PlanePoint(s, x, y), s.maxIter, 0.0, 0.0)
  }

  /** The facts the loop needs at an iteration `l` where `abs(z_l) > 2`: it is the escape, and its colour. */
  lemma EscapingIteration(m: Maths, z: Complex, maxIter: int, l: nat)
    requires ValueIsAChannel(m)
    requires l < maxIter && OutsideAt(m.pow, MandelbrotMap, z, l)
    requires ExitOf(m.pow, MandelbrotMap, z, maxIter) == ExitFrom(m.pow, MandelbrotMap, z, maxIter, l)
    ensures ExitOf(m.pow, MandelbrotMap, z, maxIter) == Escape(l)
    ensures Stored(Hsv2Rgb(m, ((l + 1) as real - m.log10(m.log2(m.abs(Orbit(m.pow, MandelbrotMap, z, l)))) / m.log10(2.0)) / maxIter as real,
                    Saturation, Brightness))
         == EscapeColour(m, SmoothIteration, MandelbrotMap, z, l, maxIter, 0.0, 0.0)
    ensures EscapeColour(m, SmoothIteration, MandelbrotMap, z, l, maxIter, 0.0, 0.0) != Black
  {
    ExitFromStep(m.pow, MandelbrotMap, z, maxIter, l);
    EscapeColourNotBlack(m, SmoothIteration, MandelbrotMap, z, l, maxIter, 0.0, 0.0);
  }

  /**
   * One pass of the inner `while` body at iteration `l`, where `z_curr` is z_l: when
   * `abs(z_curr) > 2` compute the smoothed hue `nsmooth` and colour the pixel, then step to
   * z_curr*z_curr + z. `wrote` records the write. Only pixel (x, y) may change.
   */
  method Iteration(m: Maths, img: array2<Rgb>, x: nat, y: nat, z: Complex, maxIter: int, l: nat, zCurr: Complex)
      returns (zNext: Complex, ghost wrote: bool)
    requires AbsIsModulus(m) && ValueIsAChannel(m)
    requires x < img.Length0 && y < img.Length1 && img[x, y] == Black
    requires l < maxIter && zCurr == Orbit(m.pow, MandelbrotMap, z, l)
    requires ExitOf(m.pow, MandelbrotMap, z, maxIter) == ExitFrom(m.pow, MandelbrotMap, z, maxIter, l)
    modifies img
    ensures zNext == Orbit(m.pow, MandelbrotMap, z, l + 1)
    ensures wrote <==> img[x, y] != Black
    ensures img[x, y] == Black ==>
      ExitOf(m.pow, MandelbrotMap, z, maxIter) == ExitFrom(m.pow, MandelbrotMap, z, maxIter, l + 1)
    ensures img[x, y] != Black ==>
      ExitOf(m.pow, MandelbrotMap, z, maxIter) == Escape(l)
      && img[x, y] == PixelColour(m, SmoothIteration, MandelbrotMap, z, maxIter, 0.0, 0.0)
    ensures forall i, j :: 0 <= i < img.Length0 && 0 <= j < img.Length1 && (i != x || j != y) ==>
      img[i, j] == old(img[i, j])
  {
    EscapeTestIsOutside(m, MandelbrotMap, zCurr);
    wrote := false;
    if m.abs(zCurr) > 2.0 {
      EscapingIteration(m, z, maxIter, l);
      var nsmooth := ((l + 1) as real - m.log10(m.log2(m.abs(zCurr))) / m.log10(2.0)) / maxIter as real;
      img[x, y] := Stored(Hsv2Rgb(m, nsmooth, Saturation, Brightness));
      wrote := true;
      PixelColourByExit(m, SmoothIteration, MandelbrotMap, z, maxIter, 0.0, 0.0);
    } else {
      InsideIteration(m.pow, MandelbrotMap, z, maxIter, l);
    }
    OrbitStep(m.pow, MandelbrotMap, z, l);
    zNext := Add(Square(zCurr), z);
  }

  /**
   * The inner `while` loop for one pixel with plane point `z`: it runs while the pixel is black and
   * `l < max_iter`. It ends with the pixel's colour, writes at most once, runs `Iterations` times
   * (so at most `max_iter`), and touches no other pixel.
   */
  method IteratePixel(m: Maths, img: array2<Rgb>, x: nat, y: nat, z: Complex, maxIter: int)
      returns (ghost writes: nat, ghost iterations: nat)
    requires AbsIsModulus(m) && ValueIsAChannel(m)
    requires x < img.Length0 && y < img.Length1 && img[x, y] == Black
    modifies img
    ensures img[x, y] == PixelColour(m, SmoothIteration, MandelbrotMap, z, maxIter, 0.0, 0.0)
    ensures writes <= 1 && (writes == 1 <==> img[x, y] != Black)
    ensures iterations == Iterations(ExitOf(m.pow, MandelbrotMap, z, maxIter), maxIter)
    ensures forall i, j :: 0 <= i < img.Length0 && 0 <= j < img.Length1 && (i != x || j != y) ==>
      img[i, j] == old(img[i, j])
  {
    var l := 0;
    var zCurr := z;
    writes := 0;
    while img[x, y] == Black && l < maxIter
      invariant 0 <= l && (l <= maxIter || l == 0)
      invariant zCurr == Orbit(m.pow, MandelbrotMap, z, l)
      invariant img[x, y] == Black ==>
        writes == 0 && ExitOf(m.pow, MandelbrotMap, z, maxIter) == ExitFrom(m.pow, MandelbrotMap, z, maxIter, l)
      invariant img[x, y] != Black ==>
        writes == 1 && 0 < l && ExitOf(m.pow, MandelbrotMap, z, maxIter) == Escape(l - 1)
        && img[x, y] == PixelColour(m, SmoothIteration, MandelbrotMap, z, maxIter, 0.0, 0.0)
      invariant forall i, j :: 0 <= i < img.Length0 && 0 <= j < img.Length1 && (i != x || j != y) ==>
        img[i, j] == old(img[i, j])
      decreases maxIter - l
    {
      ghost var wrote;
      zCurr, wrote := Iteration(m, img, x, y, z, maxIter, l, zCurr);
      writes := writes + if wrote then 1 else 0;
      l := l + 1;
    }
    if img[x, y] == Black {
      LoopExhausted(m, SmoothIteration, MandelbrotMap, z, maxIter, 0.0, 0.0, l);
    }
    iterations := l;
  }

  /**
   * `generate_mandelbrot_zoom(initial_color_hue, color_scale, ...)`: a fresh `width` x `height`
   * raster in which every pixel has its Mandelbrot colour, and the path it is saved under when
   * `image_save` is set. The hue and scale enter only through their labels in the name.
   */
  method GenerateMandelbrot(m: Maths, s: Settings, labels: Labels) returns (img: array2<Rgb>, savedAs: Option<string>)
    requires Renderable(s) && AbsIsModulus(m) && ValueIsAChannel(m)
    ensures fresh(img) && img.Length0 == s.width && img.Length1 == s.height
    ensures forall x, y :: 0 <= x < s.width && 0 <= y < s.height ==> img[x, y] == MandelbrotColour(m, s, x, y)
    ensures savedAs == SaveTarget(s.imageSave, s.directory, HueScaleName(s.job, labels))
  {
    var vp := ComputeBounds(s.xMax, s.aspectRatio, s.zoom, s.center);
    img := new Rgb[s.width, s.height]((i, j) => Black);
    var xSize := (vp.xMax - vp.xMin) / s.width as real;
    var ySize := (vp.yMax - vp.yMin) / s.height as real;
    assert vp == ViewportFor(s) && xSize == XStep(vp, s.width) && ySize == YStep(vp, s.height);
    for x := 0 to s.width
      invariant forall i, j :: 0 <= i < x && 0 <= j < s.height ==> img[i, j] == MandelbrotColour(m, s, i, j)
      invariant forall i, j :: x <= i < s.width && 0 <= j < s.height ==> img[i, j] == Black
    {
      for y := 0 to s.height
        invariant forall i, j :: 0 <= i < x && 0 <= j < s.height ==> img[i, j] == MandelbrotColour(m, s, i, j)
        invariant forall j :: 0 <= j < y ==> img[x, j] == MandelbrotColour(m, s, x, j)
        invariant forall i, j :: x <= i < s.width && 0 <= j < s.height && (i != x || y <= j) ==> img[i, j] == Black
      {
        var z := Complex(vp.xMin + x as real * xSize, vp.yMin + y as real * ySize);
        assert z == PlanePoint(s, x, y);
        ghost var writes, iterations := IteratePixel(m, img, x, y, z, s.maxIter);
      }
    }
    var saveName := HueScaleName(s.job, labels);
    if s.imageSave {
      savedAs := Some(SavePath(s.directory, saveName));
    } else {
      savedAs := None;
    }
  }

  /** The Mandelbrot orbit of z0 is the Julia orbit of z0 for c = z0. */
  lemma {:induction false} OrbitIsJuliaOrbit(pow: (Complex, Complex) -> Complex, z0: Complex, k: nat)
    ensures Orbit(pow, MandelbrotMap, z0, k) == Orbit(pow, JuliaMap(z0), z0, k)
  {
    if k > 0 {
      OrbitIsJuliaOrbit(pow, z0, k - 1);
    }
  }

  /** Hence a Mandelbrot pixel escapes exactly when the Julia set for c = z0 lets z0 escape, at the same iteration. */
  lemma ExitIsJuliaExit(pow: (Complex, Complex) -> Complex, z0: Complex, maxIter: int)
    ensures ExitOf(pow, MandelbrotMap, z0, maxIter) == ExitOf(pow, JuliaMap(z0), z0, maxIter)
  {
    var outside, fails := OutsideTest(pow, MandelbrotMap, z0), FailsTest(pow, MandelbrotMap, z0);
    var outside', fails' := OutsideTest(pow, JuliaMap(z0), z0), FailsTest(pow, JuliaMap(z0), z0);
    forall k: nat ensures outside(k) == outside'(k) && fails(k) == fails'(k) {
      OrbitIsJuliaOrbit(pow, z0, k);
    }
    FirstExitAgree(outside, fails, outside', fails', maxIter, 0);
  }

  /** The origin is a fixed point of z*z + z: its orbit stays at 0. */
  lemma {:induction false} OriginFixed(pow: (Complex, Complex) -> Complex, k: nat)
    ensures Orbit(pow, MandelbrotMap, Zero, k) == Zero
  {
    if k > 0 {
      OriginFixed(pow, k - 1);
    }
  }

  lemma OriginStaysInside(pow: (Complex, Complex) -> Complex, k: nat)
    ensures !OutsideAt(pow, MandelbrotMap, Zero, k) && !FailsAt(pow, MandelbrotMap, Zero, k)
  {
    OriginFixed(pow, k);
    ZeroInside(MandelbrotMap, Orbit(pow, MandelbrotMap, Zero, k));
  }

  /** So the origin never escapes. */
  lemma OriginNeverEscapes(pow: (Complex, Complex) -> Complex, maxIter: int)
    ensures ExitOf(pow, MandelbrotMap, Zero, maxIter) == Exhausted
  {
    var outside, fails := OutsideTest(pow, MandelbrotMap, Zero), FailsTest(pow, MandelbrotMap, Zero);
    forall k: nat ensures !outside(k) && !fails(k) {
      OriginStaysInside(pow, k);
      assert !outside(k);
    }
    FirstExitMeaning(outside, fails, maxIter, 0);
  }

  /** With an even image centred on the origin the middle pixel stays black. */
  lemma MiddlePixelBlack(m: Maths, s: Settings)
    requires Renderable(s) && s.width % 2 == 0 && s.height % 2 == 0 && s.center == (0.0, 0.0)
    ensures MandelbrotColour(m, s, s.width / 2, s.height / 2) == Black
  {
    MiddlePixelIsCentre(s);
    OriginNeverEscapes(m.pow, s.maxIter);
  }

  /** A point already outside the disc escapes at iteration 0, e.g. the corner pixel (0, 0) of the default image. */
  lemma DefaultCornerEscapesAtOnce(m: Maths)
    ensures ExitOf(m.pow, MandelbrotMap, PlanePoint(DefaultSettings, 0, 0), DefaultSettings.maxIter) == Escape(0)
  {
    DefaultViewport();
    var z := PlanePoint(DefaultSettings, 0, 0);
    assert z == Complex(-2.3, -1.29375);
    assert OutsideAt(m.pow, MandelbrotMap, z, 0);
    ExitFromStep(m.pow, MandelbrotMap, z, DefaultSettings.maxIter, 0);
  }
}
