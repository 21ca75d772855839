/**
 * `generate_fractal` in exotic_fractals/fractal.py: every pixel's plane point z is iterated under
 * z_curr**(1/z_curr) + c with c = a + ib until `abs(z_curr) > 1` or `max_iter` iterations. An
 * escaping pixel is coloured by smoothing (`m_style`), by the trajectory sum (`j_style`), or white.
 * The step divides by `z_curr` unguarded: an iterate equal to 0 is inside the disc, so the next
 * step raises and the render stops without saving.
 */
module Exotic {
  import opened Wrappers
  import opened ComplexArith
  import opened Library
  import opened Plane
  import opened Escape
  import opened Colouring
  import opened Render
  import opened Naming

  /** The outcome of the loop for pixel (x, y). */
  function ExoticExit(m: Maths, c: Complex, s: Settings, x: int, y: int): Exit
    requires Renderable(s)
  {
    ExitOf(m.pow, ExoticMap(c), PlanePoint(s, x, y), s.maxIter)
  }

  /** The colour pixel (x, y) ends with when the render completes. */
  function ExoticColour(m: Maths, c: Complex, s: Settings, mStyle: bool, jStyle: bool, hue: real, scale: real,
                        x: int, y: int): Rgb
    requires Renderable(s)
  {
    PixelColour(m, SelectPolicy(mStyle, jStyle), ExoticMap(c), PlanePoint(s, x, y), s.maxIter, hue, scale)
  }

  /**
   * The facts the loop needs at an iteration `l` where `abs(z_l) > 1`: it is the escape, and each
   * branch of the `m_style` / `j_style` / white choice writes the selected policy's colour.
   */
  lemma EscapingIteration(m: Maths, c: Complex, z: Complex, maxIter: int, l: nat, mStyle: bool, jStyle: bool,
                          hue: real, scale: real, nsmooth: real)
    requires ValueIsAChannel(m)
    requires l < maxIter && OutsideAt(m.pow, ExoticMap(c), z, l)
    requires ExitOf(m.pow, ExoticMap(c), z, maxIter) == ExitFrom(m.pow, ExoticMap(c), z, maxIter, l)
    requires jStyle ==> nsmooth == SmoothSum(m, ExoticMap(c), z, l + 1)
    ensures ExitOf(m.pow, ExoticMap(c), z, maxIter) == Escape(l)
    ensures mStyle ==>
      Stored(Hsv2Rgb(m, ((l + 1) as real - m.log10(m.log2(m.abs(Orbit(m.pow, ExoticMap(c), z, l)))) / m.log10(2.0)) / maxIter as real,
              Saturation, Brightness))
      == EscapeColour(m, SelectPolicy(mStyle, jStyle), ExoticMap(c), z, l, maxIter, hue, scale)
    ensures !mStyle && jStyle ==>
      Stored(Hsv2Rgb(m, hue + scale * (nsmooth / maxIter as real), Saturation, Brightness))
      == EscapeColour(m, SelectPolicy(mStyle, jStyle), ExoticMap(c), z, l, maxIter, hue, scale)
    ensures !mStyle && !jStyle ==> White == EscapeColour(m, SelectPolicy(mStyle, jStyle), ExoticMap(c), z, l, maxIter, hue, scale)
    ensures EscapeColour(m, SelectPolicy(mStyle, jStyle), ExoticMap(c), z, l, maxIter, hue, scale) != Black
  {
    ExitFromStep(m.pow, ExoticMap(c), z, maxIter, l);
    if !mStyle && jStyle {
      assert hue + scale * (nsmooth / maxIter as real) == TrajectoryHueAt(m, ExoticMap(c), z, l, maxIter, hue, scale);
    }
    EscapeColourNotBlack(m, SelectPolicy(mStyle, jStyle), ExoticMap(c), z, l, maxIter, hue, scale);
  }

  /** Away from the origin the next exotic iterate is `z_curr**(1/z_curr) + c`. */
  lemma OrbitSteps(pow: (Complex, Complex) -> Complex, c: Complex, z: Complex, l: nat)
    requires Orbit(pow, ExoticMap(c), z, l) != Zero
    ensures Orbit(pow, ExoticMap(c), z, l + 1) == ExoticStep(pow, Orbit(pow, ExoticMap(c), z, l), c)
  {
    OrbitStep(pow, ExoticMap(c), z, l);
  }

  /**
   * The branch taken when `abs(z_curr) > 1` at iteration `l`: `m_style` writes the smoothed hue it
   * stores in `nsmooth`, otherwise `j_style` writes the trajectory hue, otherwise the pixel turns
   * white. The colour written is the selected policy's, it is not black, and no other pixel changes.
   */
  method WriteEscape(m: Maths, img: array2<Rgb>, x: nat, y: nat, z: Complex, c: Complex, maxIter: int, l: nat,
                     zCurr: Complex, mStyle: bool, jStyle: bool, hue: real, scale: real, nsmooth: real)
      returns (nsmooth': real)
    requires ValueIsAChannel(m)
    requires x < img.Length0 && y < img.Length1
    requires l < maxIter && zCurr == Orbit(m.pow, ExoticMap(c), z, l) && OutsideAt(m.pow, ExoticMap(c), z, l)
    requires ExitOf(m.pow, ExoticMap(c), z, maxIter) == ExitFrom(m.pow, ExoticMap(c), z, maxIter, l)
    requires jStyle ==> nsmooth == SmoothSum(m, ExoticMap(c), z, l + 1)
    modifies img
    ensures ExitOf(m.pow, ExoticMap(c), z, maxIter) == Escape(l)
    ensures img[x, y] == EscapeColour(m, SelectPolicy(mStyle, jStyle), ExoticMap(c), z, l, maxIter, hue, scale)
    ensures img[x, y] != Black && zCurr != Zero
    ensures forall i, j :: 0 <= i < img.Length0 && 0 <= j < img.Length1 && (i != x || j != y) ==>
      img[i, j] == old(img[i, j])
  {
    OutsideNonZero(ExoticMap(c), zCurr);
    EscapingIteration(m, c, z, maxIter, l, mStyle, jStyle, hue, scale, nsmooth);
    nsmooth' := nsmooth;
    if mStyle {
      nsmooth' := ((l + 1) as real - m.log10(m.log2(m.abs(zCurr))) / m.log10(2.0)) / maxIter as real;
      img[x, y] := Stored(Hsv2Rgb(m, nsmooth', Saturation, Brightness));
    } else if jStyle {
      img[x, y] := Stored(Hsv2Rgb(m, hue + scale * (nsmooth / maxIter as real), Saturation, Brightness));
    } else {
      img[x, y] := White;
    }
  }

  /**
   * One pass of the inner `while` body at iteration `l`, where `z_curr` is z_l: under `j_style` add
   * `exp(-abs(z_curr))` to `nsmooth`, colour the pixel when `abs(z_curr) > 1`, then take the step,
   * which fails exactly when `z_curr == 0`. Only pixel (x, y) may change.
   */
  method Iteration(m: Maths, img: array2<Rgb>, x: nat, y: nat, z: Complex, c: Complex, maxIter: int,
                   mStyle: bool, jStyle: bool, hue: real, scale: real, l: nat, zCurr: Complex, nsmooth: real)
      returns (zNext: Complex, nsmooth': real, failed: bool, ghost wrote: bool)
    requires AbsIsModulus(m) && ValueIsAChannel(m)
    requires x < img.Length0 && y < img.Length1 && img[x, y] == Black
    requires l < maxIter && zCurr == Orbit(m.pow, ExoticMap(c), z, l)
    requires ExitOf(m.pow, ExoticMap(c), z, maxIter) == ExitFrom(m.pow, ExoticMap(c), z, maxIter, l)
    requires jStyle ==> nsmooth == SmoothSum(m, ExoticMap(c), z, l)
    modifies img
    ensures failed <==> ExitOf(m.pow, ExoticMap(c), z, maxIter) == Fault(l)
    ensures failed ==> img[x, y] == Black
    ensures wrote <==> img[x, y] != Black
    ensures !failed ==> zNext == Orbit(m.pow, ExoticMap(c), z, l + 1)
    ensures !failed && img[x, y] == Black ==>
      ExitOf(m.pow, ExoticMap(c), z, maxIter) == ExitFrom(m.pow, ExoticMap(c), z, maxIter, l + 1)
      && (jStyle ==> nsmooth' == SmoothSum(m, ExoticMap(c), z, l + 1))
    ensures img[x, y] != Black ==>
      ExitOf(m.pow, ExoticMap(c), z, maxIter) == Escape(l)
      && img[x, y] == PixelColour(m, SelectPolicy(mStyle, jStyle), ExoticMap(c), z, maxIter, hue, scale)
    ensures forall i, j :: 0 <= i < img.Length0 && 0 <= j < img.Length1 && (i != x || j != y) ==>
      img[i, j] == old(img[i, j])
  {
    ghost var rec := ExoticMap(c);
    SmoothSumStep(m, rec, z, l);
    nsmooth' := nsmooth;
    if jStyle {
      nsmooth' := nsmooth + m.exp(-m.abs(zCurr));
    }
    EscapeTestIsOutside(m, rec, zCurr);
    ExitFromStep(m.pow, rec, z, maxIter, l);
    wrote := false;
    if m.abs(zCurr) > 1.0 {
      nsmooth' := WriteEscape(m, img, x, y, z, c, maxIter, l, zCurr, mStyle, jStyle, hue, scale, nsmooth');
      wrote := true;
      PixelColourByExit(m, SelectPolicy(mStyle, jStyle), rec, z, maxIter, hue, scale);
    } else if zCurr == Zero {
      // `1/z_curr` raises ZeroDivisionError; the loop stops here
      zNext, failed := zCurr, true;
      return;
    }
    OrbitSteps(m.pow, c, z, l);
    zNext := ExoticStep(m.pow, zCurr, c);
    failed := false;
  }

  /**
   * The inner `while` loop for one pixel with plane point `z`: it runs while the pixel is black and
   * `l < max_iter`, and stops early when the step fails. `failed` reports that `ZeroDivisionError`.
   * The pixel ends with its colour (black on a failure), is written at most once, and no other
   * pixel changes.
   */
  method IteratePixel(m: Maths, img: array2<Rgb>, x: nat, y: nat, z: Complex, c: Complex, maxIter: int,
                      mStyle: bool, jStyle: bool, hue: real, scale: real)
      returns (failed: bool, ghost writes: nat, ghost iterations: nat)
    requires AbsIsModulus(m) && ValueIsAChannel(m)
    requires x < img.Length0 && y < img.Length1 && img[x, y] == Black
    modifies img
    ensures failed <==> ExitOf(m.pow, ExoticMap(c), z, maxIter).Fault?
    ensures img[x, y] == PixelColour(m, SelectPolicy(mStyle, jStyle), ExoticMap(c), z, maxIter, hue, scale)
    ensures writes <= 1 && (writes == 1 <==> img[x, y] != Black)
    ensures iterations == Iterations(ExitOf(m.pow, ExoticMap(c), z, maxIter), maxIter)
    ensures forall i, j :: 0 <= i < img.Length0 && 0 <= j < img.Length1 && (i != x || j != y) ==>
      img[i, j] == old(img[i, j])
  {
    ghost var rec := ExoticMap(c);
    ghost var policy := SelectPolicy(mStyle, jStyle);
    var l := 0;
    var zCurr := z;
    var nsmooth := 0.0;  // unbound in the source unless `j_style`
    if jStyle {
      nsmooth := m.exp(-m.abs(zCurr));
    }
    writes := 0;
    failed := false;
    while img[x, y] == Black && l < maxIter
      invariant 0 <= l && (l <= maxIter || l == 0)
      invariant zCurr == Orbit(m.pow, rec, z, l)
      invariant img[x, y] == Black ==>
        writes == 0 && ExitOf(m.pow, rec, z, maxIter) == ExitFrom(m.pow, rec, z, maxIter, l)
        && (jStyle ==> nsmooth == SmoothSum(m, rec, z, l))
      invariant img[x, y] != Black ==>
        writes == 1 && 0 < l && ExitOf(m.pow, rec, z, maxIter) == Escape(l - 1)
        && img[x, y] == PixelColour(m, policy, rec, z, maxIter, hue, scale)
      invariant forall i, j :: 0 <= i < img.Length0 && 0 <= j < img.Length1 && (i != x || j != y) ==>
        img[i, j] == old(img[i, j])
      decreases maxIter - l
    {
      ghost var wrote;
      zCurr, nsmooth, failed, wrote := Iteration(m, img, x, y, z, c, maxIter, mStyle, jStyle, hue, scale, l, zCurr, nsmooth);
      if failed {
        break;
      }
      writes := writes + if wrote then 1 else 0;
      l := l + 1;
    }
    if failed {
      PixelColourByExit(m, policy, rec, z, maxIter, hue, scale);
    } else if img[x, y] == Black {
      LoopExhausted(m, policy, rec, z, maxIter, hue, scale, l);
    }
    iterations := l;
  }

  /** Pixel (i, j) comes before pixel (x, y) in the renderer's column-by-column scan. */
  predicate ScannedBefore(i: int, j: int, x: int, y: int) {
    i < x || (i == x && j < y)
  }

  /**
   * `generate_fractal(a, b, initial_color_hue, color_scale, ..., m_style, j_style)`. Either every
   * pixel gets its colour and the image is saved as requested, or the scan stops at the first pixel
   * whose loop divides by zero: `failure` names it, every earlier pixel is coloured and none is saved.
   */
  method GenerateFractal(m: Maths, a: real, b: real, hue: real, scale: real, s: Settings, labels: Labels,
                         mStyle: bool, jStyle: bool)
      returns (img: array2<Rgb>, savedAs: Option<string>, failure: Option<(nat, nat)>)
    requires Renderable(s) && AbsIsModulus(m) && ValueIsAChannel(m)
    ensures fresh(img) && img.Length0 == s.width && img.Length1 == s.height
    ensures failure.None? ==>
      && (forall x, y :: 0 <= x < s.width && 0 <= y < s.height ==>
            img[x, y] == ExoticColour(m, Complex(a, b), s, mStyle, jStyle, hue, scale, x, y)
            && !ExoticExit(m, Complex(a, b), s, x, y).Fault?)
      && savedAs == SaveTarget(s.imageSave, s.directory, ParameterName(s.job, labels))
    ensures failure.Some? ==>
      && failure.value.0 < s.width && failure.value.1 < s.height
      && ExoticExit(m, Complex(a, b), s, failure.value.0, failure.value.1).Fault?
      && (forall x, y :: 0 <= x < s.width && 0 <= y < s.height && ScannedBefore(x, y, failure.value.0, failure.value.1) ==>
            img[x, y] == ExoticColour(m, Complex(a, b), s, mStyle, jStyle, hue, scale, x, y)
            && !ExoticExit(m, Complex(a, b), s, x, y).Fault?)
      && savedAs == None
  {
    var c := Complex(a, b);
    var vp := ComputeBounds(s.xMax, s.aspectRatio, s.zoom, s.center);
    img := new Rgb[s.width, s.height]((i, j) => Black);
    var xSize := (vp.xMax - vp.xMin) / s.width as real;
    var ySize := (vp.yMax - vp.yMin) / s.height as real;
    assert vp == ViewportFor(s) && xSize == XStep(vp, s.width) && ySize == YStep(vp, s.height);
    for x := 0 to s.width
      invariant forall i, j :: 0 <= i < x && 0 <= j < s.height ==>
        img[i, j] == ExoticColour(m, c, s, mStyle, jStyle, hue, scale, i, j) && !ExoticExit(m, c, s, i, j).Fault?
      invariant forall i, j :: x <= i < s.width && 0 <= j < s.height ==> img[i, j] == Black
    {
      for y := 0 to s.height
        invariant forall i, j :: 0 <= i < x && 0 <= j < s.height ==>
          img[i, j] == ExoticColour(m, c, s, mStyle, jStyle, hue, scale, i, j) && !ExoticExit(m, c, s, i, j).Fault?
        invariant forall j :: 0 <= j < y ==>
          img[x, j] == ExoticColour(m, c, s, mStyle, jStyle, hue, scale, x, j) && !ExoticExit(m, c, s, x, j).Fault?
        invariant forall i, j :: x <= i < s.width && 0 <= j < s.height && (i != x || y <= j) ==> img[i, j] == Black
      {
        var z := Complex(vp.xMin + x as real * xSize, vp.yMin + y as real * ySize);
        assert z == PlanePoint(s, x, y);
        var failed;
        ghost var writes, iterations;
        failed, writes, iterations := IteratePixel(m, img, x, y, z, c, s.maxIter, mStyle, jStyle, hue, scale);
        if failed {
          failure := Some((x, y));
          savedAs := None;
          return;
        }
      }
    }
    failure := None;
    var saveName := ParameterName(s.job, labels);
    if s.imageSave {
      savedAs := Some(SavePath(s.directory, saveName));
    } else {
      savedAs := None;
    }
  }

  /** The origin is inside the unit disc and its step divides by zero: the loop fails at once. */
  lemma OriginFaults(pow: (Complex, Complex) -> Complex, c: Complex, maxIter: int)
    requires 0 < maxIter
    ensures ExitOf(pow, ExoticMap(c), Zero, maxIter) == Fault(0)
  {
    ZeroInside(ExoticMap(c), Orbit(pow, ExoticMap(c), Zero, 0));
    ExitFromStep(pow, ExoticMap(c), Zero, maxIter, 0);
  }

  /**
   * With an even image centred on the origin the middle pixel's loop fails, so by the contract of
   * `GenerateFractal` that render stops at or before that pixel and saves nothing.
   */
  lemma MiddlePixelFaults(m: Maths, c: Complex, s: Settings)
    requires Renderable(s) && s.width % 2 == 0 && s.height % 2 == 0 && s.center == (0.0, 0.0) && 0 < s.maxIter
    ensures ExoticExit(m, c, s, s.width / 2, s.height / 2) == Fault(0)
  {
    MiddlePixelIsCentre(s);
    OriginFaults(m.pow, c, s.maxIter);
  }
}
