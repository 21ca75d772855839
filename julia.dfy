/**
 * `generate_julia`, as in julia.py and its copy making_a_gui/julia.py: every pixel's plane point z
 * is iterated under z*z + c with c = a + ib until `abs(z) > 2` or `max_iter` iterations; an
 * escaping pixel is coloured from the trajectory sum `nsmooth`, the others stay black.
 */
module Julia {
  import opened Wrappers
  import opened ComplexArith
  import opened Library
  import opened Plane
  import opened Escape
  import opened Colouring
  import opened Render
  import opened Naming

  /** The colour pixel (x, y) ends with. */
  function JuliaColour(m: Maths, c: Complex, s: Settings, hue: real, scale: real, x: int, y: int): Rgb
    requires Renderable(s)
  {
    PixelColour(m, TrajectoryHue, JuliaMap(c), PlanePoint(s, x, y), s.maxIter, hue, scale)
  }

  /** The facts the loop needs at an iteration `l` where `abs(z_l) > 2`: it is the escape, and its colour. */
  lemma EscapingIteration(m: Maths, c: Complex, z: Complex, maxIter: int, l: nat, hue: real, scale: real, nsmooth: real)
    requires ValueIsAChannel(m)
    requires l < maxIter && OutsideAt(m.pow, JuliaMap(c), z, l)
    requires ExitOf(m.pow, JuliaMap(c), z, maxIter) == ExitFrom(m.pow, JuliaMap(c), z, maxIter, l)
    requires nsmooth == SmoothSum(m, JuliaMap(c), z, l + 1)
    ensures ExitOf(m.pow, JuliaMap(c), z, maxIter) == Escape(l)
    ensures Stored(Hsv2Rgb(m, hue + scale * (nsmooth / maxIter as real), Saturation, Brightness))
         == EscapeColour(m, TrajectoryHue, JuliaMap(c), z, l, maxIter, hue, scale)
    ensures EscapeColour(m, TrajectoryHue, JuliaMap(c), z, l, maxIter, hue, scale) != Black
  {
    ExitFromStep(m.pow, JuliaMap(c), z, maxIter, l);
    assert hue + scale * (nsmooth / maxIter as real) == TrajectoryHueAt(m, JuliaMap(c), z, l, maxIter, hue, scale);
    EscapeColourNotBlack(m, TrajectoryHue, JuliaMap(c), z, l, maxIter, hue, scale);
  }

  /**
   * One pass of the inner `while` body at iteration `l`, where `z_curr` is z_l: add
   * `exp(-abs(z_curr))` to `nsmooth`, colour the pixel when `abs(z_curr) > 2`, then step to
   * z_curr*z_curr + c. `wrote` records the write. Only pixel (x, y) may change.
   */
  method Iteration(m: Maths, img: array2<Rgb>, x: nat, y: nat, z: Complex, c: Complex, maxIter: int,
                   hue: real, scale: real, l: nat, zCurr: Complex, nsmooth: real)
      returns (zNext: Complex, nsmooth': real, ghost wrote: bool)
    requires AbsIsModulus(m) && ValueIsAChannel(m)
    requires x < img.Length0 && y < img.Length1 && img[x, y] == Black
    requires l < maxIter && zCurr == Orbit(m.pow, JuliaMap(c), z, l)
    requires ExitOf(m.pow, JuliaMap(c), z, maxIter) == ExitFrom(m.pow, JuliaMap(c), z, maxIter, l)
    requires nsmooth == SmoothSum(m, JuliaMap(c), z, l)
    modifies img
    ensures zNext == Orbit(m.pow, JuliaMap(c), z, l + 1)
    ensures wrote <==> img[x, y] != Black
    ensures img[x, y] == Black ==>
      ExitOf(m.pow, JuliaMap(c), z, maxIter) == ExitFrom(m.pow, JuliaMap(c), z, maxIter, l + 1)
      && nsmooth' == SmoothSum(m, JuliaMap(c), z, l + 1)
    ensures img[x, y] != Black ==>
      ExitOf(m.pow, JuliaMap(c), z, maxIter) == Escape(l)
      && img[x, y] == PixelColour(m, TrajectoryHue, JuliaMap(c), z, maxIter, hue, scale)
    ensures forall i, j :: 0 <= i < img.Length0 && 0 <= j < img.Length1 && (i != x || j != y) ==>
      img[i, j] == old(img[i, j])
  {
    ghost var rec := JuliaMap(c);
    SmoothSumStep(m, rec, z, l);
    nsmooth' := nsmooth + m.exp(-m.abs(zCurr));
    EscapeTestIsOutside(m, rec, zCurr);
    wrote := false;
    if m.abs(zCurr) > 2.0 {
      EscapingIteration(m, c, z, maxIter, l, hue, scale, nsmooth');
      img[x, y] := Stored(Hsv2Rgb(m, hue + scale * (nsmooth' / maxIter as real), Saturation, Brightness));
      wrote := true;
      PixelColourByExit(m, TrajectoryHue, rec, z, maxIter, hue, scale);
    } else {
      InsideIteration(m.pow, rec, z, maxIter, l);
    }
    OrbitStep(m.pow, rec, z, l);
    zNext := Add(Square(zCurr), c);
  }

  /**
   * The inner `while` loop for one pixel with plane point `z`: it runs while the pixel is black and
   * `l < max_iter`. It ends with the pixel's colour, writes at most once, runs `Iterations` times
   * (so at most `max_iter`), and touches no other pixel.
   */
  method IteratePixel(m: Maths, img: array2<Rgb>, x: nat, y: nat, z: Complex, c: Complex,
                      maxIter: int, hue: real, scale: real)
      returns (ghost writes: nat, ghost iterations: nat)
    requires AbsIsModulus(m) && ValueIsAChannel(m)
    requires x < img.Length0 && y < img.Length1 && img[x, y] == Black
    modifies img
    ensures img[x, y] == PixelColour(m, TrajectoryHue, JuliaMap(c), z, maxIter, hue, scale)
    ensures writes <= 1 && (writes == 1 <==> img[x, y] != Black)
    ensures iterations == Iterations(ExitOf(m.pow, JuliaMap(c), z, maxIter), maxIter)
    ensures forall i, j :: 0 <= i < img.Length0 && 0 <= j < img.Length1 && (i != x || j != y) ==>
      img[i, j] == old(img[i, j])
  {
    ghost var rec := JuliaMap(c);
    var l := 0;
    var zCurr := z;
    var nsmooth := m.exp(-m.abs(zCurr));
    writes := 0;
    while img[x, y] == Black && l < maxIter
      invariant 0 <= l && (l <= maxIter || l == 0)
      invariant zCurr == Orbit(m.pow, rec, z, l)
      invariant img[x, y] == Black ==>
        writes == 0 && ExitOf(m.pow, rec, z, maxIter) == ExitFrom(m.pow, rec, z, maxIter, l)
        && nsmooth == SmoothSum(m, rec, z, l)
      invariant img[x, y] != Black ==>
        writes == 1 && 0 < l && ExitOf(m.pow, rec, z, maxIter) == Escape(l - 1)
        && img[x, y] == PixelColour(m, TrajectoryHue, rec, z, maxIter, hue, scale)
      invariant forall i, j :: 0 <= i < img.Length0 && 0 <= j < img.Length1 && (i != x || j != y) ==>
        img[i, j] == old(img[i, j])
      decreases maxIter - l
    {
      ghost var wrote;
      zCurr, nsmooth, wrote := Iteration(m, img, x, y, z, c, maxIter, hue, scale, l, zCurr, nsmooth);
      writes := writes + if wrote then 1 else 0;
      l := l + 1;
    }
    if img[x, y] == Black {
      LoopExhausted(m, TrajectoryHue, rec, z, maxIter, hue, scale, l);
    }
    iterations := l;
  }

  /**
   * `generate_julia(a, b, initial_color_hue, color_scale, ...)`: a fresh `width` x `height` raster in
   * which every pixel has its Julia colour, and the path it is saved under when `image_save` is set.
   */
  method GenerateJulia(m: Maths, a: real, b: real, hue: real, scale: real, s: Settings, labels: Labels)
      returns (img: array2<Rgb>, savedAs: Option<string>)
    requires Renderable(s) && AbsIsModulus(m) && ValueIsAChannel(m)
    ensures fresh(img) && img.Length0 == s.width && img.Length1 == s.height
    ensures forall x, y :: 0 <= x < s.width && 0 <= y < s.height ==>
      img[x, y] == JuliaColour(m, Complex(a, b), s, hue, scale, x, y)
    ensures savedAs == SaveTarget(s.imageSave, s.directory, ParameterName(s.job, labels))
  {
    var vp := ComputeBounds(s.xMax, s.aspectRatio, s.zoom, s.center);
    img := new Rgb[s.width, s.height]((i, j) => Black);
    var xSize := (vp.xMax - vp.xMin) / s.width as real;
    var ySize := (vp.yMax - vp.yMin) / s.height as real;
    assert vp == ViewportFor(s) && xSize == XStep(vp, s.width) && ySize == YStep(vp, s.height);
    for x := 0 to s.width
      invariant forall i, j :: 0 <= i < x && 0 <= j < s.height ==> img[i, j] == JuliaColour(m, Complex(a, b), s, hue, scale, i, j)
      invariant forall i, j :: x <= i < s.width && 0 <= j < s.height ==> img[i, j] == Black
    {
      for y := 0 to s.height
        invariant forall i, j :: 0 <= i < x && 0 <= j < s.height ==> img[i, j] == JuliaColour(m, Complex(a, b), s, hue, scale, i, j)
        invariant forall j :: 0 <= j < y ==> img[x, j] == JuliaColour(m, Complex(a, b), s, hue, scale, x, j)
        invariant forall i, j :: x <= i < s.width && 0 <= j < s.height && (i != x || y <= j) ==> img[i, j] == Black
      {
        var z := Complex(vp.xMin + x as real * xSize, vp.yMin + y as real * ySize);
        assert z == PlanePoint(s, x, y);
        var c := Complex(a, b);
        ghost var writes, iterations := IteratePixel(m, img, x, y, z, c, s.maxIter, hue, scale);
      }
    }
    var saveName := ParameterName(s.job, labels);
    if s.imageSave {
      savedAs := Some(SavePath(s.directory, saveName));
    } else {
      savedAs := None;
    }
  }
}
