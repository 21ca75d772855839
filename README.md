# Escape-time fractal renderers, modelled in Dafny

The repository renders escape-time fractals. Four near-identical Python functions do the work:

- `generate_julia` in julia.py and its copy in making_a_gui/julia.py;
- `generate_mandelbrot_zoom` in mandelbrot.py;
- `generate_fractal` in exotic_fractals/fractal.py.

Each renderer works in four steps:

1. It derives a viewport (a box of the complex plane) from `x_max`, `aspect_ratio`, `zoom_level` and `center_point`.
2. It maps every pixel affinely into that box.
3. It runs a `while` loop per pixel over a black raster until the pixel gets a colour or `max_iter` is reached. Pillow clips each stored channel to 0..255, so the raster holds the clipped colour (`Colouring.Stored`).
4. It builds the file name the image is saved under.

A progress bar is printed at the start of every column, before that column's pixels are computed.

The model uses exact reals. Library routines are parameters of type `Library.Maths`: `abs`, `math.exp`, `math.log2`, `math.log10`, complex `**` and `colorsys.hsv_to_rgb`. The facts the proofs need about those routines are named predicates that the lemmas require:

- `AbsIsModulus`: `abs` is the modulus;
- `ExpBounds`: `exp` of a non-positive number lies in (0, 1];
- `ValueIsAChannel`: the HSV value `v` is one of the three RGB channels, whatever the hue. `Library.HsvToRgb` writes `colorsys.hsv_to_rgb` out, and `Library.ColorsysValueIsAChannel` proves that it meets this predicate;
- `LogsAgree`: `log10(x)/log10(2)` equals `log2(x)`.

Modules:

- `ComplexArith` holds complex numbers as pairs of reals and `1/z`. `Wrappers` holds `Option`.
- `Library` holds the routines, their facts, and `colorsys.hsv_to_rgb` written out.
- `Plane` derives the viewport and maps pixels to the plane.
- `Escape` covers the three recurrences and the escape test `abs(z) > r`, decided exactly as `re² + im² > r²`. It also defines the outcome of a pixel loop: escape at iteration k, `max_iter` exhausted, or a step that raises. The outcome is defined as the first iteration that is outside or fails, and this first-escape meaning is proved. It also defines the `nsmooth` trajectory sum.
- `Colouring` covers `hsv2rgb`, including Python's round-half-to-even, the three colour policies, and the colour a pixel ends with.
- `Render` holds the shared keyword arguments and the imperative bounds computation.
- `Naming` builds the save name and path.
- `Progress` covers the bar arithmetic of `print_progress_bar`.
- `Julia`, `Mandelbrot` and `Exotic` are the three renderers. Each has a `while` loop over an `array2<Rgb>` raster with loop invariants, nested `for` loops over the pixels, and a proof that every pixel ends with the colour its outcome determines. One `Julia` module serves both julia.py and its copy.

## Model

Members that model code repeated across the renderers cite one occurrence:

- the bounds and the pixel mapping: lines 37-56 of both Julia files, mandelbrot.py:43-61 and exotic_fractals/fractal.py:18-37;
- the save logic;
- `print_progress_bar`.

The other copies are the same code at the lines given in the rows. making_a_gui/julia.py is line for line julia.py up to its `print_progress_bar`, so the `Julia` rows cover it too.

Definitions (`Colouring.Hsv2Rgb`, `Colouring.SmoothHue`, `Colouring.EscapeColour`, `Colouring.PixelColour`, `Naming.ParameterName`, `Naming.HueScaleName`, `Progress.Bar`) have no rows of their own. The lemma and method rows that state their properties describe them.

| member | source | states |
|---|---|---|
| Plane.HalfHeight | julia.py:37-40 | the half-height before zooming is `x_max/ar` for `ar > 1` and `x_max*ar` otherwise; it never exceeds a non-negative `x_max`, is positive for positive inputs, and equals `x_max` at ratio 1 |
| Plane.ViewportOf | julia.py:37-48 | the zoomed box is centred on `center_point`, is `2*x_max/zoom_level` wide, and is `2*half_height/zoom_level` high |
| Plane.ViewportOrdered | mandelbrot.py:43-53 | with positive `x_max`, aspect ratio and zoom, `x_min < x_max` and `y_min < y_max` |
| Plane.ZoomDoublingHalves | julia.py:45-48 | doubling `zoom_level` about the same centre halves the width and the height and keeps the centre |
| Plane.DefaultViewport | julia.py:37-48 | with the defaults `x_max=2.3`, `aspect_ratio=16/9`, zoom 1 and centre (0,0) the box is [-2.3, 2.3] x [-1.29375, 1.29375] |
| Plane.PixelPointStep | julia.py:72 | the pixel map is affine: one column right adds `x_size` to the real part only; one row down adds `y_size` to the imaginary part only |
| Plane.PixelPointInViewport | exotic_fractals/fractal.py:53 | every in-range pixel maps inside `[x_min, x_max) x [y_min, y_max)` |
| Plane.PixelPointCorners | julia.py:72 | pixel (0,0) is `(x_min, y_min)`; the last pixel is one step short of `(x_max, y_max)` |
| Render.ComputeBounds | julia.py:37-48 | the bounds computed by reassigning `x_max`, `y_max`, `x_min`, `y_min` are exactly the centred, scaled box |
| Render.MiddlePixelIsCentre | julia.py:72 | for even width and height, pixel (width/2, height/2) is exactly `center_point` |
| ComplexArith.RecipInverse | exotic_fractals/fractal.py:75 | `1/z` for `z != 0` is the multiplicative inverse of `z` |
| Library.HsvToRgb | julia.py:59-61 | `colorsys.hsv_to_rgb` as `hsv2rgb` calls it: whatever the hue, `v` is one of the three channels returned |
| Library.ColorsysValueIsAChannel | mandelbrot.py:115-116 | the `colorsys` that `hsv2rgb` calls satisfies `ValueIsAChannel`, the only fact the colouring proofs require of it |
| Library.NegativeHueExceedsValue | exotic_fractals/fractal.py:40-42 | at hue -1/4 (reachable with a negative `initial_color_hue`) `colorsys` returns (0.59, 0.1239, 0.82305): `v` is a channel but not the largest |
| Library.EscapeTestExact | julia.py:78 | under the modulus assumption, `abs(z) > r` holds iff `re² + im² > r²` |
| Escape.EscapeTestIsOutside | exotic_fractals/fractal.py:64 | each renderer's test (`> 2` for Julia and Mandelbrot, `> 1` for the exotic map) is the model's `Outside` |
| Escape.OutsideNonZero | exotic_fractals/fractal.py:64 | an iterate that passes the `abs(z) > 1` test is never 0, so the step after a write never divides by zero |
| Escape.Step | exotic_fractals/fractal.py:75 | a step fails exactly for the exotic map at `z_curr == 0`; the Julia and Mandelbrot steps never fail |
| Escape.FirstExitMeaning | julia.py:76-82 | an escape at k is outside at k with no earlier exit; a failure at k is inside and failing at k; exhaustion means no iteration below `max_iter` exits |
| Escape.ExitOf | julia.py:76 | an escape or failure index is below `max_iter` |
| Escape.ExitIsFirstEscape | julia.py:76-82 | the outcome is `Escape(k)` iff iteration k is outside and every earlier iteration is inside and does not fail |
| Escape.EscapesIffSomeIterateOutside | julia.py:76-82 | the Julia (and Mandelbrot) loops never fail, and a pixel escapes iff some iterate `z_k` with `k < max_iter` has `abs(z_k) > 2` |
| Escape.DecaySumBounds | julia.py:77 | the sum of the first k terms `exp(-abs(z_i))` lies in [0, k] and is positive for k > 0 |
| Escape.TrajectorySumBounds | julia.py:75-77 | `nsmooth` at an escape at k counts `z_0` twice (`2*exp(-abs(z_0))` when k = 0) and lies in (0, k+2] |
| Escape.DecaySumReads | julia.py:77 | the trajectory sum depends only on `exp`, `abs` and `**` |
| Escape.IterationsBounded | julia.py:76 | the loop body never runs more than `max_iter` times (no times for a negative `max_iter`) |
| Colouring.RoundHalfEven | julia.py:61 | Python's `round` result is within 1/2 of its argument and even on a tie |
| Colouring.ColourAtBrightnessNotBlack | julia.py:80 | `hsv2rgb(h, 0.79, 0.59)` has a channel equal to 150 for any hue, so neither it nor the clipped colour the image stores is (0,0,0) |
| Colouring.Clip8 | julia.py:80 | a stored channel lies in 0..255, is unchanged when already in range, and is 0 below and 255 above |
| Colouring.Stored | julia.py:80 | every channel of a stored colour is in 0..255, and an in-range colour is stored unchanged |
| Colouring.OvershootIsClipped | julia.py:59-61 | at hue -0.32 `hsv2rgb` returns (150, 32, 260), and the image stores (150, 32, 255) |
| Colouring.SelectPolicy | exotic_fractals/fractal.py:65-72 | smoothing iff `m_style`; trajectory hue iff `j_style` without `m_style`; white iff neither |
| Colouring.SmoothHueIsLog2 | mandelbrot.py:77 | `(l + 1 - log10(log2 abs z)/log10(2))/max_iter` equals `(l + 1 - log2(log2 abs z))/max_iter` |
| Colouring.LoopExhausted | julia.py:76 | a loop that stops with the pixel still black used up `max_iter`, has no escape, and leaves the pixel black |
| Colouring.EscapeColourNotBlack | exotic_fractals/fractal.py:65-72 | each of the three policies writes a non-black colour, so the loop stops after its first write |
| Colouring.BlackIffNoEscape | julia.py:51 | a pixel ends black iff its loop does not escape |
| Colouring.ColourAtFirstEscape | julia.py:78-80 | the colour is the policy's colour at the first iteration that lands outside |
| Colouring.SmoothIgnoresHueAndScale | mandelbrot.py:77-78 | the smoothed colour does not read `initial_color_hue` or `color_scale` |
| Colouring.WhiteReadsOnlyEscape | exotic_fractals/fractal.py:71-72 | the white policy reads only whether the orbit escapes |
| Colouring.TrajectoryHueReads | julia.py:80 | the trajectory hue reads `exp`, `abs` and the orbit only |
| Colouring.TrajectoryIgnoresLogs | julia.py:75-80 | the trajectory-hue colour does not depend on `log2` or `log10` |
| Naming.JobPrefixesName | mandelbrot.py:89-102 | a job's name is `'job_' + job + '_'` followed by the job-less name, for both name shapes |
| Naming.NamesEndWithPng | julia.py:89-99 | every name ends in `.png`, with or without a job |
| Naming.ParameterNameStarts | julia.py:89-96 | the Julia and exotic names start with `job_` when a job is given and with `a_` otherwise |
| Naming.HueScaleNameStarts | mandelbrot.py:89-99 | the Mandelbrot name starts with `job_` when a job is given and with `inithue_scale_` otherwise |
| Naming.JobNamesDistinct | julia.py:89-96 | a name with a job never equals the name without one |
| Naming.JobRecoverable | julia.py:89-99 | two jobs with the same parameters get the same name only if the jobs are equal |
| Naming.SavePathShape | julia.py:100-106 | the path ends with the name; with a directory it starts with `directory + '/'`; without one it is the name |
| Progress.FloorDiv | julia.py:123 | `//` returns the floor of the quotient, for either sign of the divisor |
| Progress.RepeatLength | julia.py:124 | `s * k` has `k*len(s)` characters, and none for `k <= 0` |
| Progress.RepeatChar | julia.py:124 | copies of one character contain only that character |
| Progress.FilledBounds | making_a_gui/julia.py:124 | for `0 <= iteration <= total`, `0 <= filledLength <= length`, and for a positive length it equals `length` iff `iteration == total` |
| Progress.BarLength | mandelbrot.py:134 | the bar has `len(fill)*filledLength + (length - filledLength)` characters: exactly `length` for a one-character fill |
| Progress.BarFullIffDone | making_a_gui/julia.py:124-125 | with a one-character fill, the bar is all fill iff `iteration == total` |
| Progress.MisencodedBarTooLong | julia.py:110 | with the default fill as written, the finished 25-wide bar is 75 characters long |
| Progress.RenderProgress | mandelbrot.py:68 | the bar drawn at the start of column x of `width`, before its pixels are computed, with the block fill is 25 characters, and it is full iff x is the last column |
| Julia.EscapingIteration | julia.py:78-80 | at an iteration with `abs(z_curr) > 2` the outcome is that escape; the colour written is the trajectory-hue colour and is not black |
| Julia.Iteration | julia.py:77-82 | one loop body adds to `nsmooth`, writes the colour only on escape, steps to `z_curr**2 + c`, keeps the outcome when inside, and changes no other pixel |
| Julia.IteratePixel | julia.py:71-82 | the `while` loop leaves the pixel with its colour (black iff no escape), writes it at most once, runs `Iterations` times, and touches no other pixel |
| Julia.GenerateJulia | julia.py:65-106 | a fresh width x height raster in which every pixel has its Julia colour, and the save target given by `image_save`, `directory` and the job name |
| Mandelbrot.EscapingIteration | mandelbrot.py:75-78 | at an iteration with `abs(z_curr) > 2` the outcome is that escape; the smoothed colour written is the pixel's colour and is not black |
| Mandelbrot.Iteration | mandelbrot.py:74-81 | one loop body writes the smoothed colour only on escape, steps to `z_curr**2 + z`, and changes no other pixel |
| Mandelbrot.IteratePixel | mandelbrot.py:71-81 | the loop leaves the pixel with its Mandelbrot colour, writes it at most once, runs `Iterations` times, and touches no other pixel |
| Mandelbrot.GenerateMandelbrot | mandelbrot.py:43-109 | a fresh width x height raster in which every pixel has its smoothed Mandelbrot colour, and the save target named by the hue and scale |
| Mandelbrot.OrbitIsJuliaOrbit | mandelbrot.py:80 | the orbit of `z_0` under `z**2 + z_0` is the Julia orbit for `c = z_0` |
| Mandelbrot.ExitIsJuliaExit | mandelbrot.py:72-81 | a Mandelbrot pixel has the same outcome as the Julia loop for `c = z_0` started at `z_0` |
| Mandelbrot.OriginFixed | mandelbrot.py:80 | the orbit of 0 stays at 0 |
| Mandelbrot.OriginStaysInside | mandelbrot.py:75 | every iterate of 0 is inside and no step fails |
| Mandelbrot.OriginNeverEscapes | mandelbrot.py:74-81 | the origin's loop is exhausted without escaping |
| Mandelbrot.MiddlePixelBlack | mandelbrot.py:72-81 | for an even image centred on the origin the middle pixel stays black |
| Mandelbrot.DefaultCornerEscapesAtOnce | mandelbrot.py:72-78 | with the default settings, pixel (0,0) at (-2.3, -1.29375) escapes at iteration 0 |
| Exotic.EscapingIteration | exotic_fractals/fractal.py:64-72 | at an iteration with `abs(z_curr) > 1` the outcome is that escape, and each branch (`m_style`, then `j_style`, then white) writes the selected policy's non-black colour |
| Exotic.WriteEscape | exotic_fractals/fractal.py:64-72 | the branching write gives the selected policy's colour, is not black, and changes no other pixel |
| Exotic.Iteration | exotic_fractals/fractal.py:59-76 | one loop body accumulates `nsmooth` only under `j_style`, writes on escape, fails exactly when `z_curr == 0`, and otherwise steps |
| Exotic.IteratePixel | exotic_fractals/fractal.py:52-76 | the loop reports a failure iff the outcome is a failed step; otherwise it leaves the pixel with its colour, written at most once, after `Iterations` passes |
| Exotic.GenerateFractal | exotic_fractals/fractal.py:46-100 | either every pixel gets its colour, no pixel fails, and the save target follows the settings; or the scan stops at the first failing pixel in column order, every earlier pixel is coloured, and nothing is saved |
| Exotic.OriginFaults | exotic_fractals/fractal.py:64-75 | starting at 0 the loop fails at iteration 0 |
| Exotic.MiddlePixelFaults | exotic_fractals/fractal.py:53-75 | for an even image centred on the origin the middle pixel's loop fails, so the render cannot complete |

## Left out

- Image creation, `image.load`, `image.save` and directories are not modelled. The raster is an `array2<Rgb>` that starts black. Of Pillow's pixel store only its clipping of each channel to 0..255 is modelled (`Colouring.Stored`). Saving is reduced to the path the image would be written to.
- Printing is left out: the progress bar output, the percentage text, the `\r` and the final newline, the timing via `datetime`, verbose messages, and the aspect-ratio warning. Only the bar string is modelled.
- Floating point is not modelled; all arithmetic is on exact reals. `abs`, `exp`, `log2`, `log10`, complex `**` and `colorsys.hsv_to_rgb` are parameters. The model only relies on the assumptions stated as predicates on them. Of these, `ValueIsAChannel` is proved of `colorsys` as written; the other assumptions are not proved.
- `str()` of the numeric parameters is not modelled. The formatted strings are inputs (`Naming.Labels`, and `job` as a string).
- gif.py and the `__main__` blocks are left out: random batch parameters, `plac`, `glob`, `natsorted` and `imageio`.
- Exotic.GenerateFractal: the source raises ZeroDivisionError when an iterate is 0, and the model reports the failing pixel instead of an exception. The code has no fallback colour for that case, and the model follows the code.
- Escape.Step and Exotic.GenerateFractal: complex `**` in floating point raises OverflowError when `z**(1/z)` overflows, which happens for non-zero iterates close to 0 (exotic_fractals/fractal.py:75). The model's `pow` is a total function on exact reals, so it cannot tell when that happens. A `None` failure in the model therefore does not mean the program finishes and saves. The reported `failure` is the first iterate that is exactly 0, not the first exception the program raises.
- Julia.GenerateJulia, Mandelbrot.GenerateMandelbrot and Exotic.GenerateFractal require a non-zero width, height and `zoom_level`. The source divides by all three and raises otherwise.
- The per-column progress-bar call is modelled by `Progress.RenderProgress` as a statement about the bar. It is not a step of the render methods.

## Findings

| source | as written | input that shows it | evidently intended | confidence | as-written member | corrected member |
|---|---|---|---|---|---|---|
| julia.py:110 | the default `fill` is the three characters `â–ˆ` (the UTF-8 bytes of U+2588 read as Windows-1252) | `print_progress_bar(total, total)` with the default `length = 25`: the finished bar is 75 characters | one full-block character U+2588, as in mandelbrot.py:119, giving a 25-character bar | high; not executed | Progress.MisencodedBarTooLong | Progress.RenderProgress |
| exotic_fractals/fractal.py:104 | the same misencoded default `fill` | `print_progress_bar(width, width)` at the start of the last column, before its pixels are computed: 75 characters | U+2588, a 25-character bar | high; not executed | Progress.MisencodedBarTooLong | Progress.RenderProgress |
