/**
 * The bar drawn by `print_progress_bar`: `filledLength = length * iteration // total` copies of the
 * fill followed by dashes up to `length`. Printing, the percentage text and the final newline are
 * output only and are not modelled.
 */
module Progress {

  /** Python's `//` on integers: the floor of the quotient, also for a negative divisor. */
  function FloorDiv(a: int, b: int): (q: int)
    requires b != 0
    ensures q * b <= a < q * b + b || q * b + b < a <= q * b
  {
    if b > 0 then a / b else (-a) / (-b)
  }

  /** `s * k` on strings: k copies of s, and the empty string for k <= 0. */
  function Repeat(s: string, k: int): string {
    if k <= 0 then "" else s + Repeat(s, k - 1)
  }

  lemma {:induction false} RepeatLength(s: string, k: int)
    ensures |Repeat(s, k)| == if k <= 0 then 0 else k * |s|
  {
    if k > 0 {
      RepeatLength(s, k - 1);
      assert k * |s| == (k - 1) * |s| + |s|;
    }
  }

  /** Copies of a one-character string consist of that character only. */
  lemma {:induction false} RepeatChar(c: char, k: int)
    ensures |Repeat([c], k)| == if k <= 0 then 0 else k
    ensures forall i :: 0 <= i < |Repeat([c], k)| ==> Repeat([c], k)[i] == c
  {
    if k > 0 {
      RepeatChar(c, k - 1);
    }
  }

  function FilledLength(length: int, iteration: int, total: int): int
    requires total != 0
  {
    FloorDiv(length * iteration, total)
  }

  /** `fill * filledLength + '-' * (length - filledLength)`. */
  function Bar(length: int, iteration: int, total: int, fill: string): string
    requires total != 0
  {
    var filled := FilledLength(length, iteration, total);
    Repeat(fill, filled) + Repeat("-", length - filled)
  }

  /** The default fill of mandelbrot.py and making_a_gui/julia.py: the full block U+2588. */
  const BlockFill: string := "\U{2588}"

  /**
   * The default fill of julia.py and exotic_fractals/fractal.py: the UTF-8 bytes of U+2588 read as
   * Windows-1252, three characters.
   */
  const MisencodedFill: string := "\U{00E2}\U{2013}\U{02C6}"

  lemma MulMonotone(a: int, b: int, c: int)
    requires a <= b && 0 <= c
    ensures a * c <= b * c
  {
  }

  /** For 0 <= a <= n * b the quotient a / b lies in [0, n], and below n when a < n * b. */
  lemma QuotientBounds(a: int, b: int, n: int)
    requires 0 < b && 0 <= a <= n * b
    ensures 0 <= a / b <= n
    ensures a < n * b ==> a / b < n
    ensures a == n * b ==> a / b == n
  {
    var q := a / b;
    assert q * b + a % b == a;
    if q < 0 {
      MulMonotone(q, -1, b);
      assert false;
    }
    if a < n * b && q >= n {
      MulMonotone(n, q, b);
      assert false;
    }
    if q > n {
      MulMonotone(n + 1, q, b);
      assert false;
    }
    if a == n * b && q < n {
      MulMonotone(q + 1, n, b);
      assert false;
    }
  }

  /** Between the first and the last call the filled part stays within the bar, and fills it only at the end. */
  lemma FilledBounds(length: int, iteration: int, total: int)
    requires 0 < total && 0 <= iteration <= total && 0 <= length
    ensures 0 <= FilledLength(length, iteration, total) <= length
    ensures 0 < length ==> (FilledLength(length, iteration, total) == length <==> iteration == total)
  {
    assert FilledLength(length, iteration, total) == (length * iteration) / total;
    MulMonotone(iteration, total, length);
    MulMonotone(0, iteration, length);
    assert iteration * length == length * iteration;
    assert total * length == length * total;
    QuotientBounds(length * iteration, total, length);
    if iteration < total && 0 < length {
      MulMonotone(iteration + 1, total, length);
      assert (iteration + 1) * length == iteration * length + length;
    }
  }

  /** The bar is `|fill| * filledLength + (length - filledLength)` characters: `length` for a one-character fill. */
  lemma BarLength(length: int, iteration: int, total: int, fill: string)
    requires 0 < total && 0 <= iteration <= total && 0 <= length
    ensures |Bar(length, iteration, total, fill)|
         == |fill| * FilledLength(length, iteration, total) + (length - FilledLength(length, iteration, total))
    ensures |fill| == 1 ==> |Bar(length, iteration, total, fill)| == length
  {
    FilledBounds(length, iteration, total);
    var f := FilledLength(length, iteration, total);
    RepeatLength(fill, f);
    RepeatLength("-", length - f);
    assert f * |fill| == |fill| * f;
  }

  /** With a one-character fill other than `-`, the bar is all fill exactly at `iteration == total`. */
  lemma BarFullIffDone(length: int, iteration: int, total: int, fill: string)
    requires 0 < total && 0 <= iteration <= total && 0 < length
    requires |fill| == 1 && fill != "-"
    ensures Bar(length, iteration, total, fill) == Repeat(fill, length) <==> iteration == total
  {
    FilledBounds(length, iteration, total);
    var f := FilledLength(length, iteration, total);
    var bar := Bar(length, iteration, total, fill);
    assert fill == [fill[0]];
    if iteration == total {
      assert Repeat("-", length - f) == "";
      assert bar == Repeat(fill, f) + "";
    } else {
      RepeatChar(fill[0], f);
      RepeatChar('-', length - f);
      RepeatChar(fill[0], length);
      assert "-" == ['-'];
      assert bar[f] == '-';
      assert Repeat(fill, length)[f] == fill[0];
      assert fill[0] != '-';
    }
  }

  /**
   * The finding at julia.py and exotic_fractals/fractal.py: with the misencoded default fill the
   * finished bar is 75 characters, three times the intended 25.
   */
  lemma MisencodedBarTooLong(total: int)
    requires 0 < total
    ensures |Bar(25, total, total, MisencodedFill)| == 75
    ensures |Bar(25, 0, total, MisencodedFill)| == 25
  {
    BarLength(25, total, total, MisencodedFill);
    FilledBounds(25, total, total);
    BarLength(25, 0, total, MisencodedFill);
    assert FilledLength(25, 0, total) == 0;
  }

  /**
   * The bar as the renderers draw it at the start of column `x` of `width` (`iteration = x + 1`),
   * before that column's pixels are computed, with the intended block fill: always 25 characters,
   * all blocks only when the last column starts.
   */
  lemma RenderProgress(x: int, width: int)
    requires 0 <= x < width
    ensures |Bar(25, x + 1, width, BlockFill)| == 25
    ensures Bar(25, x + 1, width, BlockFill) == Repeat(BlockFill, 25) <==> x == width - 1
  {
    BarLength(25, x + 1, width, BlockFill);
    BarFullIffDone(25, x + 1, width, BlockFill);
  }
}
