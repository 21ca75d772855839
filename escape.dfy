/**
 * The escape-time iteration shared by the renderers: a recurrence started at a pixel's plane point,
 * run until the iterate leaves the escape disc, `max_iter` steps are used up, or (for the exotic
 * recurrence) a step divides by zero.
 */
module Escape {
  import opened Wrappers
  import opened ComplexArith
  import opened Library

  /** The three recurrences: Julia `z*z + c`, Mandelbrot `z*z + z0`, exotic `z**(1/z) + c`. */
  datatype Recurrence =
    | JuliaMap(c: Complex)
    | MandelbrotMap
    | ExoticMap(c: Complex)

  /** The squared escape radius: the test is `abs(z) > 2`, except `abs(z) > 1` for the exotic recurrence. */
  function RadiusSq(rec: Recurrence): real {
    if rec.ExoticMap? then 1.0 else 4.0
  }

  predicate Outside(rec: Recurrence, z: Complex) {
    NormSq(z) > RadiusSq(rec)
  }

  /** `abs(z) > 2` (Julia, Mandelbrot) and `abs(z) > 1` (exotic) are exactly `Outside`. */
  lemma EscapeTestIsOutside(m: Maths, rec: Recurrence, z: Complex)
    requires AbsIsModulus(m)
    ensures m.abs(z) > (if rec.ExoticMap? then 1.0 else 2.0) <==> Outside(rec, z)
  {
    EscapeTestExact(m, z, if rec.ExoticMap? then 1.0 else 2.0);
  }

  /** The origin is inside every escape disc. */
  lemma ZeroInside(rec: Recurrence, z: Complex)
    requires z == Zero
    ensures !Outside(rec, z)
  {
  }

  /** So a point outside the disc is never the origin. */
  lemma OutsideNonZero(rec: Recurrence, z: Complex)
    requires Outside(rec, z)
    ensures z != Zero
  {
    if z == Zero {
      ZeroInside(rec, z);
    }
  }

  /**
   * One step of the recurrence from `z`; `z0` is the starting point and `pow` is complex `**`.
   * The exotic step computes `1/z` first, which fails for `z == 0`; the others never fail.
   */
  function Step(pow: (Complex, Complex) -> Complex, rec: Recurrence, z0: Complex, z: Complex): (r: Option<Complex>)
    ensures r.None? <==> rec.ExoticMap? && z == Zero
  {
    match rec
    case JuliaMap(c) => Some(Add(Square(z), c))
    case MandelbrotMap => Some(Add(Square(z), z0))
    case ExoticMap(c) => if z == Zero then None else Some(ExoticStep(pow, z, c))
  }

  /** The exotic step z**(1/z) + c, defined where `1/z` is. */
  function ExoticStep(pow: (Complex, Complex) -> Complex, z: Complex, c: Complex): Complex
    requires z != Zero
  {
    Add(pow(z, Recip(z)), c)
  }

  /** The k-th iterate z_k from z_0 = `z0`. After a failed step the value is never read. */
  function Orbit(pow: (Complex, Complex) -> Complex, rec: Recurrence, z0: Complex, k: nat): Complex
  {
    if k == 0 then z0
    else match Step(pow, rec, z0, Orbit(pow, rec, z0, k - 1))
      case Some(z) => z
      case None => Zero
  }

  predicate OutsideAt(pow: (Complex, Complex) -> Complex, rec: Recurrence, z0: Complex, k: nat) {
    Outside(rec, Orbit(pow, rec, z0, k))
  }

  predicate FailsAt(pow: (Complex, Complex) -> Complex, rec: Recurrence, z0: Complex, k: nat) {
    Step(pow, rec, z0, Orbit(pow, rec, z0, k)).None?
  }

  /** How the per-pixel loop ends: escape at iteration `index`, `max_iter` used up, or a failed step. */
  datatype Exit = Escape(index: nat) | Exhausted | Fault(index: nat)

  /**
   * The outcome of a loop that from iteration `i` on first tests whether iteration k is outside and
   * then whether its step fails, until one holds or `max_iter` iterations have run.
   */
  function FirstExit(outside: nat -> bool, fails: nat -> bool, maxIter: int, i: nat): (e: Exit)
    decreases maxIter - i
    ensures e.Escape? || e.Fault? ==> i <= e.index < maxIter
  {
    if maxIter <= i then Exhausted
    else if outside(i) then Escape(i)
    else if fails(i) then Fault(i)
    else FirstExit(outside, fails, maxIter, i + 1)
  }

  /** Every iteration in [lo, hi) is inside and steps. */
  ghost predicate ContinuesBetween(outside: nat -> bool, fails: nat -> bool, lo: nat, hi: int) {
    forall j: nat :: lo <= j < hi ==> !outside(j) && !fails(j)
  }

  /** One iteration of the loop, in terms of the outcome from iteration `l` on. */
  lemma FirstExitStep(outside: nat -> bool, fails: nat -> bool, maxIter: int, l: nat)
    ensures maxIter <= l ==> FirstExit(outside, fails, maxIter, l) == Exhausted
    ensures l < maxIter && outside(l) ==> FirstExit(outside, fails, maxIter, l) == Escape(l)
    ensures l < maxIter && !outside(l) && fails(l) ==> FirstExit(outside, fails, maxIter, l) == Fault(l)
    ensures l < maxIter && !outside(l) && !fails(l) ==>
      FirstExit(outside, fails, maxIter, l) == FirstExit(outside, fails, maxIter, l + 1)
  {
  }

  /**
   * What the outcome means: an escape at the first iteration outside, a fault at the first failing
   * step before any escape, and exhaustion when every iteration below `max_iter` is inside and steps.
   */
  lemma {:induction false} FirstExitMeaning(outside: nat -> bool, fails: nat -> bool, maxIter: int, i: nat)
    decreases maxIter - i
    ensures FirstExit(outside, fails, maxIter, i).Escape? ==>
      outside(FirstExit(outside, fails, maxIter, i).index)
      && ContinuesBetween(outside, fails, i, FirstExit(outside, fails, maxIter, i).index)
    ensures FirstExit(outside, fails, maxIter, i).Fault? ==>
      fails(FirstExit(outside, fails, maxIter, i).index) && !outside(FirstExit(outside, fails, maxIter, i).index)
      && ContinuesBetween(outside, fails, i, FirstExit(outside, fails, maxIter, i).index)
    ensures FirstExit(outside, fails, maxIter, i).Exhausted? ==> ContinuesBetween(outside, fails, i, maxIter)
  {
    if i < maxIter && !outside(i) && !fails(i) {
      FirstExitMeaning(outside, fails, maxIter, i + 1);
    }
  }

  /** Conversely, the first iteration outside, with every earlier one inside and stepping, is the escape. */
  lemma {:induction false} FirstEscapeFrom(outside: nat -> bool, fails: nat -> bool, maxIter: int, k: nat, i: nat)
    requires i <= k < maxIter && outside(k) && ContinuesBetween(outside, fails, i, k)
    decreases k - i
    ensures FirstExit(outside, fails, maxIter, i) == Escape(k)
  {
    if i < k {
      FirstEscapeFrom(outside, fails, maxIter, k, i + 1);
    }
  }

  /** Two loops whose tests agree from iteration `i` on end the same way. */
  lemma {:induction false} FirstExitAgree(outside: nat -> bool, fails: nat -> bool, outside': nat -> bool, fails': nat -> bool,
                                          maxIter: int, i: nat)
    requires forall k: nat :: i <= k ==> outside(k) == outside'(k) && fails(k) == fails'(k)
    decreases maxIter - i
    ensures FirstExit(outside, fails, maxIter, i) == FirstExit(outside', fails', maxIter, i)
  {
    if i < maxIter {
      FirstExitAgree(outside, fails, outside', fails', maxIter, i + 1);
    }
  }

  /** The escape test of iteration k, and whether its step fails, as functions of k. */
  function OutsideTest(pow: (Complex, Complex) -> Complex, rec: Recurrence, z0: Complex): nat -> bool {
    (k: nat) => OutsideAt(pow, rec, z0, k)
  }

  function FailsTest(pow: (Complex, Complex) -> Complex, rec: Recurrence, z0: Complex): nat -> bool {
    (k: nat) => FailsAt(pow, rec, z0, k)
  }

  /** The outcome from iteration `i` on for the orbit of `z0`. */
  function ExitFrom(pow: (Complex, Complex) -> Complex, rec: Recurrence, z0: Complex, maxIter: int, i: nat): (e: Exit)
    ensures e.Escape? || e.Fault? ==> i <= e.index < maxIter
  {
    FirstExit(OutsideTest(pow, rec, z0), FailsTest(pow, rec, z0), maxIter, i)
  }

  /** The outcome for a pixel whose plane point is `z0`. */
  function ExitOf(pow: (Complex, Complex) -> Complex, rec: Recurrence, z0: Complex, maxIter: int): (e: Exit)
    ensures e.Escape? || e.Fault? ==> e.index < maxIter
  {
    ExitFrom(pow, rec, z0, maxIter, 0)
  }

  /** One iteration of the per-pixel loop. */
  lemma ExitFromStep(pow: (Complex, Complex) -> Complex, rec: Recurrence, z0: Complex, maxIter: int, l: nat)
    ensures maxIter <= l ==> ExitFrom(pow, rec, z0, maxIter, l) == Exhausted
    ensures l < maxIter && OutsideAt(pow, rec, z0, l) ==> ExitFrom(pow, rec, z0, maxIter, l) == Escape(l)
    ensures l < maxIter && !OutsideAt(pow, rec, z0, l) && FailsAt(pow, rec, z0, l) ==>
      ExitFrom(pow, rec, z0, maxIter, l) == Fault(l)
    ensures l < maxIter && !OutsideAt(pow, rec, z0, l) && !FailsAt(pow, rec, z0, l) ==>
      ExitFrom(pow, rec, z0, maxIter, l) == ExitFrom(pow, rec, z0, maxIter, l + 1)
  {
    FirstExitStep(OutsideTest(pow, rec, z0), FailsTest(pow, rec, z0), maxIter, l);
  }

  /** An iteration that is inside and steps: the next iterate is the step, and the outcome is unchanged. */
  lemma InsideIteration(pow: (Complex, Complex) -> Complex, rec: Recurrence, z0: Complex, maxIter: int, l: nat)
    requires l < maxIter && !OutsideAt(pow, rec, z0, l) && !FailsAt(pow, rec, z0, l)
    ensures Orbit(pow, rec, z0, l + 1) == Step(pow, rec, z0, Orbit(pow, rec, z0, l)).value
    ensures ExitFrom(pow, rec, z0, maxIter, l) == ExitFrom(pow, rec, z0, maxIter, l + 1)
  {
    ExitFromStep(pow, rec, z0, maxIter, l);
  }

  /** The next iterate is the step from the current one, whenever the step succeeds. */
  lemma OrbitStep(pow: (Complex, Complex) -> Complex, rec: Recurrence, z0: Complex, l: nat)
    ensures Step(pow, rec, z0, Orbit(pow, rec, z0, l)).Some? ==>
      Orbit(pow, rec, z0, l + 1) == Step(pow, rec, z0, Orbit(pow, rec, z0, l)).value
  {
  }

  /** First-escape semantics: the pixel escapes at `k` exactly when `k` is the first iteration outside. */
  lemma ExitIsFirstEscape(pow: (Complex, Complex) -> Complex, rec: Recurrence, z0: Complex, maxIter: int, k: nat)
    requires k < maxIter
    ensures ExitOf(pow, rec, z0, maxIter) == Escape(k) <==>
      OutsideAt(pow, rec, z0, k) && ContinuesBetween(OutsideTest(pow, rec, z0), FailsTest(pow, rec, z0), 0, k)
  {
    var outside, fails := OutsideTest(pow, rec, z0), FailsTest(pow, rec, z0);
    FirstExitMeaning(outside, fails, maxIter, 0);
    if OutsideAt(pow, rec, z0, k) && ContinuesBetween(outside, fails, 0, k) {
      FirstEscapeFrom(outside, fails, maxIter, k, 0);
    }
  }

  /** Julia and Mandelbrot never fail: they escape iff some iteration below `max_iter` is outside. */
  lemma EscapesIffSomeIterateOutside(pow: (Complex, Complex) -> Complex, rec: Recurrence, z0: Complex, maxIter: int)
    requires !rec.ExoticMap?
    ensures !ExitOf(pow, rec, z0, maxIter).Fault?
    ensures ExitOf(pow, rec, z0, maxIter).Escape? <==> exists k :: 0 <= k < maxIter && OutsideAt(pow, rec, z0, k)
  {
    var outside, fails := OutsideTest(pow, rec, z0), FailsTest(pow, rec, z0);
    FirstExitMeaning(outside, fails, maxIter, 0);
    var e := ExitOf(pow, rec, z0, maxIter);
    if e.Escape? {
      assert outside(e.index);
    } else {
      assert forall k: nat :: !fails(k) by {
        forall k: nat ensures !fails(k) {
          assert !FailsAt(pow, rec, z0, k);
        }
      }
      assert e.Exhausted?;
      forall k | 0 <= k < maxIter ensures !OutsideAt(pow, rec, z0, k) {
        assert !outside(k);
      }
    }
  }

  /** sum of exp(-abs(z_i)) over i < k. */
  function DecaySum(m: Maths, rec: Recurrence, z0: Complex, k: nat): real {
    if k == 0 then 0.0
    else DecaySum(m, rec, z0, k - 1) + m.exp(-m.abs(Orbit(m.pow, rec, z0, k - 1)))
  }

  lemma DecaySumStep(m: Maths, rec: Recurrence, z0: Complex, l: nat)
    ensures DecaySum(m, rec, z0, l + 1) == DecaySum(m, rec, z0, l) + m.exp(-m.abs(Orbit(m.pow, rec, z0, l)))
  {
  }

  /** The sum reads only `exp`, `abs` and (through the orbit) `**`. */
  lemma {:induction false} DecaySumReads(m: Maths, m': Maths, rec: Recurrence, z0: Complex, k: nat)
    requires m.exp == m'.exp && m.abs == m'.abs && m.pow == m'.pow
    ensures DecaySum(m, rec, z0, k) == DecaySum(m', rec, z0, k)
  {
    if k > 0 {
      DecaySumReads(m, m', rec, z0, k - 1);
    }
  }

  /** `nsmooth` at the top of iteration l: exp(-abs(z_0)) from before the loop plus one term per iteration. */
  function SmoothSum(m: Maths, rec: Recurrence, z0: Complex, l: nat): real {
    m.exp(-m.abs(z0)) + DecaySum(m, rec, z0, l)
  }

  lemma SmoothSumStep(m: Maths, rec: Recurrence, z0: Complex, l: nat)
    ensures SmoothSum(m, rec, z0, l + 1) == SmoothSum(m, rec, z0, l) + m.exp(-m.abs(Orbit(m.pow, rec, z0, l)))
  {
    DecaySumStep(m, rec, z0, l);
  }

  /**
   * `nsmooth` when the pixel escapes at iteration k: it starts at exp(-abs(z_0)) and every
   * iteration up to and including k adds exp(-abs(z_i)), so z_0 is counted twice.
   */
  function TrajectorySum(m: Maths, rec: Recurrence, z0: Complex, k: nat): real {
    SmoothSum(m, rec, z0, k + 1)
  }

  lemma {:induction false} DecaySumBounds(m: Maths, rec: Recurrence, z0: Complex, k: nat)
    requires AbsIsModulus(m) && ExpBounds(m)
    ensures 0.0 <= DecaySum(m, rec, z0, k) <= k as real
    ensures 0 < k ==> 0.0 < DecaySum(m, rec, z0, k)
  {
    if k > 0 {
      DecaySumBounds(m, rec, z0, k - 1);
      var a := m.abs(Orbit(m.pow, rec, z0, k - 1));
      assert 0.0 <= a;
      assert 0.0 < m.exp(-a) <= 1.0;
    }
  }

  /**
   * `nsmooth` counts z_0 twice (an immediate escape gives 2 * exp(-abs(z_0))), and with k + 2
   * positive terms of at most 1 it lies in (0, k + 2].
   */
  lemma TrajectorySumBounds(m: Maths, rec: Recurrence, z0: Complex, k: nat)
    requires AbsIsModulus(m) && ExpBounds(m)
    ensures TrajectorySum(m, rec, z0, 0) == 2.0 * m.exp(-m.abs(z0))
    ensures 0.0 < TrajectorySum(m, rec, z0, k) <= (k + 2) as real
  {
    DecaySumBounds(m, rec, z0, k + 1);
    assert DecaySum(m, rec, z0, 1) == m.exp(-m.abs(Orbit(m.pow, rec, z0, 0)));
    assert 0.0 <= m.abs(z0);
    assert 0.0 < m.exp(-m.abs(z0)) <= 1.0;
  }

  /**
   * How many times the per-pixel loop body runs: through the escaping iteration, all `max_iter`
   * iterations, or the iterations before the one whose step raises.
   */
  function Iterations(e: Exit, maxIter: int): nat {
    match e
    case Escape(k) => k + 1
    case Exhausted => if maxIter < 0 then 0 else maxIter
    case Fault(k) => k
  }

  /** The loop never runs more than `max_iter` times. */
  lemma IterationsBounded(pow: (Complex, Complex) -> Complex, rec: Recurrence, z0: Complex, maxIter: int)
    ensures Iterations(ExitOf(pow, rec, z0, maxIter), maxIter) <= if maxIter < 0 then 0 else maxIter
    ensures ExitOf(pow, rec, z0, maxIter).Escape? ==> Iterations(ExitOf(pow, rec, z0, maxIter), maxIter) <= maxIter
  {
  }
}
