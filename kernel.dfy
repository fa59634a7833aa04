/**
 * The escape-time kernel: iterate z <- z*z + c from z = 0 and count the
 * steps before |z|^2 exceeds 4.0, up to the cap `max_iter`; the function
 * returns `max_iter - iter`, the iterations left over at escape. With a
 * non-negative cap, a point that never escapes therefore yields 0, and a
 * point that escapes at the first test that can fire (after one step)
 * yields max_iter - 1. A negative cap runs no iteration and yields the cap
 * itself.
 *
 * C `double` is idealised as Dafny's exact `real`: rounding, overflow to
 * infinity and NaN are not modelled, so the counts below are those of the
 * exact recurrence, not a claim of bit-equality with the compiled program.
 */
module Kernel {

  datatype Complex = Complex(re: real, im: real)

  const Zero := Complex(0.0, 0.0)

  function Add(a: Complex, b: Complex): Complex {
    Complex(a.re + b.re, a.im + b.im)
  }

  function Mul(a: Complex, b: Complex): Complex {
    Complex(a.re * b.re - a.im * b.im, a.re * b.im + a.im * b.re)
  }

  /** One step of the recurrence in the split form the plain C variants use. */
  function Step(z: Complex, c: Complex): Complex {
    Complex(z.re * z.re - z.im * z.im + c.re, 2.0 * z.re * z.im + c.im)
  }

  /** The squared-magnitude escape test, `zr*zr + zi*zi > 4.0`. */
  predicate Escaped(z: Complex) {
    z.re * z.re + z.im * z.im > 4.0
  }

  /** z_n of the orbit of 0 under z <- z*z + c. */
  function Orbit(c: Complex, n: nat): Complex {
    if n == 0 then Zero else Step(Orbit(c, n - 1), c)
  }

  function Max(a: int, b: int): int {
    if a < b then b else a
  }

  /**
   * The first index at or after `k` whose orbit point has escaped,
   * if there is one below `maxIter`; otherwise where the loop stops.
   */
  function FirstEscapeFrom(c: Complex, k: nat, maxIter: int): (r: nat)
    ensures k <= r <= Max(k, maxIter)
    ensures forall j :: k <= j < r ==> !Escaped(Orbit(c, j))
    ensures r < maxIter ==> Escaped(Orbit(c, r))
    decreases maxIter - k
  {
    if k >= maxIter then k
    else if Escaped(Orbit(c, k)) then k
    else FirstEscapeFrom(c, k + 1, maxIter)
  }

  /**
   * The value of the C loop counter when escape_time returns: the smallest
   * index below the cap whose orbit point has escaped, or the cap (0 when the
   * cap is not positive, since the loop then never runs).
   */
  function EscapeCount(c: Complex, maxIter: int): (k: nat)
    ensures k <= Max(maxIter, 0)
    ensures forall j :: 0 <= j < k ==> !Escaped(Orbit(c, j))
    ensures k < maxIter ==> Escaped(Orbit(c, k))
  {
    FirstEscapeFrom(c, 0, maxIter)
  }

  /** Any counter value with the three properties above is EscapeCount. */
  lemma EscapeCountUnique(c: Complex, maxIter: int, k: nat)
    requires k <= Max(maxIter, 0)
    requires forall j :: 0 <= j < k ==> !Escaped(Orbit(c, j))
    requires k < maxIter ==> Escaped(Orbit(c, k))
    ensures k == EscapeCount(c, maxIter)
  {
  }

  /** What escape_time returns: the iterations left at escape. */
  function EscapeValue(c: Complex, maxIter: int): (r: int)
    ensures maxIter >= 0 ==> 0 <= r <= maxIter
    ensures maxIter < 0 ==> r == maxIter
  {
    maxIter - EscapeCount(c, maxIter)
  }

  /** A point that has not escaped passes the count on to the next index. */
  lemma StepKeepsCount(c: Complex, k: nat, maxIter: int)
    requires k < maxIter && !Escaped(Orbit(c, k))
    ensures FirstEscapeFrom(c, k, maxIter) == FirstEscapeFrom(c, k + 1, maxIter)
  {
  }

  /** A point that has escaped below the cap ends the count there. */
  lemma EscapedStopsCount(c: Complex, k: nat, maxIter: int)
    requires k < maxIter && Escaped(Orbit(c, k))
    ensures FirstEscapeFrom(c, k, maxIter) == k
  {
  }

  /** escape_time of the split-form variants (zr, zi as separate doubles). */
  method EscapeTime(cr: real, ci: real, maxIter: int) returns (r: int)
    ensures r == EscapeValue(Complex(cr, ci), maxIter)
    ensures maxIter >= 0 ==> 0 <= r <= maxIter
  {
    ghost var c := Complex(cr, ci);
    var zr, zi := 0.0, 0.0;
    var iter := 0;
    while iter < maxIter
      invariant 0 <= iter <= Max(maxIter, 0)
      invariant Complex(zr, zi) == Orbit(c, iter)
      invariant EscapeCount(c, maxIter) == FirstEscapeFrom(c, iter, maxIter)
    {
      var escaped, nextR, nextI := SplitBody(zr, zi, cr, ci);
      if escaped {
        EscapedStopsCount(c, iter, maxIter);
        break;
      }
      zr, zi := nextR, nextI;
      StepKeepsCount(c, iter, maxIter);
      iter := iter + 1;
    }
    r := maxIter - iter;
  }

  /**
   * One pass of the split-form loop body: square both parts, test the
   * squared magnitude against 4.0, and if the point is still inside take
   * the step `(zr2 - zi2 + cr, 2.0 * zr * zi + ci)`.
   */
  method SplitBody(zr: real, zi: real, cr: real, ci: real) returns (escaped: bool, nextR: real, nextI: real)
    ensures escaped == Escaped(Complex(zr, zi))
    ensures !escaped ==> Complex(nextR, nextI) == Step(Complex(zr, zi), Complex(cr, ci))
  {
    var zr2 := zr * zr;
    var zi2 := zi * zi;
    escaped := zr2 + zi2 > 4.0;
    nextR, nextI := zr, zi;
    if !escaped {
      var tmp := zr2 - zi2 + cr;
      nextI := 2.0 * zr * zi + ci;
      nextR := tmp;
    }
  }

  /** Over exact arithmetic the complex product `z*z + c` is the split-form step. */
  lemma ComplexStepIsSplitStep(z: Complex, c: Complex)
    ensures Add(Mul(z, z), c) == Step(z, c)
  {
  }

  /** escape_time of the complex-typed variant: `z = z * z + c`. */
  method EscapeTimeComplex(c: Complex, maxIter: int) returns (r: int)
    ensures r == EscapeValue(c, maxIter)
    ensures maxIter >= 0 ==> 0 <= r <= maxIter
  {
    var z := Complex(0.0, 0.0);
    var iter := 0;
    while iter < maxIter
      invariant 0 <= iter <= Max(maxIter, 0)
      invariant z == Orbit(c, iter)
      invariant EscapeCount(c, maxIter) == FirstEscapeFrom(c, iter, maxIter)
    {
      var escaped, next := ComplexBody(z, c);
      if escaped {
        EscapedStopsCount(c, iter, maxIter);
        break;
      }
      z := next;
      StepKeepsCount(c, iter, maxIter);
      iter := iter + 1;
    }
    r := maxIter - iter;
  }

  /** One pass of the complex loop body: the magnitude test, then `z * z + c`. */
  method ComplexBody(z: Complex, c: Complex) returns (escaped: bool, next: Complex)
    ensures escaped == Escaped(z)
    ensures !escaped ==> next == Step(z, c)
  {
    escaped := z.re * z.re + z.im * z.im > 4.0;
    next := z;
    if !escaped {
      ComplexStepIsSplitStep(z, c);
      next := Add(Mul(z, z), c);
    }
  }

  /** A cap of 0 returns 0 without evaluating the recurrence. */
  lemma ZeroCapGivesZero(c: Complex)
    ensures EscapeCount(c, 0) == 0 && EscapeValue(c, 0) == 0
  {
  }

  /** z_0 = 0 never passes the test, so for a positive cap at least one step is taken. */
  lemma FirstTestNeverEscapes(c: Complex, maxIter: int)
    requires maxIter >= 1
    ensures EscapeCount(c, maxIter) >= 1
    ensures EscapeValue(c, maxIter) <= maxIter - 1
  {
    assert !Escaped(Orbit(c, 0));
  }

  lemma {:induction false} OriginOrbitStaysAtZero(n: nat)
    ensures Orbit(Zero, n) == Zero
  {
    if n > 0 {
      OriginOrbitStaysAtZero(n - 1);
    }
  }

  /** c = 0 never escapes: the loop runs to the cap and escape_time returns 0. */
  lemma OriginNeverEscapes(maxIter: int)
    requires maxIter >= 0
    ensures EscapeCount(Zero, maxIter) == maxIter
    ensures EscapeValue(Zero, maxIter) == 0
  {
    var k := EscapeCount(Zero, maxIter);
    if k < maxIter {
      OriginOrbitStaysAtZero(k);
      assert !Escaped(Orbit(Zero, k));
    }
  }

  /**
   * The step at which a point escapes does not depend on the cap: a smaller
   * cap sees the same escape step, cut off at that cap.
   */
  lemma CapIndependence(c: Complex, m1: int, m2: int)
    requires 0 <= m1 <= m2
    ensures EscapeCount(c, m1) == if EscapeCount(c, m2) < m1 then EscapeCount(c, m2) else m1
  {
    var k2 := EscapeCount(c, m2);
    var k := if k2 < m1 then k2 else m1;
    if k < m1 {
      assert Escaped(Orbit(c, k));
    }
    EscapeCountUnique(c, m1, k);
  }
}
