/** The escape-time test: iterate z := z*z + c from z = 0 until |z|^2 reaches 4
    or the iteration cap is hit.  Arithmetic is on exact reals. */
module Iteration {

  datatype Point = Point(x: real, y: real)

  const Origin: Point := Point(0.0, 0.0)

  /** Squared modulus |z|^2. */
  function Norm2(z: Point): real {
    z.x * z.x + z.y * z.y
  }

  /** One step of the quadratic recurrence z := z*z + c, written on the real
      and imaginary parts. */
  function Next(z: Point, cx: real, cy: real): Point {
    Point(z.x * z.x - z.y * z.y + cx, 2.0 * z.x * z.y + cy)
  }

  /** The n-th point of the orbit of 0 under z := z*z + c. */
  function Orbit(cx: real, cy: real, n: nat): Point {
    if n == 0 then Origin else Next(Orbit(cx, cy, n - 1), cx, cy)
  }

  /** The escape loop from state (z, iter): the number of iterations it has
      done when it stops. */
  function EscapeFrom(z: Point, cx: real, cy: real, iter: nat, maxIter: nat): (r: nat)
    decreases maxIter - iter
    ensures iter <= r
    ensures iter <= maxIter ==> r <= maxIter
  {
    if Norm2(z) < 4.0 && iter < maxIter then EscapeFrom(Next(z, cx, cy), cx, cy, iter + 1, maxIter)
    else iter
  }

  /** Iteration count of the plane point (cx, cy), at most maxIter. */
  function EscapeTime(cx: real, cy: real, maxIter: nat): (r: nat)
    ensures r <= maxIter
  {
    EscapeFrom(Origin, cx, cy, 0, maxIter)
  }

  /** The loop started from the i-th orbit point stops at the first index
      n >= i whose orbit point has |z|^2 >= 4, or at maxIter. */
  lemma {:induction false} EscapeFromOrbit(cx: real, cy: real, i: nat, maxIter: nat)
    requires i <= maxIter
    ensures var r := EscapeFrom(Orbit(cx, cy, i), cx, cy, i, maxIter);
      (forall n :: i <= n < r ==> Norm2(Orbit(cx, cy, n)) < 4.0) &&
      (r == maxIter || Norm2(Orbit(cx, cy, r)) >= 4.0)
    decreases maxIter - i
  {
    var z := Orbit(cx, cy, i);
    if Norm2(z) < 4.0 && i < maxIter {
      assert Orbit(cx, cy, i + 1) == Next(z, cx, cy);
      EscapeFromOrbit(cx, cy, i + 1, maxIter);
    }
  }

  /** EscapeTime is the first orbit index at which |z|^2 >= 4, capped at maxIter. */
  lemma EscapeTimeIsFirstEscape(cx: real, cy: real, maxIter: nat)
    ensures var r := EscapeTime(cx, cy, maxIter);
      (forall n :: 0 <= n < r ==> Norm2(Orbit(cx, cy, n)) < 4.0) &&
      (r == maxIter || Norm2(Orbit(cx, cy, r)) >= 4.0)
  {
    EscapeFromOrbit(cx, cy, 0, maxIter);
  }

  lemma {:induction false} OriginOrbitIsFixed(n: nat)
    ensures Orbit(0.0, 0.0, n) == Origin
  {
    if n > 0 {
      OriginOrbitIsFixed(n - 1);
    }
  }

  /** The point 0 never escapes: its count is the cap. */
  lemma OriginNeverEscapes(maxIter: nat)
    ensures EscapeTime(0.0, 0.0, maxIter) == maxIter
  {
    EscapeTimeIsFirstEscape(0.0, 0.0, maxIter);
    OriginOrbitIsFixed(EscapeTime(0.0, 0.0, maxIter));
  }

  /** A point with |c|^2 >= 4 escapes after exactly one iteration. */
  lemma FarPointEscapesAtOnce(cx: real, cy: real, maxIter: nat)
    requires maxIter >= 1
    requires cx * cx + cy * cy >= 4.0
    ensures EscapeTime(cx, cy, maxIter) == 1
  {
    var c := Point(cx, cy);
    assert Next(Origin, cx, cy) == c;
    assert EscapeFrom(c, cx, cy, 1, maxIter) == 1;
  }

  lemma EscapeTimeAtThreeThree()
    ensures EscapeTime(3.0, 3.0, 1000) == 1
  {
    FarPointEscapesAtOnce(3.0, 3.0, 1000);
  }

  /** The escape loop of the renderer: z starts at 0 and takes the step
      z := z*z + c (the real part through a temporary, as both parts read the
      old z) while |z|^2 < 4 and fewer than maxIter steps were taken. */
  method EscapeCount(cx: real, cy: real, maxIter: nat) returns (iter: nat)
    ensures iter == EscapeTime(cx, cy, maxIter)
  {
    var z := Origin;
    iter := 0;
    while Norm2(z) < 4.0 && iter < maxIter
      invariant iter <= maxIter
      invariant EscapeFrom(z, cx, cy, iter, maxIter) == EscapeTime(cx, cy, maxIter)
      decreases maxIter - iter
    {
      z := Next(z, cx, cy);
      iter := iter + 1;
    }
  }
}
