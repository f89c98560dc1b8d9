/** The colour rule: black for points that never escaped, otherwise three
    polynomials of the intensity t = clamp(iter / 255) to [0, 1]. */
module Palette {

  datatype Rgb = Rgb(r: int, g: int, b: int)

  const Black: Rgb := Rgb(0, 0, 0)

  /** Every channel is a value a byte can hold. */
  predicate InByteRange(c: Rgb) {
    0 <= c.r < 256 && 0 <= c.g < 256 && 0 <= c.b < 256
  }

  /** min(1, max(0, x)). */
  function Clamp01(x: real): (t: real)
    ensures 0.0 <= t <= 1.0
    ensures 0.0 <= x <= 1.0 ==> t == x
  {
    if x < 0.0 then 0.0 else if x > 1.0 then 1.0 else x
  }

  /** Intensity of an iteration count, normalised against the constant 255
      (not against the iteration cap). */
  function Intensity(iter: nat): (t: real)
    ensures 0.0 <= t <= 1.0
    ensures iter == 0 ==> t == 0.0
    ensures iter >= 255 ==> t == 1.0
  {
    Clamp01(iter as real / 255.0)
  }

  function Red(t: real): int {
    (9.0 * (1.0 - t) * t * t * t * 255.0).Floor
  }

  function Green(t: real): int {
    (15.0 * (1.0 - t) * (1.0 - t) * t * t * 255.0).Floor
  }

  function Blue(t: real): int {
    (8.5 * (1.0 - t) * (1.0 - t) * (1.0 - t) * t * 255.0).Floor
  }

  /** Colour of a pixel whose escape loop ran `iter` times out of `maxIter`. */
  function Colour(iter: nat, maxIter: nat): (c: Rgb)
    ensures InByteRange(c)
  {
    if iter == maxIter then Black
    else
      var t := Intensity(iter);
      ChannelsInByteRange(t);
      Rgb(Red(t), Green(t), Blue(t))
  }

  lemma MulNonNegative(a: real, b: real)
    requires a >= 0.0 && b >= 0.0
    ensures a * b >= 0.0
  {
  }

  lemma SquareNonNegative(a: real)
    ensures a * a >= 0.0
  {
    if a < 0.0 {
      MulNonNegative(-a, -a);
      assert (-a) * (-a) == a * a;
    } else {
      MulNonNegative(a, a);
    }
  }

  /** (1 - t) * t^3 <= 27/256 on [0, 1]; the difference factors as
      (t - 3/4)^2 * (t^2 + t/2 + 3/16). */
  lemma CubicBound(t: real)
    requires 0.0 <= t <= 1.0
    ensures 0.0 <= (1.0 - t) * t * t * t <= 27.0 / 256.0
  {
    var d := (t - 0.75) * (t - 0.75);
    var q := t * t + t / 2.0 + 3.0 / 16.0;
    assert 27.0 / 256.0 - (1.0 - t) * t * t * t == d * q;
    SquareNonNegative(t - 0.75);
    SquareNonNegative(t);
    MulNonNegative(d, q);
    MulNonNegative(t * t, t);
    MulNonNegative(1.0 - t, t * t * t);
  }

  /** (1 - t)^2 * t^2 <= 1/16 on [0, 1], because (1 - t) * t <= 1/4. */
  lemma QuarticBound(t: real)
    requires 0.0 <= t <= 1.0
    ensures 0.0 <= (1.0 - t) * (1.0 - t) * t * t <= 1.0 / 16.0
  {
    var u := (1.0 - t) * t;
    assert 0.25 - u == (t - 0.5) * (t - 0.5);
    SquareNonNegative(t - 0.5);
    MulNonNegative(1.0 - t, t);
    MulNonNegative(u, 0.25 - u);
    MulNonNegative(u, u);
    assert (1.0 - t) * (1.0 - t) * t * t == u * u;
  }

  lemma ChannelsInByteRange(t: real)
    requires 0.0 <= t <= 1.0
    ensures 0 <= Red(t) < 256 && 0 <= Green(t) < 256 && 0 <= Blue(t) < 256
  {
    CubicBound(t);
    var p := (1.0 - t) * t * t * t;
    assert 9.0 * (1.0 - t) * t * t * t * 255.0 == 2295.0 * p;
    QuarticBound(t);
    var q := (1.0 - t) * (1.0 - t) * t * t;
    assert 15.0 * (1.0 - t) * (1.0 - t) * t * t * 255.0 == 3825.0 * q;
    var s := 1.0 - t;
    CubicBound(s);
    var b := (1.0 - s) * s * s * s;
    assert 8.5 * (1.0 - t) * (1.0 - t) * (1.0 - t) * t * 255.0 == 2167.5 * b;
  }

  /** The colour is black at the cap (the point is taken to be in the set),
      at zero iterations (t = 0) and from 255 iterations on (t = 1). */
  lemma BlackBoundaries(iter: nat, maxIter: nat)
    requires iter == maxIter || iter == 0 || iter >= 255
    ensures Colour(iter, maxIter) == Black
  {
    if iter != maxIter {
      var t := Intensity(iter);
      assert t == 0.0 || t == 1.0;
      assert (1.0 - t) * t == 0.0;
    }
  }
}
