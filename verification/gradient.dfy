/** Gradient math of the noise sampler: the ease curve, the four constant
    gradient vectors, the 2D dot product and linear interpolation.
    Floating-point numbers are modelled by exact reals. */
module Gradient {

  /** A 2D vector of reals; also used for the corner offsets of a sample point. */
  datatype Vector = Vector(x: real, y: real)

  function Min(a: real, b: real): real { if a <= b then a else b }

  function Max(a: real, b: real): real { if a <= b then b else a }

  function Abs(a: real): (r: real)
    ensures r >= 0.0 && (r == a || r == -a)
  {
    if a < 0.0 then -a else a
  }

  /** One of the four unit diagonals (+-1, +-1). */
  predicate IsDiagonal(v: Vector) {
    (v.x == 1.0 || v.x == -1.0) && (v.y == 1.0 || v.y == -1.0)
  }

  /** The ease curve 6t^5 - 15t^4 + 10t^3, written in Horner form as the source does. */
  function Fade(t: real): (r: real)
    ensures t == 0.0 ==> r == 0.0
    ensures t == 0.5 ==> r == 0.5
    ensures t == 1.0 ==> r == 1.0
  {
    ((6.0 * t - 15.0) * t + 10.0) * t * t * t
  }

  /** The curve is point-symmetric about (1/2, 1/2). */
  lemma FadeSymmetric(t: real)
    ensures Fade(1.0 - t) == 1.0 - Fade(t)
  {
  }

  /** Fade is non-negative on the non-negative reals: the quadratic factor
      6t^2 - 15t + 10 has no real root. */
  lemma FadeNonNegative(t: real)
    requires 0.0 <= t
    ensures 0.0 <= Fade(t)
  {
    var q := (6.0 * t - 15.0) * t + 10.0;
    assert q == 6.0 * (t - 1.25) * (t - 1.25) + 0.625;
    assert q > 0.0;
    var c := t * t * t;
    MulNonNegative(t, t);
    MulNonNegative(t * t, t);
    assert c >= 0.0;
    assert Fade(t) == q * c;
  }

  /** Fade pulls values towards the nearer end of the unit interval: an
      input below 1/2 is mapped to something no larger (closer to 0), an
      input above 1/2 to something no smaller (closer to 1). The gap
      Fade(t) - t factors as t (t - 1/2) (t - 1) (6t^2 - 6t - 2), whose
      quadratic factor is at most -2 on [0, 1]. */
  lemma FadeTowardEnds(t: real)
    requires 0.0 <= t <= 1.0
    ensures t <= 0.5 ==> Fade(t) <= t
    ensures 0.5 <= t ==> t <= Fade(t)
  {
    var a := (t - 0.5) * (t - 1.0);
    var q := 6.0 * t * t - 6.0 * t - 2.0;
    assert Fade(t) - t == t * (a * q);
    MulNonNegative(t, 1.0 - t);
    assert q == -6.0 * (t * (1.0 - t)) - 2.0;
    if t <= 0.5 {
      MulNonNegative(0.5 - t, 1.0 - t);
      assert a == (0.5 - t) * (1.0 - t);
      MulNonNegative(a, -q);
      MulNonNegative(t, a * -q);
      assert Fade(t) - t == -(t * (a * -q));
    }
    if 0.5 <= t {
      MulNonNegative(t - 0.5, 1.0 - t);
      assert -a == (t - 0.5) * (1.0 - t);
      MulNonNegative(-a, -q);
      assert a * q == -a * -q;
      MulNonNegative(t, a * q);
    }
  }

  /** Fade maps the unit interval into itself. */
  lemma FadeRange(t: real)
    requires 0.0 <= t <= 1.0
    ensures 0.0 <= Fade(t) <= 1.0
  {
    FadeNonNegative(t);
    FadeNonNegative(1.0 - t);
    FadeSymmetric(t);
  }

  /** The constant gradient for a hash value, chosen by value % 4
      (non-negative for the positive divisor 4, as in the source language). */
  function ConstantVector(value: int): (v: Vector)
    ensures IsDiagonal(v)
    ensures v.y == 1.0 <==> value % 4 < 2
    ensures v.x == v.y <==> value % 4 == 0 || value % 4 == 2
  {
    var m := value % 4;
    if m == 0 then Vector(1.0, 1.0)
    else if m == 1 then Vector(-1.0, 1.0)
    else if m == 2 then Vector(-1.0, -1.0)
    else Vector(1.0, -1.0)
  }

  /** The gradient depends only on the residue of the hash modulo 4,
      negative hashes included. */
  lemma ConstantVectorPeriodic(value: int, k: int)
    ensures ConstantVector(value + 4 * k) == ConstantVector(value)
  {
    assert (value + 4 * k) % 4 == value % 4;
  }

  function Dot(a: Vector, b: Vector): real {
    a.x * b.x + a.y * b.y
  }

  /** The dot product of a unit diagonal with an offset is bounded by the
      offset's 1-norm, and vanishes for the zero offset. */
  lemma DotDiagonalBound(g: Vector, o: Vector)
    requires IsDiagonal(g)
    ensures Abs(Dot(g, o)) <= Abs(o.x) + Abs(o.y)
    ensures o == Vector(0.0, 0.0) ==> Dot(g, o) == 0.0
  {
    assert Abs(g.x * o.x) == Abs(o.x);
    assert Abs(g.y * o.y) == Abs(o.y);
  }

  /** Linear interpolation from a (at t = 0) to b (at t = 1). */
  function Lerp(t: real, a: real, b: real): (r: real)
    ensures t == 0.0 ==> r == a
    ensures t == 1.0 ==> r == b
  {
    a + t * (b - a)
  }

  /** For a weight in the unit interval the interpolant lies between its ends. */
  lemma LerpBetween(t: real, a: real, b: real)
    requires 0.0 <= t <= 1.0
    ensures Min(a, b) <= Lerp(t, a, b) <= Max(a, b)
  {
    MulNonNegative(t, Abs(b - a));
    MulNonNegative(1.0 - t, Abs(b - a));
  }

  lemma MulNonNegative(p: real, q: real)
    requires 0.0 <= p && 0.0 <= q
    ensures 0.0 <= p * q
  {
  }
}
