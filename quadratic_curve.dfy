/**
 * Quadratic curves `x0 + x1*t + x2*t^2` (`src/quadratic_curve.rs`) over the
 * scalar instance of the inner-product space, where a point is a scalar and
 * the inner product is the product: evaluation and derivatives, the Bezier
 * form, subdivision, degree elevation of a linear curve, the two linear
 * approximations, the closed-form speed and arc length, the arc-length
 * inversion loop and the nearest-point selection loop.
 */
module QuadraticCurves {

  import opened Scalars
  import opened Options
  import LinearCurves
  import RootSolver

  /** The monomial coefficients of `x0 + x1*t + x2*t^2`. */
  datatype QuadraticCurve = QuadraticCurve(x0: real, x1: real, x2: real)

  function Evaluate(c: QuadraticCurve, t: real): real {
    c.x0 + (c.x1 + c.x2 * t) * t
  }

  function EvaluateFirstDerivative(c: QuadraticCurve, t: real): real {
    c.x1 + c.x2 * t * 2.0
  }

  function EvaluateSecondDerivative(c: QuadraticCurve): real {
    c.x2 * 2.0
  }

  /** The curve through the Bezier control points `b0`, `b1`, `b2`. */
  function FromBezier(b0: real, b1: real, b2: real): QuadraticCurve {
    QuadraticCurve(b0, b0 * -2.0 + b1 * 2.0, b0 - b1 * 2.0 + b2)
  }

  /** The Bezier control points of the curve. */
  function ToBezier(c: QuadraticCurve): (real, real, real) {
    (c.x0, c.x0 + c.x1 / 2.0, c.x0 + c.x1 + c.x2)
  }

  /** Subdivision at `u` into the pieces covering `[0, u]` and `[u, 1]`. */
  function Subdivide(c: QuadraticCurve, u: real): (QuadraticCurve, QuadraticCurve) {
    var x1u := c.x1 * u;
    var x2u := c.x2 * u;
    var x2u2 := x2u * u;
    var w := 1.0 - u;
    (QuadraticCurve(c.x0, x1u, x2u2),
     QuadraticCurve(c.x0 + x1u + x2u2, (c.x1 + x2u * 2.0) * w, c.x2 * w * w))
  }

  /** Degree elevation of a linear curve (`to_quadratic` of `src/linear_curve.rs`). */
  function ToQuadratic(l: LinearCurves.LinearCurve): QuadraticCurve {
    QuadraticCurve(l.x0, l.x1, 0.0)
  }

  /** The line minimising the largest error over `[0, 1]`. */
  function ErrorMinimizingLinearApproximation(c: QuadraticCurve): LinearCurves.LinearCurve {
    LinearCurves.LinearCurve(c.x0 - c.x2 / 8.0, c.x1 + c.x2)
  }

  /** The line through the curve's two end points. */
  function ContinuityPreservingLinearApproximation(c: QuadraticCurve): LinearCurves.LinearCurve {
    LinearCurves.LinearCurve(c.x0, c.x1 + c.x2)
  }

  // ----- Speed and arc length -----

  /** The coefficients of the squared speed `c + b*u + a*u^2`, in the source's order. */
  datatype Coefficients = Coefficients(c: real, b: real, a: real)

  /**
   * The squared-speed coefficients `<x1, x1>`, `4<x1, x2>` and `4<x2, x2>`.
   * Over the scalars the quadratic is a perfect square, so its discriminant
   * vanishes.
   */
  function SpeedCoefficients(curve: QuadraticCurve): (k: Coefficients)
    ensures k.c >= 0.0 && k.a >= 0.0
    ensures k.b * k.b == 4.0 * k.a * k.c
  {
    Coefficients(curve.x1 * curve.x1, curve.x1 * curve.x2 * 4.0, curve.x2 * curve.x2 * 4.0)
  }

  /** All three speed coefficients vanish exactly for a curve that does not move. */
  lemma SpeedCoefficientsVanish(curve: QuadraticCurve)
    ensures SpeedCoefficients(curve) == Coefficients(0.0, 0.0, 0.0) <==> curve.x1 == 0.0 && curve.x2 == 0.0
  {
    var k := SpeedCoefficients(curve);
    if k.c == 0.0 && k.a == 0.0 {
      SquareZero(curve.x1);
      assert curve.x2 * curve.x2 == 0.0;
      SquareZero(curve.x2);
    }
  }

  function SpeedFromCoefficients(m: Transcendentals, u: real, k: Coefficients): real {
    Sqrt(m, k.c + u * (k.b + k.a * u))
  }

  function Speed(m: Transcendentals, curve: QuadraticCurve, u: real): real {
    SpeedFromCoefficients(m, u, SpeedCoefficients(curve))
  }

  /**
   * The closed-form arc length from `0` to `u` of a curve whose squared
   * speed has the coefficients `k`.  The source divides by `2*sqrt(a)` and
   * by `p0 + sqrt(c)`; the two guards stand where a float division by zero
   * would give an infinity, and `LengthGuardsNotTaken` shows that with an
   * exact square root and squared norms as coefficients neither is taken.
   */
  function LengthFromCoefficients(m: Transcendentals, u: real, k: Coefficients): real {
    if Abs(k.a) == 0.0 then
      u * Sqrt(m, k.c)
    else
      var z := Sqrt(m, k.a);
      if z == 0.0 then u * Sqrt(m, k.c) else CurvedLength(m, u, k, z)
  }

  /** The closed form for a nonzero quadratic coefficient whose square root is `z`. */
  function CurvedLength(m: Transcendentals, u: real, k: Coefficients, z: real): (r: real)
    requires z != 0.0
    ensures u == 0.0 && LnOfOne(m) ==> r == 0.0
  {
    var n := 1.0 / (2.0 * z);
    var p0 := k.b * n;
    var p1 := u * z + p0;
    var d := k.c - p0 * p0;
    var s0 := Sqrt(m, k.c);
    var s1 := Sqrt(m, p1 * p1 + d);
    StartVanishes(m, u, z, k.c, n, p0, p1, d, s0, s1);
    ClosedForm(m, n, p0, p1, d, s0, s1)
  }

  /**
   * The closed form `n*(p1*s1 - p0*s0 + d*ln((p1 + s1)/(p0 + s0)))` of the
   * arc length, whose logarithmic term is dropped when `d` is zero.
   */
  function ClosedForm(m: Transcendentals, n: real, p0: real, p1: real, d: real, s0: real, s1: real): real {
    if Abs(d) == 0.0 || p0 + s0 == 0.0 then
      n * (p1 * s1 - p0 * s0)
    else
      n * (p1 * s1 - p0 * s0 + d * Ln(m, (p1 + s1) / (p0 + s0)))
  }

  /** `p0 + sqrt(c)` vanishes only if `c == p0^2`. */
  lemma LogDenominator(c: real, p0: real, s0: real)
    requires 0.0 <= s0 && s0 * s0 == c
    ensures Abs(c - p0 * p0) != 0.0 ==> p0 + s0 != 0.0
  {
    assert (p0 + s0) * (s0 - p0) == c - p0 * p0;
  }

  function Length(m: Transcendentals, curve: QuadraticCurve, u: real): real {
    LengthFromCoefficients(m, u, SpeedCoefficients(curve))
  }

  // ----- Evaluation and the Bezier form -----

  /** Bezier points to coefficients and back is the identity. */
  lemma BezierRoundTrip(b0: real, b1: real, b2: real)
    ensures ToBezier(FromBezier(b0, b1, b2)) == (b0, b1, b2)
  {
  }

  /** Coefficients to Bezier points and back is the identity. */
  lemma MonomialRoundTrip(c: QuadraticCurve)
    ensures FromBezier(ToBezier(c).0, ToBezier(c).1, ToBezier(c).2) == c
  {
  }

  /** The curve starts at its first Bezier point and ends at its last, `x0 + x1 + x2`. */
  lemma EvaluateEndpoints(c: QuadraticCurve)
    ensures Evaluate(c, 0.0) == c.x0 == ToBezier(c).0
    ensures Evaluate(c, 1.0) == c.x0 + c.x1 + c.x2 == ToBezier(c).2
  {
  }

  /** The curve through three Bezier points is their Bernstein combination. */
  lemma BernsteinForm(b0: real, b1: real, b2: real, t: real)
    ensures Evaluate(FromBezier(b0, b1, b2), t)
        == (1.0 - t) * (1.0 - t) * b0 + 2.0 * (1.0 - t) * t * b1 + t * t * b2
  {
  }

  /** The derivatives are exact: the curve is its own second-order Taylor expansion at every `t`. */
  lemma TaylorExpansion(c: QuadraticCurve, t: real, h: real)
    ensures Evaluate(c, t + h)
        == Evaluate(c, t) + EvaluateFirstDerivative(c, t) * h + EvaluateSecondDerivative(c) * h * h / 2.0
    ensures EvaluateFirstDerivative(c, t + h) == EvaluateFirstDerivative(c, t) + EvaluateSecondDerivative(c) * h
  {
  }

  /** The values at one half of `(1, 1, 1)`. */
  lemma EvaluateExample()
    ensures Evaluate(QuadraticCurve(1.0, 1.0, 1.0), 0.5) == 1.75
    ensures EvaluateFirstDerivative(QuadraticCurve(1.0, 1.0, 1.0), 0.5) == 2.0
    ensures EvaluateSecondDerivative(QuadraticCurve(1.0, 1.0, 1.0)) == 2.0
  {
  }

  // ----- Subdivision -----

  /** The left piece is `(x0, x1*u, x2*u^2)` and traces `[0, u]`. */
  lemma SubdivideLeft(c: QuadraticCurve, u: real, s: real)
    ensures Subdivide(c, u).0 == QuadraticCurve(c.x0, c.x1 * u, c.x2 * u * u)
    ensures Evaluate(Subdivide(c, u).0, s) == Evaluate(c, u * s)
  {
  }

  /** The right piece traces `[u, 1]` and starts where the left piece ends. */
  lemma SubdivideRight(c: QuadraticCurve, u: real, s: real)
    ensures Evaluate(Subdivide(c, u).1, s) == Evaluate(c, u + (1.0 - u) * s)
    ensures Subdivide(c, u).1.x0 == Evaluate(Subdivide(c, u).0, 1.0) == Evaluate(c, u)
    ensures Evaluate(Subdivide(c, u).1, 1.0) == Evaluate(c, 1.0)
  {
  }

  /** Splitting `(1, 1, 1)` at a quarter. */
  lemma SubdivideExample()
    ensures Subdivide(QuadraticCurve(1.0, 1.0, 1.0), 0.25).0 == QuadraticCurve(1.0, 0.25, 0.0625)
    ensures Subdivide(QuadraticCurve(1.0, 1.0, 1.0), 0.25).1 == QuadraticCurve(1.3125, 1.125, 0.5625)
  {
  }

  // ----- Degree elevation and the linear approximations -----

  /** The elevated line evaluates as the line. */
  lemma ToQuadraticAgrees(l: LinearCurves.LinearCurve, t: real)
    ensures Evaluate(ToQuadratic(l), t) == LinearCurves.Evaluate(l, t)
    ensures EvaluateFirstDerivative(ToQuadratic(l), t) == LinearCurves.EvaluateDerivative(l)
  {
  }

  /** The elevated line has the line's speed. */
  lemma ToQuadraticSpeed(m: Transcendentals, l: LinearCurves.LinearCurve, t: real)
    ensures Speed(m, ToQuadratic(l), t) == LinearCurves.Speed(m, l)
  {
    var k := SpeedCoefficients(ToQuadratic(l));
    SpeedWithoutVariation(m, t, k);
    SqrtCongruent(m, k.c, Inner(l.x1, l.x1));
  }

  /** A squared speed with only a constant term gives the constant speed `sqrt(c)`. */
  lemma SpeedWithoutVariation(m: Transcendentals, u: real, k: Coefficients)
    requires k.b == 0.0 && k.a == 0.0
    ensures SpeedFromCoefficients(m, u, k) == Sqrt(m, k.c)
  {
    assert k.c + u * (k.b + k.a * u) == k.c;
  }

  /** The elevated line has the line's arc length. */
  lemma ToQuadraticLength(m: Transcendentals, l: LinearCurves.LinearCurve, t: real)
    ensures Length(m, ToQuadratic(l), t) == LinearCurves.Length(m, l, t)
  {
    var k := SpeedCoefficients(ToQuadratic(l));
    LengthWithoutQuadraticTerm(m, t, k);
    SqrtCongruent(m, k.c, Inner(l.x1, l.x1));
  }

  /** Both approximations of an elevated line give the line back. */
  lemma ApproximationsOfLine(l: LinearCurves.LinearCurve)
    ensures ErrorMinimizingLinearApproximation(ToQuadratic(l)) == l
    ensures ContinuityPreservingLinearApproximation(ToQuadratic(l)) == l
  {
  }

  /** The error of the minimising line is `x2*(t^2 - t + 1/8)`. */
  lemma ErrorMinimizingError(c: QuadraticCurve, t: real)
    ensures Evaluate(c, t) - LinearCurves.Evaluate(ErrorMinimizingLinearApproximation(c), t)
        == c.x2 * (t * t - t + 0.125)
  {
  }

  /**
   * The error of the minimising line is at most `|x2|/8` over `[0, 1]`;
   * `ErrorMinimizingEquioscillates` shows it is reached with alternating
   * signs at `0`, `1/2` and `1`.
   */
  lemma ErrorMinimizingBound(c: QuadraticCurve, t: real)
    requires 0.0 <= t <= 1.0
    ensures Abs(Evaluate(c, t) - LinearCurves.Evaluate(ErrorMinimizingLinearApproximation(c), t))
        <= Abs(c.x2) / 8.0
  {
    ErrorMinimizingError(c, t);
    ErrorShapeBound(t);
    ScaledBound(c.x2, t * t - t + 0.125);
  }

  /** `t^2 - t + 1/8` lies in `[-1/8, 1/8]` on `[0, 1]`. */
  lemma ErrorShapeBound(t: real)
    requires 0.0 <= t <= 1.0
    ensures -0.125 <= t * t - t + 0.125 <= 0.125
  {
    assert t * t - t + 0.125 == (t - 0.5) * (t - 0.5) - 0.125;
    assert (t - 0.5) * (t - 0.5) <= 0.25 by {
      assert 0.25 - (t - 0.5) * (t - 0.5) == t * (1.0 - t);
      MulNonNegative(t, 1.0 - t);
    }
    assert (t - 0.5) * (t - 0.5) >= 0.0 by {
      if t != 0.5 { SquarePositive(t - 0.5); }
    }
  }

  /** A factor in `[-1/8, 1/8]` scales by at most an eighth. */
  lemma ScaledBound(x: real, g: real)
    requires -0.125 <= g <= 0.125
    ensures Abs(x * g) <= Abs(x) / 8.0
  {
    if x >= 0.0 {
      MulNonNegative(x, 0.125 - g);
      MulNonNegative(x, g + 0.125);
    } else {
      MulNonNegative(-x, 0.125 - g);
      MulNonNegative(-x, g + 0.125);
    }
  }

  /** The extreme errors of the minimising line. */
  lemma ErrorMinimizingEquioscillates(c: QuadraticCurve)
    ensures Evaluate(c, 0.0) - LinearCurves.Evaluate(ErrorMinimizingLinearApproximation(c), 0.0) == c.x2 / 8.0
    ensures Evaluate(c, 0.5) - LinearCurves.Evaluate(ErrorMinimizingLinearApproximation(c), 0.5) == -c.x2 / 8.0
    ensures Evaluate(c, 1.0) - LinearCurves.Evaluate(ErrorMinimizingLinearApproximation(c), 1.0) == c.x2 / 8.0
  {
  }

  /** The continuity-preserving line agrees with the curve at both end points, with error `x2*(t^2 - t)`. */
  lemma ContinuityPreservingEndpoints(c: QuadraticCurve, t: real)
    ensures LinearCurves.Evaluate(ContinuityPreservingLinearApproximation(c), 0.0) == Evaluate(c, 0.0)
    ensures LinearCurves.Evaluate(ContinuityPreservingLinearApproximation(c), 1.0) == Evaluate(c, 1.0)
    ensures Evaluate(c, t) - LinearCurves.Evaluate(ContinuityPreservingLinearApproximation(c), t)
        == c.x2 * (t * t - t)
  {
  }

  // ----- Properties of speed and length -----

  /** With an exact square root the speed is the magnitude of the first derivative. */
  lemma SpeedIsDerivativeNorm(m: Transcendentals, curve: QuadraticCurve, u: real)
    requires SqrtExact(m)
    ensures Speed(m, curve, u) >= 0.0
    ensures Speed(m, curve, u) * Speed(m, curve, u)
        == EvaluateFirstDerivative(curve, u) * EvaluateFirstDerivative(curve, u)
  {
    var k := SpeedCoefficients(curve);
    var dv := EvaluateFirstDerivative(curve, u);
    assert k.c + u * (k.b + k.a * u) == dv * dv;
  }

  /**
   * The arc length from `0` to `0` is zero on every branch, given only that
   * `ln(1) == 0`: at `u == 0` the closed form has `p1 == p0` and
   * `s1 == sqrt(p0^2 + d) == sqrt(c) == s0`, so both terms cancel.
   */
  lemma LengthAtZero(m: Transcendentals, curve: QuadraticCurve)
    requires LnOfOne(m)
    ensures Length(m, curve, 0.0) == 0.0
  {
    var k := SpeedCoefficients(curve);
    if Abs(k.a) != 0.0 && Sqrt(m, k.a) != 0.0 {
      assert CurvedLength(m, 0.0, k, Sqrt(m, k.a)) == 0.0;
    }
  }

  /**
   * At `u == 0` the end point `p1` is the centre `p0`, so `p1^2 + d == c` and
   * `s1 == s0`: the closed form then vanishes once `ln(1) == 0`.
   */
  lemma StartVanishes(m: Transcendentals, u: real, z: real, c: real, n: real, p0: real, p1: real, d: real, s0: real, s1: real)
    requires p1 == u * z + p0 && d == c - p0 * p0
    requires s0 == Sqrt(m, c) && s1 == Sqrt(m, p1 * p1 + d)
    ensures u == 0.0 && LnOfOne(m) ==> ClosedForm(m, n, p0, p1, d, s0, s1) == 0.0
  {
    if u == 0.0 && LnOfOne(m) {
      assert p1 * p1 + d == c;
      SqrtCongruent(m, p1 * p1 + d, c);
      ClosedFormAtStart(m, n, p0, p1, d, s0, s1);
    }
  }

  /** With `p1 == p0` and `s1 == s0` the closed form vanishes. */
  lemma ClosedFormAtStart(m: Transcendentals, n: real, p0: real, p1: real, d: real, s0: real, s1: real)
    requires LnOfOne(m) && p1 == p0 && s1 == s0
    ensures ClosedForm(m, n, p0, p1, d, s0, s1) == 0.0
  {
    if !(Abs(d) == 0.0 || p0 + s0 == 0.0) {
      assert (p0 + s0) / (p0 + s0) == 1.0;
    }
  }

  /** A squared speed without a quadratic term gives the length `u*sqrt(c)`. */
  lemma LengthWithoutQuadraticTerm(m: Transcendentals, u: real, k: Coefficients)
    requires k.a == 0.0
    ensures LengthFromCoefficients(m, u, k) == u * Sqrt(m, k.c)
  {
  }

  /**
   * With an exact square root and non-negative `c` and `a`, the guards of
   * the closed form are never taken: `sqrt(a)` is positive when `a` is
   * nonzero, and `p0 + sqrt(c)` is nonzero whenever `d` is.
   */
  lemma LengthGuardsNotTaken(m: Transcendentals, k: Coefficients, p0: real)
    requires SqrtExact(m) && k.c >= 0.0 && k.a >= 0.0
    ensures Abs(k.a) != 0.0 ==> Sqrt(m, k.a) != 0.0
    ensures Abs(k.c - p0 * p0) != 0.0 ==> p0 + Sqrt(m, k.c) != 0.0
  {
    SqrtZero(m, k.a);
    LogDenominator(k.c, p0, Sqrt(m, k.c));
  }

  /**
   * On the scalar instance the logarithmic term is never reached: for a
   * curve with a quadratic term and an exact square root, the closed form is
   * entered with `d == c - p0^2` equal to zero, because `b^2 == 4*a*c` makes
   * `p0 == b/(2*sqrt(a))` a square root of `c`.
   */
  lemma LogTermNeverReached(m: Transcendentals, curve: QuadraticCurve)
    requires SqrtExact(m) && curve.x2 != 0.0
    ensures var k := SpeedCoefficients(curve);
      && Abs(k.a) != 0.0
      && Sqrt(m, k.a) != 0.0
      && var p0 := k.b * (1.0 / (2.0 * Sqrt(m, k.a)));
      Abs(k.c - p0 * p0) == 0.0
  {
    var k := SpeedCoefficients(curve);
    if k.a == 0.0 {
      assert curve.x2 * curve.x2 == 0.0;
      SquareZero(curve.x2);
      assert false;
    }
    SqrtZero(m, k.a);
    var z := Sqrt(m, k.a);
    assert 0.0 < z;
    assert z * z == k.a;
    var w := 2.0 * z;
    var n := 1.0 / w;
    assert w * n == 1.0 by { DivCancels(1.0, w); }
    var p0 := k.b * n;
    assert p0 * w == k.b * (w * n);
    CenterSquaresToConstant(k, z, p0);
  }

  /** From `z^2 == a != 0`, `2*z*p0 == b` and `b^2 == 4*a*c` follows `p0^2 == c`. */
  lemma CenterSquaresToConstant(k: Coefficients, z: real, p0: real)
    requires z * z == k.a && k.a != 0.0 && k.b * k.b == 4.0 * k.a * k.c
    requires p0 * (2.0 * z) == k.b
    ensures k.c - p0 * p0 == 0.0
  {
    assert k.b * k.b == (p0 * p0) * (4.0 * (z * z));
    assert (4.0 * k.a) * (p0 * p0) == (4.0 * k.a) * k.c;
    MulCancels(4.0 * k.a, p0 * p0, k.c);
  }

  /** The curve that does not move has length zero. */
  lemma LengthExampleStill(m: Transcendentals)
    requires Sqrt(m, 0.0) == 0.0
    ensures Length(m, QuadraticCurve(0.0, 0.0, 0.0), 1.0) == 0.0
  {
    var k := SpeedCoefficients(QuadraticCurve(0.0, 0.0, 0.0));
    assert k == Coefficients(0.0, 0.0, 0.0);
    LengthWithoutQuadraticTerm(m, 1.0, k);
  }

  /** The unit line `(0, 1, 0)` has length one. */
  lemma LengthExampleLine(m: Transcendentals)
    requires Sqrt(m, 1.0) == 1.0
    ensures Length(m, QuadraticCurve(0.0, 1.0, 0.0), 1.0) == 1.0
  {
    var k := SpeedCoefficients(QuadraticCurve(0.0, 1.0, 0.0));
    assert k == Coefficients(1.0, 0.0, 0.0);
    LengthWithoutQuadraticTerm(m, 1.0, k);
  }

  /**
   * The Bezier curve `(0, 2, 1)`, whose speed `|4 - 6t|` turns at `t == 2/3`,
   * has length `5/3`.
   */
  lemma LengthExampleTurning(m: Transcendentals)
    requires Sqrt(m, 36.0) == 6.0 && Sqrt(m, 16.0) == 4.0 && Sqrt(m, 4.0) == 2.0
    ensures FromBezier(0.0, 2.0, 1.0) == QuadraticCurve(0.0, 4.0, -3.0)
    ensures Length(m, QuadraticCurve(0.0, 4.0, -3.0), 1.0) == 5.0 / 3.0
  {
    assert SpeedCoefficients(QuadraticCurve(0.0, 4.0, -3.0)) == Coefficients(16.0, -48.0, 36.0);
  }


  // ----- Inverting the arc length -----

  /**
   * The false-position estimate `l - (r - l)*fl/(fr - fl)`: where the secant
   * through `(l, fl)` and `(r, fr)` crosses zero.  When `fr == fl` (both
   * zero inside a bracket) the division is replaced by the left end.
   */
  function FalsePosition(l: real, r: real, fl: real, fr: real): real {
    if fr == fl then l else l - (r - l) * fl / (fr - fl)
  }

  /** Inside a bracket the estimate stays inside, and the secant vanishes there. */
  lemma FalsePositionInBracket(l: real, r: real, fl: real, fr: real)
    requires l <= r && fl <= 0.0 <= fr
    ensures l <= FalsePosition(l, r, fl, fr) <= r
    ensures fr != fl ==> fl * (r - FalsePosition(l, r, fl, fr)) + fr * (FalsePosition(l, r, fl, fr) - l) == 0.0
  {
    if fr != fl {
      var w := fr - fl;
      var p := (r - l) * -fl;
      assert 0.0 < w;
      assert 0.0 <= p by { MulNonNegative(r - l, -fl); }
      assert p <= (r - l) * w by { MulNonNegative(r - l, fr); }
      var t := p / w;
      assert w * t == p by { QuotientSolves(p, w, t); }
      assert (r - l) * fl == -p;
      assert (r - l) * fl / w == -t;
      assert FalsePosition(l, r, fl, fr) == l + t;
      assert 0.0 <= t by {
        if t < 0.0 { MulPositive(w, -t); }
      }
      assert t <= r - l by {
        if t > r - l { MulPositive(w, t - (r - l)); }
      }
      assert fl * (r - (l + t)) + fr * t == fl * (r - l) + w * t;
    }
  }

  /**
   * The state of the search for a parameter: the bracket `[l, r]`, the
   * length errors `fl` and `fr` at its ends, and the current estimate `x`.
   */
  datatype Bracket = Bracket(l: real, fl: real, r: real, fr: real, x: real)

  /**
   * What the search keeps true: `0 <= l <= x <= r <= 1`, the error is at most
   * zero at `l` and at least zero at `r`, `fr` is the error at `r`, and `fl`
   * is the error at `l` once `l` has moved off `0`.
   */
  ghost predicate Brackets(m: Transcendentals, k: Coefficients, v: real, b: Bracket) {
    && 0.0 <= b.l <= b.x <= b.r <= 1.0
    && b.fl <= 0.0 <= b.fr
    && b.fr == LengthFromCoefficients(m, b.r, k) - v
    && (b.l == 0.0 || b.fl == LengthFromCoefficients(m, b.l, k) - v)
  }

  /**
   * One pass of the loop that did not stop on the tolerance: the estimate
   * replaces the end whose error has its sign, then a Newton step is taken,
   * and false position is used instead when the speed is zero or the step
   * leaves the new bracket.
   */
  function Step(m: Transcendentals, k: Coefficients, v: real, b: Bracket): Bracket {
    var fx := LengthFromCoefficients(m, b.x, k) - v;
    var l, fl, r, fr := if fx > 0.0 then b.l else b.x, if fx > 0.0 then b.fl else fx,
      if fx > 0.0 then b.x else b.r, if fx > 0.0 then fx else b.fr;
    var speed := SpeedFromCoefficients(m, b.x, k);
    var newton := if speed != 0.0 then b.x - fx / speed else b.x;
    var x := if speed == 0.0 || newton < l || newton > r then FalsePosition(l, r, fl, fr) else newton;
    Bracket(l, fl, r, fr, x)
  }

  lemma StepBrackets(m: Transcendentals, k: Coefficients, v: real, b: Bracket)
    requires Brackets(m, k, v, b)
    ensures Brackets(m, k, v, Step(m, k, v, b))
  {
    var fx := LengthFromCoefficients(m, b.x, k) - v;
    if fx > 0.0 {
      FalsePositionInBracket(b.l, b.x, b.fl, fx);
    } else {
      FalsePositionInBracket(b.x, b.r, fx, b.fr);
    }
  }

  /** How a search ends: its last state, whether it met the tolerance, and how many passes it made. */
  datatype Outcome = Outcome(last: Bracket, converged: bool, passes: nat)

  /** The loop of the search from state `b` with `n` iterations left. */
  function Search(m: Transcendentals, k: Coefficients, v: real, tolerance: real, b: Bracket, n: nat): Outcome
    decreases n
  {
    if n == 0 then Outcome(b, false, 0)
    else if Abs(LengthFromCoefficients(m, b.x, k) - v) < tolerance then Outcome(b, true, 0)
    else
      var o := Search(m, k, v, tolerance, Step(m, k, v, b), n - 1);
      Outcome(o.last, o.converged, o.passes + 1)
  }

  /**
   * A search stops early only on the tolerance: then the length error of its
   * last estimate is below it, and otherwise it used every iteration.
   */
  lemma {:induction false} SearchStops(m: Transcendentals, k: Coefficients, v: real, tolerance: real, b: Bracket, n: nat)
    ensures Search(m, k, v, tolerance, b, n).passes <= n
    ensures Search(m, k, v, tolerance, b, n).converged ==>
      Abs(LengthFromCoefficients(m, Search(m, k, v, tolerance, b, n).last.x, k) - v) < tolerance
    ensures !Search(m, k, v, tolerance, b, n).converged ==> Search(m, k, v, tolerance, b, n).passes == n
    decreases n
  {
    if n > 0 && !(Abs(LengthFromCoefficients(m, b.x, k) - v) < tolerance) {
      SearchStops(m, k, v, tolerance, Step(m, k, v, b), n - 1);
    }
  }

  /** Every state of a search that starts inside a bracket stays inside one. */
  lemma {:induction false} SearchBrackets(m: Transcendentals, k: Coefficients, v: real, tolerance: real, b: Bracket, n: nat)
    requires Brackets(m, k, v, b)
    ensures Brackets(m, k, v, Search(m, k, v, tolerance, b, n).last)
    decreases n
  {
    if n > 0 && !(Abs(LengthFromCoefficients(m, b.x, k) - v) < tolerance) {
      StepBrackets(m, k, v, b);
      SearchBrackets(m, k, v, tolerance, Step(m, k, v, b), n - 1);
    }
  }

  /** The first state: the whole unit interval, with the false-position estimate in it. */
  function InitialBracket(m: Transcendentals, k: Coefficients, v: real): Bracket {
    var fr := LengthFromCoefficients(m, 1.0, k) - v;
    Bracket(0.0, -v, 1.0, fr, FalsePosition(0.0, 1.0, -v, fr))
  }

  /**
   * The parameter at which the arc length from `0` reaches `v`: none for a
   * curve whose speed coefficients all vanish; `0` when `v` is negative and
   * `1` when the whole curve is shorter than `v`; otherwise the last
   * estimate of a search of up to `maxIters` iterations.
   */
  function ParameterAt(m: Transcendentals, curve: QuadraticCurve, v: real, tolerance: real, maxIters: nat): (t: Option<real>)
    ensures t.None? <==> SpeedCoefficients(curve) == Coefficients(0.0, 0.0, 0.0)
    ensures t.Some? ==> 0.0 <= t.value <= 1.0
    ensures t.Some? && v < 0.0 ==> t.value == 0.0
    ensures t.Some? && 0.0 <= v && Length(m, curve, 1.0) < v ==> t.value == 1.0
  {
    var k := SpeedCoefficients(curve);
    if k == Coefficients(0.0, 0.0, 0.0) then None
    else if -v > 0.0 then Some(0.0)
    else if LengthFromCoefficients(m, 1.0, k) - v < 0.0 then Some(1.0)
    else
      var b := InitialBracket(m, k, v);
      FalsePositionInBracket(0.0, 1.0, -v, b.fr);
      SearchBrackets(m, k, v, tolerance, b, maxIters);
      Some(Search(m, k, v, tolerance, b, maxIters).last.x)
  }

  /**
   * When `v` lies between `0` and the length of the curve, the result is the
   * last estimate of the search, and lies in a final bracket `[lo, hi]` with
   * the length at least `v` at `hi` and at most `v` at `lo` (or `lo == 0`);
   * if the search stopped before `maxIters` iterations the length at the
   * result is within `tolerance` of `v`.
   */
  lemma ParameterAtSearch(m: Transcendentals, curve: QuadraticCurve, v: real, tolerance: real, maxIters: nat)
    requires SpeedCoefficients(curve) != Coefficients(0.0, 0.0, 0.0)
    requires 0.0 <= v <= Length(m, curve, 1.0)
    ensures var k := SpeedCoefficients(curve);
      var o := Search(m, k, v, tolerance, InitialBracket(m, k, v), maxIters);
      && ParameterAt(m, curve, v, tolerance, maxIters) == Some(o.last.x)
      && 0.0 <= o.last.l <= o.last.x <= o.last.r <= 1.0
      && Length(m, curve, o.last.r) >= v
      && (o.last.l == 0.0 || Length(m, curve, o.last.l) <= v)
      && o.passes <= maxIters
      && (o.passes < maxIters ==> Abs(Length(m, curve, o.last.x) - v) < tolerance)
  {
    var k := SpeedCoefficients(curve);
    var b := InitialBracket(m, k, v);
    FalsePositionInBracket(0.0, 1.0, -v, b.fr);
    SearchBrackets(m, k, v, tolerance, b, maxIters);
    SearchStops(m, k, v, tolerance, b, maxIters);
  }

  /**
   * The search as the source writes it, returning what `ParameterAt`
   * describes: the loop runs the iterations of `Search` one by one, and a
   * break on the tolerance ends it where `Search` stops.
   */
  method Parameterize(m: Transcendentals, curve: QuadraticCurve, v: real, tolerance: real, maxIters: nat)
    returns (result: Option<real>)
    ensures result == ParameterAt(m, curve, v, tolerance, maxIters)
  {
    var k := SpeedCoefficients(curve);
    if k == Coefficients(0.0, 0.0, 0.0) {
      return None;
    }
    var l, fl := 0.0, -v;
    var r := 1.0;
    var fr := LengthFromCoefficients(m, r, k) - v;
    if fl > 0.0 {
      return Some(0.0);
    } else if fr < 0.0 {
      return Some(1.0);
    }
    var x := FalsePosition(l, r, fl, fr);
    ghost var final := Search(m, k, v, tolerance, InitialBracket(m, k, v), maxIters).last;
    var i: nat := 0;
    while i < maxIters
      invariant i <= maxIters
      invariant Search(m, k, v, tolerance, Bracket(l, fl, r, fr, x), maxIters - i).last == final
    {
      var fx := LengthFromCoefficients(m, x, k) - v;
      if Abs(fx) < tolerance {
        break;
      }
      ghost var before := Bracket(l, fl, r, fr, x);
      if fx > 0.0 {
        r, fr := x, fx;
      } else {
        l, fl := x, fx;
      }
      var speed := SpeedFromCoefficients(m, x, k);
      if speed != 0.0 {
        x := x - fx / speed;
      }
      if speed == 0.0 || x < l || x > r {
        x := FalsePosition(l, r, fl, fr);
      }
      assert Bracket(l, fl, r, fr, x) == Step(m, k, v, before);
      i := i + 1;
    }
    return Some(x);
  }


  /** Both early exits of the search, on the unit line `(0, 1, 0)`. */
  method ParameterizeExamples(m: Transcendentals, tolerance: real, maxIters: nat) returns (beyond: Option<real>, before: Option<real>)
    requires Sqrt(m, 1.0) == 1.0
    ensures beyond == Some(1.0) && before == Some(0.0)
  {
    var curve := QuadraticCurve(0.0, 1.0, 0.0);
    LengthExampleLine(m);
    beyond := Parameterize(m, curve, 2.0, tolerance, maxIters);
    before := Parameterize(m, curve, -1.0, tolerance, maxIters);
  }

  // ----- The nearest point -----

  /** The coefficients of the squared distance `e + d*t + c*t^2 + b*t^3 + a*t^4`. */
  datatype QuarticCoefficients = QuarticCoefficients(e: real, d: real, c: real, b: real, a: real)

  /** The squared distance from the point `q` to the curve, as a quartic in `t`. */
  function DistanceCoefficients(curve: QuadraticCurve, q: real): QuarticCoefficients {
    var p := curve.x0 - q;
    QuarticCoefficients(
      p * p,
      p * curve.x1 * 2.0,
      p * curve.x2 * 2.0 + curve.x1 * curve.x1,
      curve.x1 * curve.x2 * 2.0,
      curve.x2 * curve.x2)
  }

  function Quartic(k: QuarticCoefficients, t: real): real {
    k.e + t * (k.d + t * (k.c + t * (k.b + k.a * t)))
  }

  /** The distance at `t`, the square root of the quartic. */
  function Distance(m: Transcendentals, k: QuarticCoefficients, t: real): real {
    Sqrt(m, Quartic(k, t))
  }

  /** The candidates for an interior minimum: the roots of the quartic's derivative. */
  function StationaryPoints(m: Transcendentals, k: QuarticCoefficients): seq<real>
  {
    RootSolver.AsSlice(RootSolver.SolveCubic(m, 4.0 * k.a, 3.0 * k.b, 2.0 * k.c, k.d))
  }

  /** The quartic is the squared distance between the curve and `q`. */
  lemma QuarticIsSquaredDistance(curve: QuadraticCurve, q: real, t: real)
    ensures Quartic(DistanceCoefficients(curve, q), t) == (Evaluate(curve, t) - q) * (Evaluate(curve, t) - q)
  {
    var p := curve.x0 - q;
    var w := curve.x1 * t + curve.x2 * t * t;
    assert Evaluate(curve, t) - q == p + w;
    assert (p + w) * (p + w) == p * p + 2.0 * p * w + w * w;
    assert w * w == curve.x1 * curve.x1 * t * t + 2.0 * curve.x1 * curve.x2 * t * t * t + curve.x2 * curve.x2 * t * t * t * t;
  }

  /** With an exact square root the distance is `|evaluate(t) - q|`. */
  lemma DistanceIsAbs(m: Transcendentals, curve: QuadraticCurve, q: real, t: real)
    requires SqrtExact(m)
    ensures Distance(m, DistanceCoefficients(curve, q), t) == Abs(Evaluate(curve, t) - q)
  {
    QuarticIsSquaredDistance(curve, q, t);
    SqrtOfSquareIsAbs(m, Quartic(DistanceCoefficients(curve, q), t), Evaluate(curve, t) - q);
  }

  /** The cubic solved for candidates is the derivative of the quartic: `2*(evaluate(t) - q)*evaluate'(t)`. */
  lemma CubicIsDerivative(curve: QuadraticCurve, q: real, t: real)
    ensures var k := DistanceCoefficients(curve, q);
      RootSolver.Cubic(4.0 * k.a, 3.0 * k.b, 2.0 * k.c, k.d, t)
        == 2.0 * (Evaluate(curve, t) - q) * EvaluateFirstDerivative(curve, t)
  {
    var p := curve.x0 - q;
    var x1, x2 := curve.x1, curve.x2;
    assert Evaluate(curve, t) - q == p + x1 * t + x2 * t * t;
    assert 2.0 * (p + x1 * t + x2 * t * t) * (x1 + x2 * t * 2.0)
        == 2.0 * p * x1 + (4.0 * p * x2 + 2.0 * x1 * x1) * t + 6.0 * x1 * x2 * t * t + 4.0 * x2 * x2 * t * t * t;
  }

  /**
   * The parameter in `[0, 1]` of the point of the curve nearest to `q`:
   * the better end point, `0` on a tie, replaced by each in-range root of
   * the quartic's derivative, in the solver's order, that is strictly nearer.
   * The ghost result is the position of the winning root among the
   * candidates, or `-1` when an end point wins; every in-range candidate
   * before it is strictly farther, so ties go to the first.
   */
  method NearestPoint(m: Transcendentals, curve: QuadraticCurve, q: real) returns (best: real, ghost index: int)
    ensures var k := DistanceCoefficients(curve, q);
      best == 0.0 || best == 1.0 || (best in StationaryPoints(m, k) && 0.0 <= best <= 1.0)
    ensures var k := DistanceCoefficients(curve, q);
      && Distance(m, k, best) <= Distance(m, k, 0.0)
      && Distance(m, k, best) <= Distance(m, k, 1.0)
      && forall root <- StationaryPoints(m, k) :: 0.0 <= root <= 1.0 ==> Distance(m, k, best) <= Distance(m, k, root)
    ensures var k := DistanceCoefficients(curve, q);
      Distance(m, k, 0.0) <= Distance(m, k, 1.0) ==> best == 0.0 || Distance(m, k, best) < Distance(m, k, 0.0)
    ensures var k := DistanceCoefficients(curve, q);
      Distance(m, k, 0.0) > Distance(m, k, 1.0) ==> best == 1.0 || Distance(m, k, best) < Distance(m, k, 1.0)
    ensures var k := DistanceCoefficients(curve, q); var roots := StationaryPoints(m, k);
      && -1 <= index < |roots|
      && (index == -1 ==> best == if Distance(m, k, 0.0) <= Distance(m, k, 1.0) then 0.0 else 1.0)
      && (0 <= index ==>
        && best == roots[index] && 0.0 <= best <= 1.0
        && forall j :: 0 <= j < index && 0.0 <= roots[j] <= 1.0 ==> Distance(m, k, best) < Distance(m, k, roots[j]))
  {
    var k := DistanceCoefficients(curve, q);
    var leftDistance := Distance(m, k, 0.0);
    var rightDistance := Distance(m, k, 1.0);
    var bestDistance;
    if leftDistance <= rightDistance {
      best, bestDistance := 0.0, leftDistance;
    } else {
      best, bestDistance := 1.0, rightDistance;
    }
    var roots := StationaryPoints(m, k);
    index := -1;
    for i := 0 to |roots|
      invariant bestDistance == Distance(m, k, best)
      invariant -1 <= index < i
      invariant index == -1 ==> best == if leftDistance <= rightDistance then 0.0 else 1.0
      invariant 0 <= index ==> best == roots[index] && 0.0 <= best <= 1.0
      invariant 0 <= index ==> forall j :: 0 <= j < index && 0.0 <= roots[j] <= 1.0 ==> bestDistance < Distance(m, k, roots[j])
      invariant best == 0.0 || best == 1.0 || (best in roots && 0.0 <= best <= 1.0)
      invariant bestDistance <= leftDistance && bestDistance <= rightDistance
      invariant forall j :: 0 <= j < i && 0.0 <= roots[j] <= 1.0 ==> bestDistance <= Distance(m, k, roots[j])
      invariant leftDistance <= rightDistance ==> best == 0.0 || bestDistance < leftDistance
      invariant leftDistance > rightDistance ==> best == 1.0 || bestDistance < rightDistance
    {
      var root := roots[i];
      if 0.0 <= root && root <= 1.0 {
        var rootDistance := Distance(m, k, root);
        if rootDistance < bestDistance {
          best, bestDistance, index := root, rootDistance, i;
        }
      }
    }
  }

  /** Every in-range candidate makes the derivative of the squared distance vanish, given exact roots. */
  lemma StationaryPointsAreStationary(m: Transcendentals, curve: QuadraticCurve, q: real, t: real)
    requires SqrtExact(m) && CbrtExact(m) && TrigExact(m)
    requires t in StationaryPoints(m, DistanceCoefficients(curve, q))
    ensures (Evaluate(curve, t) - q) * EvaluateFirstDerivative(curve, t) == 0.0
  {
    var k := DistanceCoefficients(curve, q);
    if 4.0 * k.a == 0.0 {
      assert curve.x2 == 0.0 by { SquareZero(curve.x2); }
    }
    RootSolver.SolveCubicTotal(m, 4.0 * k.a, 3.0 * k.b, 2.0 * k.c, k.d);
    CubicIsDerivative(curve, q, t);
  }

  /**
   * Conversely, every stationary point of the squared distance is a
   * candidate, with exact square and cube roots, for a curve that moves,
   * unless the solved cubic takes the trigonometric branch.
   */
  lemma StationaryPointsComplete(m: Transcendentals, curve: QuadraticCurve, q: real, t: real)
    requires SqrtExact(m) && CbrtExact(m)
    requires (Evaluate(curve, t) - q) * EvaluateFirstDerivative(curve, t) == 0.0
    requires var k := DistanceCoefficients(curve, q);
      4.0 * k.a != 0.0 ==> RootSolver.CubicDiscriminant(4.0 * k.a, 3.0 * k.b, 2.0 * k.c, k.d) >= 0.0
    ensures curve.x1 != 0.0 || curve.x2 != 0.0 ==> t in StationaryPoints(m, DistanceCoefficients(curve, q))
  {
    var k := DistanceCoefficients(curve, q);
    var e, f := Evaluate(curve, t) - q, EvaluateFirstDerivative(curve, t);
    CubicIsDerivative(curve, q, t);
    assert 2.0 * e * f == 2.0 * (e * f);
    MovingCurveCubic(curve, q);
    RootSolver.SolveCubicComplete(m, 4.0 * k.a, 3.0 * k.b, 2.0 * k.c, k.d, t);
  }

  /** The solved cubic of a moving curve has a nonzero cubic or linear coefficient. */
  lemma MovingCurveCubic(curve: QuadraticCurve, q: real)
    ensures var k := DistanceCoefficients(curve, q);
      curve.x1 != 0.0 || curve.x2 != 0.0 ==> 4.0 * k.a != 0.0 || 2.0 * k.c != 0.0
  {
    var k := DistanceCoefficients(curve, q);
    if curve.x1 != 0.0 || curve.x2 != 0.0 {
      MovingCoefficients(curve.x1, curve.x2, curve.x0 - q, k.a, k.c);
    }
  }

  /** `x2^2` and `2*p*x2 + x1^2` are not both zero unless `x1 == x2 == 0`. */
  lemma MovingCoefficients(x1: real, x2: real, p: real, a: real, c: real)
    requires a == x2 * x2 && c == p * x2 * 2.0 + x1 * x1
    requires x1 != 0.0 || x2 != 0.0
    ensures 4.0 * a != 0.0 || 2.0 * c != 0.0
  {
    if 4.0 * a == 0.0 && 2.0 * c == 0.0 {
      SquareZero(x2);
      MulByZero(x2, p);
      SquareZero(x1);
    }
  }

  /** The curve that does not move is nearest at `0` from every point. */
  method NearestPointExampleStill(m: Transcendentals, q: real) returns (t: real)
    ensures t == 0.0
  {
    var curve := QuadraticCurve(0.0, 0.0, 0.0);
    ghost var index;
    t, index := NearestPoint(m, curve, q);
    var k := DistanceCoefficients(curve, q);
    assert k == QuarticCoefficients((0.0 - q) * (0.0 - q), 0.0, 0.0, 0.0, 0.0);
    assert RootSolver.SolveCubic(m, 4.0 * k.a, 3.0 * k.b, 2.0 * k.c, k.d) == RootSolver.None;
    SqrtCongruent(m, Quartic(k, 0.0), Quartic(k, 1.0));
  }

}
