/**
 * Cubic curves `x0 + x1*t + x2*t^2 + x3*t^3` (`src/cubic_curve.rs`) over the
 * scalar instance of the inner-product space: evaluation and the three
 * derivatives, the Bezier form, subdivision, the two quadratic
 * approximations, and degree elevation of a quadratic curve.
 */
module CubicCurves {

  import opened Scalars
  import QuadraticCurves

  /** The monomial coefficients of `x0 + x1*t + x2*t^2 + x3*t^3`. */
  datatype CubicCurve = CubicCurve(x0: real, x1: real, x2: real, x3: real)

  function Evaluate(c: CubicCurve, t: real): real {
    c.x0 + (c.x1 + (c.x2 + c.x3 * t) * t) * t
  }

  function EvaluateFirstDerivative(c: CubicCurve, t: real): real {
    c.x1 + c.x2 * t * 2.0 + c.x3 * t * t * 3.0
  }

  function EvaluateSecondDerivative(c: CubicCurve, t: real): real {
    c.x2 * 2.0 + c.x3 * t * 6.0
  }

  function EvaluateThirdDerivative(c: CubicCurve): real {
    c.x3 * 6.0
  }

  /** The curve through the Bezier control points `b0`, `b1`, `b2`, `b3`. */
  function FromBezier(b0: real, b1: real, b2: real, b3: real): CubicCurve {
    CubicCurve(
      b0,
      b0 * -3.0 + b1 * 3.0,
      b0 * 3.0 + b1 * -6.0 + b2 * 3.0,
      b0 * -1.0 + b1 * 3.0 + b2 * -3.0 + b3)
  }

  /** The Bezier control points of the curve. */
  datatype BezierPoints = BezierPoints(b0: real, b1: real, b2: real, b3: real)

  function ToBezier(c: CubicCurve): BezierPoints {
    BezierPoints(
      c.x0,
      c.x0 + c.x1 / 3.0,
      c.x0 + c.x1 * 2.0 / 3.0 + c.x2 / 3.0,
      c.x0 + c.x1 + c.x2 + c.x3)
  }

  /** Subdivision at `u` into the pieces covering `[0, u]` and `[u, 1]`. */
  function Subdivide(c: CubicCurve, u: real): (CubicCurve, CubicCurve) {
    var x1u := c.x1 * u;
    var x2u := c.x2 * u;
    var x2u2 := x2u * u;
    var x3u := c.x3 * u;
    var x3u2 := x3u * u;
    var x3u3 := x3u2 * u;
    var w := 1.0 - u;
    var w2 := w * w;
    (CubicCurve(c.x0, x1u, x2u2, x3u3),
     CubicCurve(
       c.x0 + x1u + x2u2 + x3u3,
       (c.x1 + x2u * 2.0 + x3u2 * 3.0) * w,
       (c.x2 + x3u * 3.0) * w2,
       c.x3 * w2 * w))
  }

  /** The quadratic minimising the largest error over `[0, 1]`. */
  function ErrorMinimizingQuadraticApproximation(c: CubicCurve): QuadraticCurves.QuadraticCurve {
    QuadraticCurves.QuadraticCurve(
      c.x0 + c.x3 / 32.0,
      c.x1 - c.x3 * 9.0 / 16.0,
      c.x2 + c.x3 * 3.0 / 2.0)
  }

  /** The quadratic through the curve's two end points and its midpoint. */
  function ContinuityPreservingQuadraticApproximation(c: CubicCurve): QuadraticCurves.QuadraticCurve {
    QuadraticCurves.QuadraticCurve(
      c.x0,
      c.x1 - c.x3 / 2.0,
      c.x2 + c.x3 * 3.0 / 2.0)
  }

  /** Degree elevation of a quadratic curve (`to_cubic` of `src/quadratic_curve.rs`). */
  function ToCubic(q: QuadraticCurves.QuadraticCurve): CubicCurve {
    CubicCurve(q.x0, q.x1, q.x2, 0.0)
  }

  // ----- Evaluation and the Bezier form -----

  /** Bezier points to coefficients and back is the identity. */
  lemma BezierRoundTrip(b0: real, b1: real, b2: real, b3: real)
    ensures ToBezier(FromBezier(b0, b1, b2, b3)) == BezierPoints(b0, b1, b2, b3)
  {
  }

  /** Coefficients to Bezier points and back is the identity. */
  lemma MonomialRoundTrip(c: CubicCurve)
    ensures var p := ToBezier(c); FromBezier(p.b0, p.b1, p.b2, p.b3) == c
  {
  }

  /** The curve starts at its first Bezier point and ends at its last, `x0 + x1 + x2 + x3`. */
  lemma EvaluateEndpoints(c: CubicCurve)
    ensures Evaluate(c, 0.0) == c.x0 == ToBezier(c).b0
    ensures Evaluate(c, 1.0) == c.x0 + c.x1 + c.x2 + c.x3 == ToBezier(c).b3
  {
  }

  /** The curve through four Bezier points is their Bernstein combination. */
  lemma BernsteinForm(b0: real, b1: real, b2: real, b3: real, t: real)
    ensures var s := 1.0 - t;
      Evaluate(FromBezier(b0, b1, b2, b3), t)
        == s * s * s * b0 + 3.0 * s * s * t * b1 + 3.0 * s * t * t * b2 + t * t * t * b3
  {
    var s := 1.0 - t;
    assert s * s * s == 1.0 - 3.0 * t + 3.0 * t * t - t * t * t;
    assert s * s * t == t - 2.0 * t * t + t * t * t;
    assert s * t * t == t * t - t * t * t;
  }

  /** The derivatives are exact: the curve is its own third-order Taylor expansion at every `t`. */
  lemma TaylorExpansion(c: CubicCurve, t: real, h: real)
    ensures Evaluate(c, t + h)
        == Evaluate(c, t) + EvaluateFirstDerivative(c, t) * h
         + EvaluateSecondDerivative(c, t) * h * h / 2.0 + EvaluateThirdDerivative(c) * h * h * h / 6.0
  {
    assert (t + h) * (t + h) == t * t + 2.0 * t * h + h * h;
    assert (t + h) * (t + h) * (t + h) == t * t * t + 3.0 * t * t * h + 3.0 * t * h * h + h * h * h;
    assert Evaluate(c, t + h) == c.x0 + c.x1 * (t + h) + c.x2 * ((t + h) * (t + h)) + c.x3 * ((t + h) * (t + h) * (t + h));
    assert Evaluate(c, t) == c.x0 + c.x1 * t + c.x2 * (t * t) + c.x3 * (t * t * t);
  }

  /** Each derivative is the rate of change of the one before. */
  lemma DerivativeSteps(c: CubicCurve, t: real, h: real)
    ensures EvaluateFirstDerivative(c, t + h)
        == EvaluateFirstDerivative(c, t) + EvaluateSecondDerivative(c, t) * h + EvaluateThirdDerivative(c) * h * h / 2.0
    ensures EvaluateSecondDerivative(c, t + h) == EvaluateSecondDerivative(c, t) + EvaluateThirdDerivative(c) * h
  {
  }

  /** The values of `(1, 1, 1, 1)` at `0`, one half and `1`. */
  lemma EvaluateExample()
    ensures var c := CubicCurve(1.0, 1.0, 1.0, 1.0);
      && EvaluateThirdDerivative(c) == 6.0
      && Evaluate(c, 0.0) == 1.0 && EvaluateFirstDerivative(c, 0.0) == 1.0 && EvaluateSecondDerivative(c, 0.0) == 2.0
      && Evaluate(c, 0.5) == 1.875 && EvaluateFirstDerivative(c, 0.5) == 2.75 && EvaluateSecondDerivative(c, 0.5) == 5.0
      && Evaluate(c, 1.0) == 4.0 && EvaluateFirstDerivative(c, 1.0) == 6.0 && EvaluateSecondDerivative(c, 1.0) == 8.0
  {
  }

  // ----- Subdivision -----

  /**
   * The curve `t |-> c(u + w*t)`: the expansion of `c` about `u` (its value,
   * its slope and half its second derivative there, and `x3`), each term
   * scaled by the matching power of `w`.  Both pieces of a subdivision are
   * curves of this form.
   */
  function Reparameterized(c: CubicCurve, u: real, w: real): CubicCurve {
    CubicCurve(
      c.x0 + c.x1 * u + c.x2 * u * u + c.x3 * u * u * u,
      (c.x1 + c.x2 * u * 2.0 + c.x3 * u * u * 3.0) * w,
      (c.x2 + c.x3 * u * 3.0) * (w * w),
      c.x3 * (w * w) * w)
  }

  /** The reparameterized curve at `s` is the curve at `u + w*s`. */
  lemma ReparameterizedTraces(c: CubicCurve, u: real, w: real, s: real)
    ensures Evaluate(Reparameterized(c, u, w), s) == Evaluate(c, u + w * s)
  {
  }

  /** The same, with the point of the original curve named `t`. */
  lemma ReparameterizedAt(c: CubicCurve, u: real, w: real, s: real, t: real)
    requires t == u + w * s
    ensures Evaluate(Reparameterized(c, u, w), s) == Evaluate(c, t)
  {
    ReparameterizedTraces(c, u, w, s);
  }

  /** Reparameterizing about `0` by `u` multiplies the `k`-th coefficient by `u^k`. */
  lemma ReparameterizedAtZero(c: CubicCurve, u: real)
    ensures Reparameterized(c, 0.0, u) == CubicCurve(c.x0, c.x1 * u, c.x2 * u * u, c.x3 * u * u * u)
  {
  }

  /** The left piece is `c` reparameterized about `0` by `u`, the right piece about `u` by `1 - u`. */
  lemma SubdividePieces(c: CubicCurve, u: real)
    ensures Subdivide(c, u).0 == Reparameterized(c, 0.0, u)
    ensures Subdivide(c, u).1 == Reparameterized(c, u, 1.0 - u)
  {
  }

  /** The left piece is `(x0, x1*u, x2*u^2, x3*u^3)`. */
  lemma SubdivideLeft(c: CubicCurve, u: real)
    ensures Subdivide(c, u).0 == CubicCurve(c.x0, c.x1 * u, c.x2 * u * u, c.x3 * u * u * u)
  {
    SubdividePieces(c, u);
    ReparameterizedAtZero(c, u);
  }

  /** The left piece traces `[0, u]`. */
  lemma SubdivideLeftTraces(c: CubicCurve, u: real, s: real)
    ensures Evaluate(Subdivide(c, u).0, s) == Evaluate(c, u * s)
  {
    SubdividePieces(c, u);
    ReparameterizedAt(c, 0.0, u, s, u * s);
  }

  /** The right piece traces `[u, 1]`. */
  lemma SubdivideRight(c: CubicCurve, u: real, s: real)
    ensures Evaluate(Subdivide(c, u).1, s) == Evaluate(c, u + (1.0 - u) * s)
  {
    SubdividePieces(c, u);
    RightPieceAt(c, u, 1.0 - u, s, u + (1.0 - u) * s);
  }

  /** `ReparameterizedAt` for the right piece, whose scale is `1 - u`. */
  lemma RightPieceAt(c: CubicCurve, u: real, w: real, s: real, t: real)
    requires w == 1.0 - u && t == u + (1.0 - u) * s
    ensures Evaluate(Reparameterized(c, u, w), s) == Evaluate(c, t)
  {
    assert t == u + w * s;
    ReparameterizedAt(c, u, w, s, t);
  }

  /** The right piece starts where the left piece ends, at the curve's point `u`. */
  lemma SubdivideJoins(c: CubicCurve, u: real)
    ensures Subdivide(c, u).1.x0 == Evaluate(Subdivide(c, u).0, 1.0) == Evaluate(c, u)
  {
    SubdivideLeftTraces(c, u, 1.0);
    SubdivideRight(c, u, 0.0);
  }

  /** The right piece ends at the curve's end. */
  lemma SubdivideRightEnds(c: CubicCurve, u: real)
    ensures Evaluate(Subdivide(c, u).1, 1.0) == Evaluate(c, 1.0)
  {
    SubdivideRight(c, u, 1.0);
  }

  /** Splitting `(1, 1, 1, 1)` at a quarter. */
  lemma SubdivideExample()
    ensures Subdivide(CubicCurve(1.0, 1.0, 1.0, 1.0), 0.25).0 == CubicCurve(1.0, 0.25, 0.0625, 0.015625)
    ensures Subdivide(CubicCurve(1.0, 1.0, 1.0, 1.0), 0.25).1 == CubicCurve(1.328125, 1.265625, 0.984375, 0.421875)
  {
  }

  // ----- Degree elevation and the quadratic approximations -----

  /** The elevated quadratic evaluates as the quadratic, with the same derivatives. */
  lemma ToCubicAgrees(q: QuadraticCurves.QuadraticCurve, t: real)
    ensures Evaluate(ToCubic(q), t) == QuadraticCurves.Evaluate(q, t)
    ensures EvaluateFirstDerivative(ToCubic(q), t) == QuadraticCurves.EvaluateFirstDerivative(q, t)
    ensures EvaluateSecondDerivative(ToCubic(q), t) == QuadraticCurves.EvaluateSecondDerivative(q)
    ensures EvaluateThirdDerivative(ToCubic(q)) == 0.0
  {
  }

  /** Both approximations of an elevated quadratic give the quadratic back. */
  lemma ApproximationsOfQuadratic(q: QuadraticCurves.QuadraticCurve)
    ensures ErrorMinimizingQuadraticApproximation(ToCubic(q)) == q
    ensures ContinuityPreservingQuadraticApproximation(ToCubic(q)) == q
  {
  }

  /** Both approximations share the quadratic coefficient `x2 + 3*x3/2`. */
  lemma ApproximationsShareCurvature(c: CubicCurve)
    ensures ErrorMinimizingQuadraticApproximation(c).x2 == c.x2 + 3.0 * c.x3 / 2.0
    ensures ContinuityPreservingQuadraticApproximation(c).x2 == c.x2 + 3.0 * c.x3 / 2.0
  {
  }

  /** The error of the continuity-preserving quadratic is `x3*t*(t - 1/2)*(t - 1)`. */
  lemma ContinuityPreservingError(c: CubicCurve, t: real)
    ensures Evaluate(c, t) - QuadraticCurves.Evaluate(ContinuityPreservingQuadraticApproximation(c), t)
        == c.x3 * (t * (t - 0.5) * (t - 1.0))
  {
    assert t * (t - 0.5) * (t - 1.0) == t * t * t - 1.5 * (t * t) + 0.5 * t;
    assert Evaluate(c, t) == c.x0 + c.x1 * t + c.x2 * (t * t) + c.x3 * (t * t * t);
  }

  /** The continuity-preserving quadratic meets the curve at `0`, one half and `1`. */
  lemma ContinuityPreservingMeets(c: CubicCurve)
    ensures QuadraticCurves.Evaluate(ContinuityPreservingQuadraticApproximation(c), 0.0) == Evaluate(c, 0.0)
    ensures QuadraticCurves.Evaluate(ContinuityPreservingQuadraticApproximation(c), 0.5) == Evaluate(c, 0.5)
    ensures QuadraticCurves.Evaluate(ContinuityPreservingQuadraticApproximation(c), 1.0) == Evaluate(c, 1.0)
  {
    ContinuityPreservingError(c, 0.0);
    ContinuityPreservingError(c, 0.5);
    ContinuityPreservingError(c, 1.0);
  }

  /**
   * With `d == 1/(2*sqrt 3)`, the error of the continuity-preserving
   * quadratic is at most `|x3|*d/6`, that is `|x3|/(12*sqrt 3)`, over
   * `[0, 1]`, and it reaches that magnitude at `1/2 - d` and `1/2 + d`.
   */
  lemma ContinuityPreservingBound(c: CubicCurve, t: real, d: real)
    requires 0.0 < d && 12.0 * (d * d) == 1.0 && 0.0 <= t <= 1.0
    ensures Abs(Evaluate(c, t) - QuadraticCurves.Evaluate(ContinuityPreservingQuadraticApproximation(c), t))
        <= Abs(c.x3) * d / 6.0
  {
    ContinuityPreservingError(c, t);
    var s := t - 0.5;
    assert t * (t - 0.5) * (t - 1.0) == s * s * s - s / 4.0;
    CenteredCubicBound(s, d);
    ScaledWithin(c.x3, s * s * s - s / 4.0, d / 6.0);
  }

  /** The bound of `ContinuityPreservingBound` is reached, with opposite signs, at `1/2 -+ d`. */
  lemma ContinuityPreservingExtremes(c: CubicCurve, d: real)
    requires 0.0 < d && 12.0 * (d * d) == 1.0
    ensures var a := ContinuityPreservingQuadraticApproximation(c);
      && Evaluate(c, 0.5 - d) - QuadraticCurves.Evaluate(a, 0.5 - d) == c.x3 * d / 6.0
      && Evaluate(c, 0.5 + d) - QuadraticCurves.Evaluate(a, 0.5 + d) == -c.x3 * d / 6.0
  {
    ContinuityPreservingError(c, 0.5 - d);
    ContinuityPreservingError(c, 0.5 + d);
    assert (0.5 - d) * (0.5 - d - 0.5) * (0.5 - d - 1.0) == d / 4.0 - d * (d * d);
    assert (0.5 + d) * (0.5 + d - 0.5) * (0.5 + d - 1.0) == d * (d * d) - d / 4.0;
    assert d * (d * d) == d / 12.0;
  }

  /**
   * `s^3 - s/4` lies in `[-d/6, d/6]` on `[-1/2, 1/2]`, from
   * `d/6 - (s^3 - s/4) == (s + d)^2 (2d - s)` and
   * `(s^3 - s/4) + d/6 == (s - d)^2 (s + 2d)`, where `2d > 1/2`.
   */
  lemma CenteredCubicBound(s: real, d: real)
    requires 0.0 < d && 12.0 * (d * d) == 1.0 && -0.5 <= s <= 0.5
    ensures -d / 6.0 <= s * s * s - s / 4.0 <= d / 6.0
  {
    assert d * (d * d) == d / 12.0;
    assert (2.0 * d - 0.5) * (2.0 * d + 0.5) == 1.0 / 12.0;
    assert 2.0 * d - 0.5 > 0.0 by {
      if 2.0 * d - 0.5 <= 0.0 {
        MulNonNegative(0.5 - 2.0 * d, 2.0 * d + 0.5);
      }
    }
    var p, q := (s + d) * (s + d), (s - d) * (s - d);
    assert d / 6.0 - (s * s * s - s / 4.0) == p * (2.0 * d - s);
    assert s * s * s - s / 4.0 + d / 6.0 == q * (s + 2.0 * d);
    assert 0.0 <= p by { MulNonNegativeSquare(s + d); }
    assert 0.0 <= q by { MulNonNegativeSquare(s - d); }
    MulNonNegative(p, 2.0 * d - s);
    MulNonNegative(q, s + 2.0 * d);
  }

  /** A square is non-negative. */
  lemma MulNonNegativeSquare(x: real)
    ensures 0.0 <= x * x
  {
    if x != 0.0 { SquarePositive(x); } else { MulByZero(x, x); }
  }

  /** A factor within `[-m, m]` scales a magnitude by at most `m`. */
  lemma ScaledWithin(x: real, g: real, m: real)
    requires -m <= g <= m
    ensures Abs(x * g) <= Abs(x) * m
  {
    if x >= 0.0 {
      MulNonNegative(x, m - g);
      MulNonNegative(x, g + m);
    } else {
      MulNonNegative(-x, m - g);
      MulNonNegative(-x, g + m);
    }
  }

  /**
   * The error of the minimising quadratic is `x3*T3(2t - 1)/32`, with `T3`
   * the third Chebyshev polynomial `4s^3 - 3s`.
   */
  lemma ErrorMinimizingError(c: CubicCurve, t: real)
    ensures var s := 2.0 * t - 1.0;
      Evaluate(c, t) - QuadraticCurves.Evaluate(ErrorMinimizingQuadraticApproximation(c), t)
        == c.x3 * Chebyshev3(s) / 32.0
  {
    var s := 2.0 * t - 1.0;
    assert s * s * s == 8.0 * (t * t * t) - 12.0 * (t * t) + 6.0 * t - 1.0;
    assert Chebyshev3(s) == 32.0 * (t * t * t) - 48.0 * (t * t) + 18.0 * t - 1.0;
    assert Evaluate(c, t) == c.x0 + c.x1 * t + c.x2 * (t * t) + c.x3 * (t * t * t);
  }

  /** The third Chebyshev polynomial. */
  function Chebyshev3(s: real): real {
    4.0 * s * s * s - 3.0 * s
  }

  /** `|T3(s)| <= 1` on `[-1, 1]`, from `1 - T3(s) == (1 - s)(1 + 2s)^2` and `1 + T3(s) == (1 + s)(1 - 2s)^2`. */
  lemma Chebyshev3Bounded(s: real)
    requires -1.0 <= s <= 1.0
    ensures -1.0 <= Chebyshev3(s) <= 1.0
  {
    assert 1.0 - Chebyshev3(s) == (1.0 - s) * ((1.0 + 2.0 * s) * (1.0 + 2.0 * s));
    assert 1.0 + Chebyshev3(s) == (1.0 + s) * ((1.0 - 2.0 * s) * (1.0 - 2.0 * s));
    assert (1.0 + 2.0 * s) * (1.0 + 2.0 * s) >= 0.0 by {
      if 1.0 + 2.0 * s != 0.0 { SquarePositive(1.0 + 2.0 * s); }
      else { MulByZero(1.0 + 2.0 * s, 1.0 + 2.0 * s); }
    }
    assert (1.0 - 2.0 * s) * (1.0 - 2.0 * s) >= 0.0 by {
      if 1.0 - 2.0 * s != 0.0 { SquarePositive(1.0 - 2.0 * s); }
      else { MulByZero(1.0 - 2.0 * s, 1.0 - 2.0 * s); }
    }
    MulNonNegative(1.0 - s, (1.0 + 2.0 * s) * (1.0 + 2.0 * s));
    MulNonNegative(1.0 + s, (1.0 - 2.0 * s) * (1.0 - 2.0 * s));
  }

  /** The error of the minimising quadratic is at most `|x3|/32` over `[0, 1]`. */
  lemma ErrorMinimizingBound(c: CubicCurve, t: real)
    requires 0.0 <= t <= 1.0
    ensures Abs(Evaluate(c, t) - QuadraticCurves.Evaluate(ErrorMinimizingQuadraticApproximation(c), t))
        <= Abs(c.x3) / 32.0
  {
    ErrorMinimizingError(c, t);
    Chebyshev3Bounded(2.0 * t - 1.0);
    ScaledByUnit(c.x3, Chebyshev3(2.0 * t - 1.0));
  }

  /** A factor in `[-1, 1]` does not increase a magnitude. */
  lemma ScaledByUnit(x: real, g: real)
    requires -1.0 <= g <= 1.0
    ensures Abs(x * g / 32.0) <= Abs(x) / 32.0
  {
    if x >= 0.0 {
      MulNonNegative(x, 1.0 - g);
      MulNonNegative(x, g + 1.0);
    } else {
      MulNonNegative(-x, 1.0 - g);
      MulNonNegative(-x, g + 1.0);
    }
  }

  /**
   * The minimising quadratic's error equioscillates: it is `-x3/32`,
   * `x3/32`, `-x3/32`, `x3/32` at `0`, a quarter, three quarters and `1`,
   * and vanishes at one half.
   */
  lemma ErrorMinimizingEquioscillates(c: CubicCurve)
    ensures var a := ErrorMinimizingQuadraticApproximation(c);
      && Evaluate(c, 0.0) - QuadraticCurves.Evaluate(a, 0.0) == -c.x3 / 32.0
      && Evaluate(c, 0.25) - QuadraticCurves.Evaluate(a, 0.25) == c.x3 / 32.0
      && Evaluate(c, 0.75) - QuadraticCurves.Evaluate(a, 0.75) == -c.x3 / 32.0
      && Evaluate(c, 1.0) - QuadraticCurves.Evaluate(a, 1.0) == c.x3 / 32.0
      && Evaluate(c, 0.5) == QuadraticCurves.Evaluate(a, 0.5)
  {
    ErrorMinimizingError(c, 0.0);
    ErrorMinimizingError(c, 0.25);
    ErrorMinimizingError(c, 0.75);
    ErrorMinimizingError(c, 1.0);
    ErrorMinimizingError(c, 0.5);
  }

  /** The other two zeros of the minimising quadratic's error are `(2 -+ sqrt 3)/4`. */
  lemma ErrorMinimizingZeros(c: CubicCurve, root3: real)
    requires root3 * root3 == 3.0
    ensures var a := ErrorMinimizingQuadraticApproximation(c);
      && Evaluate(c, 0.25 * (2.0 - root3)) == QuadraticCurves.Evaluate(a, 0.25 * (2.0 - root3))
      && Evaluate(c, 0.25 * (2.0 + root3)) == QuadraticCurves.Evaluate(a, 0.25 * (2.0 + root3))
  {
    ErrorMinimizingError(c, 0.25 * (2.0 - root3));
    ErrorMinimizingError(c, 0.25 * (2.0 + root3));
    ChebyshevZero(-root3 / 2.0, root3);
    ChebyshevZero(root3 / 2.0, root3);
    assert 2.0 * (0.25 * (2.0 - root3)) - 1.0 == -root3 / 2.0;
    assert 2.0 * (0.25 * (2.0 + root3)) - 1.0 == root3 / 2.0;
  }

  /** `T3` vanishes at `+-sqrt(3)/2`. */
  lemma ChebyshevZero(s: real, root3: real)
    requires root3 * root3 == 3.0 && (s == root3 / 2.0 || s == -root3 / 2.0)
    ensures Chebyshev3(s) == 0.0
  {
    assert s * s == 0.75;
    assert Chebyshev3(s) == s * (4.0 * (s * s) - 3.0);
  }
}
