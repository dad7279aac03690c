/**
 * Linear curves `x0 + x1*t` (`src/linear_curve.rs`) over the scalar instance
 * of the inner-product space, where a point is a scalar and the inner
 * product is the product: evaluation, the Bezier form, subdivision, speed,
 * arc length and its inverse, and the nearest-point query.
 */
module LinearCurves {

  import opened Scalars
  import opened Options

  /** The monomial coefficients of `x0 + x1*t`. */
  datatype LinearCurve = LinearCurve(x0: real, x1: real)

  function Evaluate(c: LinearCurve, t: real): real {
    c.x0 + c.x1 * t
  }

  function EvaluateDerivative(c: LinearCurve): real {
    c.x1
  }

  /** The curve through the Bezier control points `b0` and `b1`. */
  function FromBezier(b0: real, b1: real): LinearCurve {
    LinearCurve(b0, b1 - b0)
  }

  /** The Bezier control points of the curve. */
  function ToBezier(c: LinearCurve): (real, real) {
    (c.x0, c.x0 + c.x1)
  }

  /**
   * Subdivision at `u`, as the source writes it: the right piece reuses the
   * left piece's direction `x1*u` instead of `x1*(1-u)`.
   */
  function Subdivide(c: LinearCurve, u: real): (LinearCurve, LinearCurve) {
    var x1u := c.x1 * u;
    (LinearCurve(c.x0, x1u), LinearCurve(c.x0 + x1u, x1u))
  }

  /** Subdivision at `u` with the right piece's direction `x1*(1-u)`, covering `[u, 1]`. */
  function SubdivideCorrected(c: LinearCurve, u: real): (LinearCurve, LinearCurve) {
    var x1u := c.x1 * u;
    (LinearCurve(c.x0, x1u), LinearCurve(c.x0 + x1u, c.x1 * (1.0 - u)))
  }

  /** The constant speed `sqrt(<x1, x1>)`. */
  function Speed(m: Transcendentals, c: LinearCurve): real {
    Sqrt(m, Inner(c.x1, c.x1))
  }

  /** The arc length from `0` to `u`. */
  function Length(m: Transcendentals, c: LinearCurve, u: real): real {
    u * Speed(m, c)
  }

  /**
   * The parameter at which the arc length is `v`; none for a curve that
   * does not move.
   */
  function Parameterize(m: Transcendentals, c: LinearCurve, v: real): (r: Option<real>)
    ensures r.None? <==> Speed(m, c) == 0.0
    ensures r.Some? ==> Length(m, c, r.value) == v
  {
    var speed := Speed(m, c);
    if speed == 0.0 then None else Some(v / Speed(m, c))
  }

  /** The nearest-point parameter as the source computes it: `<x1, q - x0>`, not normalised. */
  function NearestPoint(c: LinearCurve, q: real): real {
    c.x1 * (q - c.x0)
  }

  /**
   * The parameter of the point of the line nearest to `q`:
   * `<x1, q - x0> / <x1, x1>`, and `0` for a curve that does not move.
   */
  function NearestPointCorrected(c: LinearCurve, q: real): real {
    var a := c.x1 * c.x1;
    if a == 0.0 then 0.0 else NearestPoint(c, q) / a
  }

  /** The squared distance from the curve's point at `t` to `q`. */
  function DistanceSquared(c: LinearCurve, q: real, t: real): real {
    var e := Evaluate(c, t) - q;
    e * e
  }

  // ----- Evaluation and the Bezier form -----

  /** Bezier points to coefficients and back is the identity. */
  lemma BezierRoundTrip(b0: real, b1: real)
    ensures ToBezier(FromBezier(b0, b1)) == (b0, b1)
  {
  }

  /** Coefficients to Bezier points and back is the identity. */
  lemma MonomialRoundTrip(c: LinearCurve)
    ensures FromBezier(ToBezier(c).0, ToBezier(c).1) == c
  {
  }

  /** The curve starts at its first Bezier point and ends at its last. */
  lemma EvaluateEndpoints(c: LinearCurve)
    ensures Evaluate(c, 0.0) == c.x0 == ToBezier(c).0
    ensures Evaluate(c, 1.0) == ToBezier(c).1
  {
  }

  /** The curve through two Bezier points is their linear interpolation `(1-t)*b0 + t*b1`. */
  lemma BernsteinForm(b0: real, b1: real, t: real)
    ensures Evaluate(FromBezier(b0, b1), t) == (1.0 - t) * b0 + t * b1
  {
  }

  /** The derivative is the constant rate of change: a step `h` moves the point by `h` times it. */
  lemma DerivativeIsRate(c: LinearCurve, t: real, h: real)
    ensures Evaluate(c, t + h) == Evaluate(c, t) + EvaluateDerivative(c) * h
  {
  }

  // ----- Subdivision -----

  /** The left piece traces `[0, u]`, and the right piece starts where the left ends. */
  lemma SubdivideLeft(c: LinearCurve, u: real, s: real)
    ensures Evaluate(Subdivide(c, u).0, s) == Evaluate(c, u * s)
    ensures Subdivide(c, u).1.x0 == Evaluate(Subdivide(c, u).0, 1.0) == Evaluate(c, u)
  {
  }

  /**
   * As written, the right piece ends at `x0 + 2*u*x1`, which is the curve's
   * end point only when `u` is one half or the curve does not move.
   */
  lemma SubdivideRightEnd(c: LinearCurve, u: real)
    ensures Evaluate(Subdivide(c, u).1, 1.0) == c.x0 + 2.0 * u * c.x1
    ensures Evaluate(Subdivide(c, u).1, 1.0) == Evaluate(c, 1.0) <==> u == 0.5 || c.x1 == 0.0
  {
    if Evaluate(Subdivide(c, u).1, 1.0) == Evaluate(c, 1.0) {
      assert c.x1 * (2.0 * u - 1.0) == 0.0;
      ProductZero(c.x1, 2.0 * u - 1.0);
    }
  }

  /** An input that shows it: the unit segment split at a quarter has a right piece ending at one half. */
  lemma SubdivideRightEndExample()
    ensures Evaluate(Subdivide(LinearCurve(0.0, 1.0), 0.25).1, 1.0) == 0.5
    ensures Evaluate(LinearCurve(0.0, 1.0), 1.0) == 1.0
  {
  }

  /** With the corrected direction, the right piece traces `[u, 1]`, so the two pieces cover the curve. */
  lemma SubdivideCorrectedPieces(c: LinearCurve, u: real, s: real)
    ensures Evaluate(SubdivideCorrected(c, u).0, s) == Evaluate(c, u * s)
    ensures Evaluate(SubdivideCorrected(c, u).1, s) == Evaluate(c, u + (1.0 - u) * s)
    ensures Evaluate(SubdivideCorrected(c, u).1, 0.0) == Evaluate(c, u)
    ensures Evaluate(SubdivideCorrected(c, u).1, 1.0) == Evaluate(c, 1.0)
  {
  }

  // ----- Speed, length and its inverse -----

  /** With an exact square root the speed is `|x1|`: non-negative, squaring to `<x1, x1>`, zero exactly for a curve that does not move. */
  lemma SpeedIsNorm(m: Transcendentals, c: LinearCurve)
    requires SqrtExact(m)
    ensures Speed(m, c) >= 0.0
    ensures Speed(m, c) * Speed(m, c) == EvaluateDerivative(c) * EvaluateDerivative(c)
    ensures Speed(m, c) == 0.0 <==> c.x1 == 0.0
  {
    var a := c.x1 * c.x1;
    SqrtZero(m, a);
    if a == 0.0 {
      SquareZero(c.x1);
    }
  }

  /** The length grows linearly, and is zero at the start. */
  lemma LengthAdditive(m: Transcendentals, c: LinearCurve, u: real, w: real)
    ensures Length(m, c, 0.0) == 0.0
    ensures Length(m, c, u + w) == Length(m, c, u) + Length(m, c, w)
  {
  }

  /** Parameterization inverts the length whenever the curve moves. */
  lemma ParameterizeLength(m: Transcendentals, c: LinearCurve, u: real)
    requires Speed(m, c) != 0.0
    ensures Parameterize(m, c, Length(m, c, u)) == Some(u)
  {
    var s := Speed(m, c);
    var v := Length(m, c, u);
    DivCancels(u, s);
    assert v / s == u;
    assert Parameterize(m, c, v) == Some(v / s);
  }

  /** With an exact square root, parameterization fails exactly for a curve that does not move. */
  lemma ParameterizeNone(m: Transcendentals, c: LinearCurve, v: real)
    requires SqrtExact(m)
    ensures Parameterize(m, c, v).None? <==> c.x1 == 0.0
  {
    SpeedIsNorm(m, c);
  }

  // ----- Nearest point -----

  /** The squared distance along the line is the quadratic `A*t^2 - 2*B*t + C`. */
  lemma DistanceQuadratic(c: LinearCurve, q: real, t: real)
    ensures DistanceSquared(c, q, t)
        == c.x1 * c.x1 * t * t - 2.0 * NearestPoint(c, q) * t + (c.x0 - q) * (c.x0 - q)
  {
  }

  /**
   * A quadratic `A*t^2 - 2*B*t + C` with non-negative `A` is smallest where
   * `A*t == B`, and is constant when `A` is zero.
   */
  lemma QuadraticMinimum(a: real, b: real, k: real, s: real, t: real)
    requires a >= 0.0 && a * t == b
    requires a == 0.0 ==> t == 0.0
    ensures a * t * t - 2.0 * b * t + k <= a * s * s - 2.0 * b * s + k
  {
    if a > 0.0 {
      assert (a * s * s - 2.0 * b * s) - (a * t * t - 2.0 * b * t) == a * ((s - t) * (s - t));
      MulNonNegative(a, (s - t) * (s - t));
    }
  }

  /** The corrected parameter solves `<x1, x1>*t == <x1, q - x0>`, and is 0 for a curve that does not move. */
  lemma NearestPointCorrectedStationary(c: LinearCurve, q: real)
    ensures c.x1 * c.x1 * NearestPointCorrected(c, q) == NearestPoint(c, q)
    ensures c.x1 == 0.0 ==> NearestPointCorrected(c, q) == 0.0
  {
    var a := c.x1 * c.x1;
    if a != 0.0 {
      QuotientSolves(NearestPoint(c, q), a, NearestPointCorrected(c, q));
    } else {
      SquareZero(c.x1);
    }
  }

  /** The corrected parameter is a nearest point of the whole line to `q`. */
  lemma NearestPointCorrectedIsNearest(c: LinearCurve, q: real, s: real)
    ensures DistanceSquared(c, q, NearestPointCorrected(c, q)) <= DistanceSquared(c, q, s)
  {
    var t := NearestPointCorrected(c, q);
    NearestPointCorrectedStationary(c, q);
    DistanceQuadratic(c, q, s);
    DistanceQuadratic(c, q, t);
    if c.x1 * c.x1 == 0.0 {
      SquareZero(c.x1);
    }
    QuadraticMinimum(c.x1 * c.x1, NearestPoint(c, q), (c.x0 - q) * (c.x0 - q), s, t);
  }

  /** When `x1` has unit length the source's unnormalised parameter is the nearest point. */
  lemma NearestPointUnitDirection(c: LinearCurve, q: real, s: real)
    requires c.x1 * c.x1 == 1.0
    ensures NearestPoint(c, q) == NearestPointCorrected(c, q)
    ensures DistanceSquared(c, q, NearestPoint(c, q)) <= DistanceSquared(c, q, s)
  {
    NearestPointCorrectedIsNearest(c, q, s);
  }

  /**
   * An input that shows the source's parameter is not the nearest point:
   * on `t -> 2*t` the point `2` is reached at `t == 1`, but the source
   * returns `4`, a point at squared distance 36.
   */
  lemma NearestPointExample()
    ensures NearestPoint(LinearCurve(0.0, 2.0), 2.0) == 4.0
    ensures DistanceSquared(LinearCurve(0.0, 2.0), 2.0, 4.0) == 36.0
  {
    assert Evaluate(LinearCurve(0.0, 2.0), 4.0) - 2.0 == 6.0;
  }

  /** On the same input the corrected parameter is `1`, at distance zero. */
  lemma NearestPointCorrectedExample()
    ensures NearestPointCorrected(LinearCurve(0.0, 2.0), 2.0) == 1.0
    ensures DistanceSquared(LinearCurve(0.0, 2.0), 2.0, 1.0) == 0.0
  {
  }
}
