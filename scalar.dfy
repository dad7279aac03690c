/**
 * The scalar field every curve is generic over, instantiated at `real`.
 *
 * Field arithmetic, comparison, `abs` and integer literals are Dafny's own
 * exact operations on `real`.  The transcendental operations of the scalar
 * capability set (square root, cube root, natural log, arccosine, cosine and
 * the constant pi) have no exact counterpart, so they are a record of
 * functions handed to every operation that needs them.  The predicates below
 * state the few facts about them that proofs rely on; a lemma or operation
 * that needs one names it in its `requires`.
 */
module Scalars {

  /** The transcendental part of a scalar type. */
  datatype Transcendentals = Transcendentals(
    sqrt: real -> real,
    cbrt: real -> real,
    ln: real -> real,
    acos: real -> real,
    cos: real -> real,
    pi: real)

  /** The inner product of the scalar instance: the plain product. */
  function Inner(a: real, b: real): real {
    a * b
  }

  // The transcendental operations as functions of their own, so that every
  // proof refers to each of them by one name.

  function Sqrt(m: Transcendentals, x: real): real {
    m.sqrt(x)
  }

  function Cbrt(m: Transcendentals, x: real): real {
    m.cbrt(x)
  }

  function Ln(m: Transcendentals, x: real): real {
    m.ln(x)
  }

  function Acos(m: Transcendentals, x: real): real {
    m.acos(x)
  }

  function Cos(m: Transcendentals, x: real): real {
    m.cos(x)
  }

  /** Absolute value, as the scalar's `abs`. */
  function Abs(x: real): (r: real)
    ensures 0.0 <= r && (r == x || r == -x)
    ensures r == 0.0 <==> x == 0.0
  {
    if x < 0.0 then -x else x
  }

  /** `sqrt` is the non-negative square root on non-negative arguments. */
  ghost predicate SqrtExact(m: Transcendentals) {
    forall x :: 0.0 <= x ==> 0.0 <= Sqrt(m, x) && Sqrt(m, x) * Sqrt(m, x) == x
  }

  /** `cbrt` is a real cube root everywhere. */
  ghost predicate CbrtExact(m: Transcendentals) {
    forall x :: Cbrt(m, x) * Cbrt(m, x) * Cbrt(m, x) == x
  }

  /** The logarithm vanishes at one. */
  ghost predicate LnOfOne(m: Transcendentals) {
    Ln(m, 1.0) == 0.0
  }

  /** Three times an angle, named so that the triple-angle law has a term to be triggered on. */
  function Thrice(phi: real): real {
    3.0 * phi
  }

  /** An angle advanced by one full turn, named for the same reason. */
  function PlusTurn(m: Transcendentals, phi: real): real {
    phi + 2.0 * m.pi
  }

  /** `acos` inverts `cos` on [-1, 1], `cos` obeys the triple-angle law and has period 2*pi. */
  ghost predicate TrigExact(m: Transcendentals) {
    && (forall x :: -1.0 <= x <= 1.0 ==> Cos(m, Acos(m, x)) == x)
    && (forall phi :: Cos(m, Thrice(phi)) == 4.0 * Cos(m, phi) * Cos(m, phi) * Cos(m, phi) - 3.0 * Cos(m, phi))
    && (forall phi :: Cos(m, PlusTurn(m, phi)) == Cos(m, phi))
  }

  // ----- Sign facts about products, stated over distinct variables -----

  lemma MulPositive(p: real, q: real)
    requires 0.0 < p && 0.0 < q
    ensures 0.0 < p * q
  {
  }

  lemma MulNonNegative(p: real, q: real)
    requires 0.0 <= p && 0.0 <= q
    ensures 0.0 <= p * q
  {
    if p > 0.0 && q > 0.0 { MulPositive(p, q); }
  }

  /** Dividing by a nonzero real and multiplying back cancel. */
  lemma DivCancels(b: real, a: real)
    requires a != 0.0
    ensures a * (b / a) == b && b * a / a == b
  {
  }

  lemma MulByZero(a: real, t: real)
    requires a == 0.0
    ensures a * t == 0.0 && t * a == 0.0
  {
  }

  /** A nonzero factor cancels. */
  lemma MulCancels(a: real, t: real, u: real)
    requires a != 0.0 && a * t == a * u
    ensures t == u
  {
    assert a * (t - u) == 0.0;
    ProductZero(a, t - u);
  }

  /** The quotient `t` of `b` by a nonzero `a` solves `a * t == b`. */
  lemma QuotientSolves(b: real, a: real, t: real)
    requires a != 0.0 && t == b / a
    ensures a * t == b
  {
  }

  lemma ProductZero(p: real, q: real)
    requires p * q == 0.0
    ensures p == 0.0 || q == 0.0
  {
    if p > 0.0 && q > 0.0 { MulPositive(p, q); }
    else if p < 0.0 && q < 0.0 { MulPositive(-p, -q); }
    else if p > 0.0 && q < 0.0 { MulPositive(p, -q); }
    else if p < 0.0 && q > 0.0 { MulPositive(-p, q); }
  }

  lemma SquareZero(p: real)
    requires p * p == 0.0
    ensures p == 0.0
  {
    ProductZero(p, p);
  }

  /** A nonzero real has a positive square. */
  lemma SquarePositive(p: real)
    requires p != 0.0
    ensures p * p > 0.0
  {
    if p < 0.0 {
      assert p * p == (-p) * (-p);
    }
  }

  /** Two non-negative reals with the same square are equal. */
  lemma NonNegativeSquareUnique(p: real, q: real)
    requires 0.0 <= p && 0.0 <= q && p * p == q * q
    ensures p == q
  {
    assert (p - q) * (p + q) == p * p - q * q;
    if p + q == 0.0 {
      assert p == 0.0 && q == 0.0;
    }
  }

  /** Cubing is injective on the reals. */
  lemma CubeInjective(p: real, q: real)
    requires p * p * p == q * q * q
    ensures p == q
  {
    var w := p * p + p * q + q * q;
    assert (p - q) * w == p * p * p - q * q * q;
    assert 2.0 * w == p * p + q * q + (p + q) * (p + q);
    if p != 0.0 {
      SquarePositive(p);
    } else if q != 0.0 {
      SquarePositive(q);
    }
  }

  /** Equal arguments have equal square roots. */
  lemma SqrtCongruent(m: Transcendentals, x: real, y: real)
    requires x == y
    ensures Sqrt(m, x) == Sqrt(m, y)
  {
  }

  /** With an exact square root, the square root of `g*g` is `|g|`. */
  lemma SqrtOfSquareIsAbs(m: Transcendentals, x: real, g: real)
    requires SqrtExact(m) && x == g * g
    ensures Sqrt(m, x) == Abs(g)
  {
    assert Abs(g) * Abs(g) == x;
    NonNegativeSquareUnique(Sqrt(m, x), Abs(g));
  }

  /** With an exact square root, `sqrt(x) == 0` exactly when `x == 0`. */
  lemma SqrtZero(m: Transcendentals, x: real)
    requires SqrtExact(m) && 0.0 <= x
    ensures Sqrt(m, x) == 0.0 <==> x == 0.0
    ensures 0.0 < x ==> 0.0 < Sqrt(m, x)
  {
    var s := Sqrt(m, x);
    assert 0.0 <= s && s * s == x;
    if x == 0.0 {
      SquareZero(s);
    }
  }
}
