/**
 * Closed-form real roots of linear, quadratic and cubic equations
 * (`src/roots.rs`).  A leading coefficient of exactly zero hands the equation
 * to the solver of the next lower degree; the cubic solver picks Cardano's
 * formula or the trigonometric method by the sign of its discriminant.
 */
module RootSolver {

  import opened Scalars

  /** Between zero and three roots, unordered. */
  datatype Roots =
    | None
    | One(r0: real)
    | Two(r0: real, r1: real)
    | Three(r0: real, r1: real, r2: real)

  /** The roots as a sequence, whose length is the number of roots held. */
  function AsSlice(roots: Roots): (s: seq<real>)
    ensures |s| <= 3
    ensures |s| == 0 <==> roots.None?
    ensures |s| == 1 <==> roots.One?
    ensures |s| == 2 <==> roots.Two?
    ensures |s| == 3 <==> roots.Three?
  {
    match roots
    case None => []
    case One(r0) => [r0]
    case Two(r0, r1) => [r0, r1]
    case Three(r0, r1, r2) => [r0, r1, r2]
  }

  /** The value of `a*x + b`. */
  function Linear(a: real, b: real, x: real): real {
    a * x + b
  }

  /** The value of `a*x^2 + b*x + c`. */
  function Quadratic(a: real, b: real, c: real, x: real): real {
    (a * x + b) * x + c
  }

  /** The value of `a*x^3 + b*x^2 + c*x + d`. */
  function Cubic(a: real, b: real, c: real, d: real, x: real): real {
    ((a * x + b) * x + c) * x + d
  }

  /** `a*x + b = 0`: no root when `a` is zero, otherwise the one root. */
  function SolveLinear(a: real, b: real): (r: Roots)
    ensures r.None? <==> a == 0.0
    ensures r.None? || r.One?
    ensures r.One? ==> Linear(a, b, r.r0) == 0.0
  {
    if a == 0.0 then
      None
    else
      One(-b / a)
  }

  /**
   * `a*x^2 + b*x + c = 0` by the quadratic formula: two values whenever `a`
   * is nonzero, without looking at the sign of the discriminant.
   */
  function SolveQuadratic(m: Transcendentals, a: real, b: real, c: real): (r: Roots)
    ensures a == 0.0 ==> r == SolveLinear(b, c)
    ensures a != 0.0 ==> r.Two?
  {
    if a == 0.0 then
      SolveLinear(b, c)
    else
      var a2 := a * 2.0;
      var sqrtb2m4ac := Sqrt(m, b * b - a * c * 4.0);
      var r0 := (-b + sqrtb2m4ac) / a2;
      var r1 := (-b - sqrtb2m4ac) / a2;
      Two(r0, r1)
  }

  /** The monic coefficients `x^3 + a2*x^2 + a1*x + a0` of a cubic with `a != 0`. */
  function Monic(a: real, b: real, c: real, d: real): (real, real, real)
    requires a != 0.0
  {
    (b / a, c / a, d / a)
  }

  /** Cardano's `q` for the monic cubic `x^3 + a2*x^2 + a1*x + a0`. */
  function CardanoQ(a2: real, a1: real): real {
    (3.0 * a1 - a2 * a2) / 9.0
  }

  /** Cardano's `r` for the monic cubic `x^3 + a2*x^2 + a1*x + a0`. */
  function CardanoR(a2: real, a1: real, a0: real): real {
    (9.0 * a2 * a1 - 27.0 * a0 - 2.0 * a2 * a2 * a2) / 54.0
  }

  /** The shift `-a2/3` that turns the monic cubic into a depressed one. */
  function CardanoShift(a2: real): real {
    -a2 / 3.0
  }

  /** The discriminant `q^3 + r^2` whose sign decides how many real roots a cubic has. */
  function CubicDiscriminant(a: real, b: real, c: real, d: real): real
    requires a != 0.0
  {
    var (a2, a1, a0) := Monic(a, b, c, d);
    var q := CardanoQ(a2, a1);
    var r := CardanoR(a2, a1, a0);
    q * q * q + r * r
  }

  /** The depressed cubic `y^3 + 3*q*y - 2*r` that Cardano's `q` and `r` describe. */
  function Depressed(q: real, r: real, y: real): real {
    y * y * y + 3.0 * q * y - 2.0 * r
  }

  /**
   * `a*x^3 + b*x^2 + c*x + d = 0`.  With `a` zero, the quadratic solver's
   * answer; otherwise one root for a positive discriminant, two (the second
   * standing for the repeated pair) for a zero one, and three, by the
   * trigonometric method, for a negative one.
   */
  function SolveCubic(m: Transcendentals, a: real, b: real, c: real, d: real): (r: Roots)
    ensures a == 0.0 ==> r == SolveQuadratic(m, b, c, d)
    ensures a != 0.0 ==> (r.One? <==> CubicDiscriminant(a, b, c, d) > 0.0)
    ensures a != 0.0 ==> (r.Two? <==> CubicDiscriminant(a, b, c, d) == 0.0)
    ensures a != 0.0 ==> (r.Three? <==> CubicDiscriminant(a, b, c, d) < 0.0)
  {
    if a == 0.0 then
      SolveQuadratic(m, b, c, d)
    else
      var (a2, a1, a0) := Monic(a, b, c, d);
      var q := CardanoQ(a2, a1);
      var r := CardanoR(a2, a1, a0);
      var shift := CardanoShift(a2);
      if q * q * q + r * r >= 0.0 then
        CardanoRoots(m, q, r, shift)
      else
        TrigonometricRoots(m, q, r, shift)
  }

  /**
   * The branch of a non-negative discriminant: the real cube roots `s` and
   * `t` of `r +- sqrt(q^3 + r^2)` give the root `shift + s + t`, and a zero
   * discriminant adds the repeated root `shift - s`.
   */
  function CardanoRoots(m: Transcendentals, q: real, r: real, shift: real): (roots: Roots)
    requires q * q * q + r * r >= 0.0
    ensures roots.One? <==> q * q * q + r * r > 0.0
    ensures roots.Two? <==> q * q * q + r * r == 0.0
    ensures roots.One? || roots.Two?
  {
    var q3 := q * q * q;
    var d := q3 + r * r;
    var sqrtd := Sqrt(m, d);
    var s := Cbrt(m, r + sqrtd);
    var t := Cbrt(m, r - sqrtd);
    var r1 := shift + s + t;
    if d == 0.0 then
      var r2 := shift - s;
      Two(r1, r2)
    else
      One(r1)
  }

  /**
   * The branch of a negative discriminant: the three values
   * `2*sqrt(-q)*cos(phi) + shift` for the angles `phi` whose triple is
   * `acos(r / sqrt(-q^3))` up to a multiple of `2*pi`.
   */
  function TrigonometricRoots(m: Transcendentals, q: real, r: real, shift: real): (roots: Roots)
    ensures roots.Three?
  {
    var theta := TrigAngle(m, q * q * q, r);
    var k := 2.0 * Sqrt(m, -q);
    var r1 := k * Cos(m, theta / 3.0) + shift;
    var r2 := k * Cos(m, (theta + 2.0 * m.pi) / 3.0) + shift;
    var r3 := k * Cos(m, (theta - 2.0 * m.pi) / 3.0) + shift;
    Three(r1, r2, r3)
  }

  /**
   * The angle `acos(r / sqrt(-q^3))` of the trigonometric method.  `q^3` is
   * negative there, so an exact square root is positive (`TrigAngleCosine`);
   * a zero one, where the float division would give an infinity, takes the
   * arccosine of `r` undivided.
   */
  function TrigAngle(m: Transcendentals, q3: real, r: real): real {
    var rt := Sqrt(m, -q3);
    if rt == 0.0 then Acos(m, r) else Acos(m, r / rt)
  }

  // ----- The roots returned solve their equations -----

  /** The quadratic formula, for either sign of the square root. */
  lemma QuadraticFormula(a: real, b: real, c: real, s: real, x: real)
    requires a != 0.0
    requires s * s == b * b - a * c * 4.0
    requires x == (-b + s) / (a * 2.0)
    ensures Quadratic(a, b, c, x) == 0.0
  {
    var y := x * (a * 2.0);
    assert y == -b + s;
    assert 4.0 * a * Quadratic(a, b, c, x) == y * y + 2.0 * b * y + 4.0 * a * c;
    assert y * y + 2.0 * b * y + 4.0 * a * c == s * s - b * b + 4.0 * a * c;
    ProductZero(4.0 * a, Quadratic(a, b, c, x));
  }

  /**
   * With a nonzero leading coefficient and a non-negative discriminant, and a
   * square root that is exact, both values returned solve the equation.
   */
  lemma SolveQuadraticSolves(m: Transcendentals, a: real, b: real, c: real)
    requires SqrtExact(m)
    requires a != 0.0 && b * b - a * c * 4.0 >= 0.0
    ensures forall x <- AsSlice(SolveQuadratic(m, a, b, c)) :: Quadratic(a, b, c, x) == 0.0
  {
    var s := Sqrt(m, b * b - a * c * 4.0);
    assert s * s == b * b - a * c * 4.0;
    var r := SolveQuadratic(m, a, b, c);
    QuadraticFormula(a, b, c, s, r.r0);
    assert (-s) * (-s) == s * s;
    assert r.r1 == (-b + -s) / (a * 2.0);
    QuadraticFormula(a, b, c, -s, r.r1);
  }

  /**
   * Substituting `x = y - a2/3` turns the monic cubic into the depressed
   * cubic `y^3 + 3*q*y - 2*r`.
   */
  lemma DepressedCubic(a2: real, a1: real, a0: real, y: real)
    ensures var x := y + -a2 / 3.0;
      x * x * x + a2 * x * x + a1 * x + a0
      == y * y * y + 3.0 * CardanoQ(a2, a1) * y - 2.0 * CardanoR(a2, a1, a0)
  {
  }

  /** A root of the depressed cubic, shifted back, is a root of the original cubic. */
  lemma ShiftedRoot(a: real, b: real, c: real, d: real, x: real)
    requires a != 0.0
    requires var (a2, a1, a0) := Monic(a, b, c, d);
      Depressed(CardanoQ(a2, a1), CardanoR(a2, a1, a0), x - CardanoShift(a2)) == 0.0
    ensures Cubic(a, b, c, d, x) == 0.0
  {
    var (a2, a1, a0) := Monic(a, b, c, d);
    var y := x - CardanoShift(a2);
    DepressedCubic(a2, a1, a0, y);
    assert x == y + -a2 / 3.0;
    assert a * a2 == b && a * a1 == c && a * a0 == d;
    assert Cubic(a, b, c, d, x) == a * (x * x * x + a2 * x * x + a1 * x + a0);
  }

  /** Cardano's root `s + t`, where `s^3` and `t^3` are `r +- sqrt(q^3 + r^2)`. */
  lemma CardanoSum(q: real, r: real, sd: real, s: real, t: real)
    requires sd * sd == q * q * q + r * r
    requires s * s * s == r + sd && t * t * t == r - sd
    ensures s * t == -q
    ensures Depressed(q, r, s + t) == 0.0
  {
    assert (s * t) * (s * t) * (s * t) == (s * s * s) * (t * t * t);
    assert (r + sd) * (r - sd) == r * r - sd * sd;
    assert (-q) * (-q) * (-q) == -(q * q * q);
    CubeInjective(s * t, -q);
    assert (s + t) * (s + t) * (s + t) == s * s * s + t * t * t + 3.0 * (s * t) * (s + t);
  }

  /** With a zero discriminant, `-s` is the second (repeated) root of the depressed cubic. */
  lemma CardanoRepeated(q: real, r: real, s: real)
    requires s * s * s == r && s * s == -q
    ensures Depressed(q, r, -s) == 0.0
  {
    assert 3.0 * q * (-s) == 3.0 * (s * s) * s;
  }

  /** Both values of the Cardano branch solve the depressed cubic, for exact square and cube roots. */
  lemma CardanoRootsSolve(m: Transcendentals, q: real, r: real, shift: real)
    requires SqrtExact(m) && CbrtExact(m) && q * q * q + r * r >= 0.0
    ensures forall x <- AsSlice(CardanoRoots(m, q, r, shift)) :: Depressed(q, r, x - shift) == 0.0
  {
    var d := q * q * q + r * r;
    var sqrtd := Sqrt(m, d);
    var s := Cbrt(m, r + sqrtd);
    var t := Cbrt(m, r - sqrtd);
    assert sqrtd * sqrtd == d;
    assert s * s * s == r + sqrtd && t * t * t == r - sqrtd;
    CardanoSum(q, r, sqrtd, s, t);
    var roots := CardanoRoots(m, q, r, shift);
    assert roots.r0 - shift == s + t;
    if d == 0.0 {
      SqrtZero(m, d);
      assert t == s;
      CardanoRepeated(q, r, s);
      assert roots.r1 - shift == -s;
    }
  }

  /** `q` is negative when `q^3` is. */
  lemma NegativeCube(q: real)
    requires q * q * q < 0.0
    ensures q < 0.0
  {
    if q > 0.0 {
      MulPositive(q, q);
      MulPositive(q * q, q);
    }
  }

  /** `|r| < rt` when `r^2 < rt^2`, so the arccosine argument lies in [-1, 1]. */
  lemma TrigArgumentInRange(r: real, rt: real)
    requires rt > 0.0 && r * r < rt * rt
    ensures -1.0 <= r / rt <= 1.0
  {
    assert (rt - r) * (rt + r) == rt * rt - r * r;
    PositiveProduct(rt - r, rt + r);
    var u := r / rt;
    assert u * rt == r;
    if u > 1.0 {
      MulPositive(u - 1.0, rt);
    } else if u < -1.0 {
      MulPositive(-1.0 - u, rt);
    }
  }

  /** A positive product has factors of equal sign. */
  lemma PositiveProduct(p: real, q: real)
    requires p * q > 0.0
    ensures (p > 0.0 && q > 0.0) || (p < 0.0 && q < 0.0)
  {
    if p > 0.0 && q < 0.0 {
      MulPositive(p, -q);
    } else if p < 0.0 && q > 0.0 {
      MulPositive(-p, q);
    }
  }

  /**
   * The trigonometric root `2*w*cos(phi)` of the depressed cubic, where
   * `w = sqrt(-q)`, `w^3 = sqrt(-q^3)` and `cos(3*phi) = r / sqrt(-q^3)`.
   */
  lemma TrigonometricRoot(q: real, r: real, w: real, rt: real, c: real, c3: real)
    requires w * w == -q && rt > 0.0 && w * w * w == rt
    requires c3 == 4.0 * c * c * c - 3.0 * c && c3 == r / rt
    ensures Depressed(q, r, 2.0 * w * c) == 0.0
  {
    var y := 2.0 * w * c;
    assert y * y * y + 3.0 * q * y == 2.0 * (w * w * w) * (4.0 * c * c * c) + 6.0 * q * w * c;
    assert 6.0 * q * w * c == -6.0 * (w * w * w) * c;
    assert y * y * y + 3.0 * q * y == 2.0 * rt * c3;
    assert rt * (r / rt) == r;
  }

  /** `sqrt(-q)^3 == sqrt(-q^3)` for an exact square root and negative `q`. */
  lemma SqrtCube(m: Transcendentals, q: real)
    requires SqrtExact(m) && q < 0.0 && q * q * q < 0.0
    ensures var w := Sqrt(m, -q); w * w == -q && w * w * w == Sqrt(m, -(q * q * q))
  {
    var w := Sqrt(m, -q);
    var rt := Sqrt(m, -(q * q * q));
    assert w >= 0.0 && w * w == -q;
    assert rt >= 0.0 && rt * rt == -(q * q * q);
    assert (w * w * w) * (w * w * w) == (w * w) * (w * w) * (w * w);
    assert w * w * w == (-q) * w;
    MulNonNegative(-q, w);
    NonNegativeSquareUnique(w * w * w, rt);
  }

  /** The trigonometric angle's cosine is `r / sqrt(-q^3)`, and `sqrt(-q)^3 == sqrt(-q^3)`. */
  lemma TrigAngleCosine(m: Transcendentals, q: real, r: real)
    requires SqrtExact(m) && TrigExact(m)
    requires q * q * q < 0.0 && q * q * q + r * r < 0.0
    ensures q < 0.0
    ensures var w := Sqrt(m, -q); w * w == -q && w * w * w == Sqrt(m, -(q * q * q))
    ensures Sqrt(m, -(q * q * q)) > 0.0
    ensures Cos(m, TrigAngle(m, q * q * q, r)) == r / Sqrt(m, -(q * q * q))
  {
    var q3 := q * q * q;
    NegativeCube(q);
    SqrtCube(m, q);
    var rt := Sqrt(m, -q3);
    SqrtZero(m, -q3);
    assert rt * rt == -q3;
    TrigArgumentInRange(r, rt);
  }

  /** `2*sqrt(-q)*cos(phi)` solves the depressed cubic whenever `cos(3*phi)` is the angle's cosine. */
  lemma TrigonometricDepressedRoot(m: Transcendentals, q: real, r: real, phi: real)
    requires SqrtExact(m) && TrigExact(m)
    requires q * q * q < 0.0 && q * q * q + r * r < 0.0
    requires Cos(m, Thrice(phi)) == Cos(m, TrigAngle(m, q * q * q, r))
    ensures Depressed(q, r, 2.0 * Sqrt(m, -q) * Cos(m, phi)) == 0.0
  {
    TrigAngleCosine(m, q, r);
    var cp := Cos(m, phi);
    assert Cos(m, Thrice(phi)) == 4.0 * cp * cp * cp - 3.0 * cp;
    TrigonometricRoot(q, r, Sqrt(m, -q), Sqrt(m, -(q * q * q)), cp, Cos(m, Thrice(phi)));
  }

  /** The shape in which the trigonometric branch returns a root solves the depressed cubic. */
  lemma TrigonometricShiftedRoot(m: Transcendentals, q: real, r: real, shift: real, phi: real, x: real)
    requires SqrtExact(m) && TrigExact(m)
    requires q * q * q < 0.0 && q * q * q + r * r < 0.0
    requires Cos(m, Thrice(phi)) == Cos(m, TrigAngle(m, q * q * q, r))
    requires x == 2.0 * Sqrt(m, -q) * Cos(m, phi) + shift
    ensures Depressed(q, r, x - shift) == 0.0
  {
    TrigonometricDepressedRoot(m, q, r, phi);
    assert x - shift == 2.0 * Sqrt(m, -q) * Cos(m, phi);
  }

  /** `cos` takes the same value a period above and below. */
  lemma CosPeriodic(m: Transcendentals, theta: real)
    requires TrigExact(m)
    ensures Cos(m, theta + 2.0 * m.pi) == Cos(m, theta)
    ensures Cos(m, theta - 2.0 * m.pi) == Cos(m, theta)
  {
    assert PlusTurn(m, theta) == theta + 2.0 * m.pi;
    assert PlusTurn(m, theta - 2.0 * m.pi) == theta;
  }

  /** All three values of the trigonometric branch solve the depressed cubic, given the laws of cosine. */
  lemma TrigonometricRootsSolve(m: Transcendentals, q: real, r: real, shift: real)
    requires SqrtExact(m) && TrigExact(m) && q * q * q + r * r < 0.0
    ensures var roots := TrigonometricRoots(m, q, r, shift);
      && Depressed(q, r, roots.r0 - shift) == 0.0
      && Depressed(q, r, roots.r1 - shift) == 0.0
      && Depressed(q, r, roots.r2 - shift) == 0.0
  {
    FirstTrigonometricRootSolves(m, q, r, shift);
    SecondTrigonometricRootSolves(m, q, r, shift);
    ThirdTrigonometricRootSolves(m, q, r, shift);
  }

  lemma FirstTrigonometricRootSolves(m: Transcendentals, q: real, r: real, shift: real)
    requires SqrtExact(m) && TrigExact(m) && q * q * q + r * r < 0.0
    ensures Depressed(q, r, TrigonometricRoots(m, q, r, shift).r0 - shift) == 0.0
  {
    assert r * r >= 0.0;
    var theta := TrigAngle(m, q * q * q, r);
    TrigonometricRootSolves(m, q, r, shift, theta / 3.0, TrigonometricRoots(m, q, r, shift).r0);
  }

  lemma SecondTrigonometricRootSolves(m: Transcendentals, q: real, r: real, shift: real)
    requires SqrtExact(m) && TrigExact(m) && q * q * q + r * r < 0.0
    ensures Depressed(q, r, TrigonometricRoots(m, q, r, shift).r1 - shift) == 0.0
  {
    assert r * r >= 0.0;
    var theta := TrigAngle(m, q * q * q, r);
    CosPeriodic(m, theta);
    TrigonometricRootSolves(m, q, r, shift, (theta + 2.0 * m.pi) / 3.0, TrigonometricRoots(m, q, r, shift).r1);
  }

  lemma ThirdTrigonometricRootSolves(m: Transcendentals, q: real, r: real, shift: real)
    requires SqrtExact(m) && TrigExact(m) && q * q * q + r * r < 0.0
    ensures Depressed(q, r, TrigonometricRoots(m, q, r, shift).r2 - shift) == 0.0
  {
    assert r * r >= 0.0;
    var theta := TrigAngle(m, q * q * q, r);
    CosPeriodic(m, theta);
    TrigonometricRootSolves(m, q, r, shift, (theta - 2.0 * m.pi) / 3.0, TrigonometricRoots(m, q, r, shift).r2);
  }

  /** One value `2*sqrt(-q)*cos(phi) + shift` of the trigonometric branch, with `3*phi` a period away from the angle. */
  lemma TrigonometricRootSolves(m: Transcendentals, q: real, r: real, shift: real, phi: real, x: real)
    requires SqrtExact(m) && TrigExact(m) && q * q * q + r * r < 0.0
    requires q * q * q < 0.0
    requires Cos(m, 3.0 * phi) == Cos(m, TrigAngle(m, q * q * q, r))
    requires x == 2.0 * Sqrt(m, -q) * Cos(m, phi) + shift
    ensures Depressed(q, r, x - shift) == 0.0
  {
    assert Thrice(phi) == 3.0 * phi;
    TrigonometricShiftedRoot(m, q, r, shift, phi, x);
  }

  /**
   * Every value the cubic solver returns solves the cubic, given exact
   * square and cube roots and the laws of cosine and arccosine: Cardano's
   * formula when the discriminant is non-negative, the trigonometric method
   * when it is negative.
   */
  lemma SolveCubicSolves(m: Transcendentals, a: real, b: real, c: real, d: real)
    requires SqrtExact(m) && CbrtExact(m) && TrigExact(m)
    requires a != 0.0
    ensures forall x <- AsSlice(SolveCubic(m, a, b, c, d)) :: Cubic(a, b, c, d, x) == 0.0
  {
    SolveCubicSolvesDepressed(m, a, b, c, d);
    forall x | x in AsSlice(SolveCubic(m, a, b, c, d))
      ensures Cubic(a, b, c, d, x) == 0.0
    {
      ShiftedRoot(a, b, c, d, x);
    }
  }

  /** Every value the cubic solver returns, shifted by `a2/3`, solves the depressed cubic. */
  lemma SolveCubicSolvesDepressed(m: Transcendentals, a: real, b: real, c: real, d: real)
    requires SqrtExact(m) && CbrtExact(m) && TrigExact(m)
    requires a != 0.0
    ensures var (a2, a1, a0) := Monic(a, b, c, d);
      forall x <- AsSlice(SolveCubic(m, a, b, c, d)) ::
        Depressed(CardanoQ(a2, a1), CardanoR(a2, a1, a0), x - CardanoShift(a2)) == 0.0
  {
    if CubicDiscriminant(a, b, c, d) >= 0.0 {
      CardanoBranchSolves(m, a, b, c, d);
    } else {
      TrigonometricBranchSolves(m, a, b, c, d);
    }
  }

  lemma CardanoBranchSolves(m: Transcendentals, a: real, b: real, c: real, d: real)
    requires SqrtExact(m) && CbrtExact(m)
    requires a != 0.0 && CubicDiscriminant(a, b, c, d) >= 0.0
    ensures var (a2, a1, a0) := Monic(a, b, c, d);
      forall x <- AsSlice(SolveCubic(m, a, b, c, d)) ::
        Depressed(CardanoQ(a2, a1), CardanoR(a2, a1, a0), x - CardanoShift(a2)) == 0.0
  {
    var (a2, a1, a0) := Monic(a, b, c, d);
    assert SolveCubic(m, a, b, c, d) == CardanoRoots(m, CardanoQ(a2, a1), CardanoR(a2, a1, a0), CardanoShift(a2));
    CardanoRootsSolve(m, CardanoQ(a2, a1), CardanoR(a2, a1, a0), CardanoShift(a2));
  }

  lemma TrigonometricBranchSolves(m: Transcendentals, a: real, b: real, c: real, d: real)
    requires SqrtExact(m) && TrigExact(m)
    requires a != 0.0 && CubicDiscriminant(a, b, c, d) < 0.0
    ensures var (a2, a1, a0) := Monic(a, b, c, d);
      forall x <- AsSlice(SolveCubic(m, a, b, c, d)) ::
        Depressed(CardanoQ(a2, a1), CardanoR(a2, a1, a0), x - CardanoShift(a2)) == 0.0
  {
    var (a2, a1, a0) := Monic(a, b, c, d);
    var q, r := CardanoQ(a2, a1), CardanoR(a2, a1, a0);
    assert CubicDiscriminant(a, b, c, d) == q * q * q + r * r;
    assert SolveCubic(m, a, b, c, d) == TrigonometricRoots(m, CardanoQ(a2, a1), CardanoR(a2, a1, a0), CardanoShift(a2));
    TrigonometricRootsSolve(m, CardanoQ(a2, a1), CardanoR(a2, a1, a0), CardanoShift(a2));
  }



  /**
   * The solvers never fail: whatever the coefficients, at most three values
   * come back, and every value returned is a root of the equation, except
   * for the quadratic formula applied to a negative discriminant (where the
   * square root has no real meaning).
   */
  lemma SolveCubicTotal(m: Transcendentals, a: real, b: real, c: real, d: real)
    requires SqrtExact(m) && CbrtExact(m) && TrigExact(m)
    requires a == 0.0 && b != 0.0 ==> c * c - b * d * 4.0 >= 0.0
    ensures |AsSlice(SolveCubic(m, a, b, c, d))| <= 3
    ensures forall x <- AsSlice(SolveCubic(m, a, b, c, d)) :: Cubic(a, b, c, d, x) == 0.0
  {
    if a != 0.0 {
      SolveCubicSolves(m, a, b, c, d);
    } else if b != 0.0 {
      SolveQuadraticSolves(m, b, c, d);
      forall x | x in AsSlice(SolveQuadratic(m, b, c, d))
        ensures Cubic(a, b, c, d, x) == 0.0
      {
        assert Cubic(a, b, c, d, x) == Quadratic(b, c, d, x);
      }
    } else {
      forall x | x in AsSlice(SolveLinear(c, d))
        ensures Cubic(a, b, c, d, x) == 0.0
      {
        assert Cubic(a, b, c, d, x) == Linear(c, d, x);
      }
    }
  }

  // ----- No real root is missed -----

  /** A square is never negative. */
  lemma SquareNonNegative(p: real)
    ensures 0.0 <= p * p
  {
    if p != 0.0 {
      SquarePositive(p);
    }
  }

  /** With a nonzero `a`, every root of `a*x + b` is the one returned. */
  lemma SolveLinearComplete(a: real, b: real, x: real)
    requires a != 0.0 && Linear(a, b, x) == 0.0
    ensures x in AsSlice(SolveLinear(a, b))
  {
    QuotientUnique(a, -b, x);
  }

  /** `g = 2*a*x + b` squares to the discriminant at every root `x`. */
  lemma RootDiscriminant(a: real, b: real, c: real, x: real)
    requires Quadratic(a, b, c, x) == 0.0
    ensures (a * 2.0 * x + b) * (a * 2.0 * x + b) == b * b - a * c * 4.0
    ensures b * b - a * c * 4.0 >= 0.0
  {
    var g := a * 2.0 * x + b;
    assert g * g == b * b - a * c * 4.0 + 4.0 * a * Quadratic(a, b, c, x);
    SquareNonNegative(g);
  }

  /** `a*t == n` pins `t` down as `n/a`. */
  lemma QuotientUnique(a: real, n: real, t: real)
    requires a != 0.0 && a * t == n
    ensures t == n / a
  {
    DivCancels(n, a);
    MulCancels(a, t, n / a);
  }

  /**
   * A root of a quadratic with nonzero `a` is `(-b + s)/(2a)` or
   * `(-b - s)/(2a)` for the non-negative square root `s` of the discriminant.
   */
  lemma QuadraticRootIsFormula(a: real, b: real, c: real, s: real, x: real)
    requires a != 0.0 && Quadratic(a, b, c, x) == 0.0
    requires 0.0 <= s && s * s == b * b - a * c * 4.0
    ensures x == (-b + s) / (a * 2.0) || x == (-b - s) / (a * 2.0)
  {
    RootDiscriminant(a, b, c, x);
    var g := a * 2.0 * x + b;
    SquareRootSign(g, s);
    if g == s {
      QuotientUnique(a * 2.0, -b + s, x);
    } else {
      QuotientUnique(a * 2.0, -b - s, x);
    }
  }

  /** A number with the same square as the non-negative `s` is `s` or `-s`. */
  lemma SquareRootSign(g: real, s: real)
    requires 0.0 <= s && g * g == s * s
    ensures g == s || g == -s
  {
    if g >= 0.0 {
      NonNegativeSquareUnique(g, s);
    } else {
      assert (-g) * (-g) == g * g;
      NonNegativeSquareUnique(-g, s);
    }
  }

  /**
   * With a nonzero `a` and an exact square root, every real root of
   * `a*x^2 + b*x + c` makes the discriminant non-negative and is one of the
   * two values returned.
   */
  lemma SolveQuadraticComplete(m: Transcendentals, a: real, b: real, c: real, x: real)
    requires SqrtExact(m)
    requires a != 0.0 && Quadratic(a, b, c, x) == 0.0
    ensures b * b - a * c * 4.0 >= 0.0
    ensures x in AsSlice(SolveQuadratic(m, a, b, c))
  {
    RootDiscriminant(a, b, c, x);
    var s := Sqrt(m, b * b - a * c * 4.0);
    QuadraticRootIsFormula(a, b, c, s, x);
  }

  /** `p^2 + 3*u^2` is zero only when both `p` and `u` are. */
  lemma SquareSumZero(p: real, u: real)
    requires p * p + 3.0 * (u * u) == 0.0
    ensures p == 0.0 && u == 0.0
  {
    SquareNonNegative(p);
    SquareNonNegative(u);
    SquareZero(p);
    SquareZero(u);
  }

  /**
   * Every real root `y` of the depressed cubic is Cardano's `s + t`, or `-s`
   * when the discriminant is zero.  Dividing out the root `y0 = s + t`
   * leaves `y^2 + y*y0 + y0^2 + 3q`, four times which is
   * `(2y + y0)^2 + 3(s - t)^2` since `s*t == -q`.
   */
  lemma CardanoComplete(q: real, r: real, sd: real, s: real, t: real, y: real)
    requires sd >= 0.0 && sd * sd == q * q * q + r * r
    requires s * s * s == r + sd && t * t * t == r - sd
    requires Depressed(q, r, y) == 0.0
    ensures y == s + t || (sd == 0.0 && y == -s)
  {
    CardanoSum(q, r, sd, s, t);
    var y0 := s + t;
    var f := y * y + y * y0 + y0 * y0 + 3.0 * q;
    assert (y - y0) * f == Depressed(q, r, y) - Depressed(q, r, y0);
    if y != y0 {
      ProductZero(y - y0, f);
      assert 4.0 * f == (2.0 * y + y0) * (2.0 * y + y0) + 3.0 * ((s - t) * (s - t));
      SquareSumZero(2.0 * y + y0, s - t);
      assert s * s * s == t * t * t;
    }
  }

  /**
   * With exact square and cube roots and a non-negative discriminant, every
   * real root of the depressed cubic, shifted, is among Cardano's values.
   */
  lemma CardanoRootsComplete(m: Transcendentals, q: real, r: real, shift: real, x: real)
    requires SqrtExact(m) && CbrtExact(m) && q * q * q + r * r >= 0.0
    requires Depressed(q, r, x - shift) == 0.0
    ensures x in AsSlice(CardanoRoots(m, q, r, shift))
  {
    var d := q * q * q + r * r;
    var sqrtd := Sqrt(m, d);
    var s := Cbrt(m, r + sqrtd);
    var t := Cbrt(m, r - sqrtd);
    assert 0.0 <= sqrtd && sqrtd * sqrtd == d;
    assert s * s * s == r + sqrtd && t * t * t == r - sqrtd;
    CardanoComplete(q, r, sqrtd, s, t, x - shift);
    var roots := CardanoRoots(m, q, r, shift);
    if x - shift == s + t {
      assert x == roots.r0;
    } else {
      assert d == 0.0;
      assert x == roots.r1;
    }
  }

  /** A root of the original cubic, shifted by `a2/3`, is a root of the depressed cubic. */
  lemma RootShifted(a: real, b: real, c: real, d: real, x: real)
    requires a != 0.0 && Cubic(a, b, c, d, x) == 0.0
    ensures var (a2, a1, a0) := Monic(a, b, c, d);
      Depressed(CardanoQ(a2, a1), CardanoR(a2, a1, a0), x - CardanoShift(a2)) == 0.0
  {
    var (a2, a1, a0) := Monic(a, b, c, d);
    var y := x - CardanoShift(a2);
    DepressedCubic(a2, a1, a0, y);
    assert x == y + -a2 / 3.0;
    assert a * a2 == b && a * a1 == c && a * a0 == d;
    assert Cubic(a, b, c, d, x) == a * (x * x * x + a2 * x * x + a1 * x + a0);
    ProductZero(a, x * x * x + a2 * x * x + a1 * x + a0);
  }

  /**
   * No real root is missed, with exact square and cube roots, wherever the
   * solver does not take the trigonometric branch: a cubic with a
   * non-negative discriminant, and the quadratic and linear equations it
   * hands down.  The equation `d == 0` with all other coefficients zero,
   * which every `x` solves, gets no roots.
   */
  lemma SolveCubicComplete(m: Transcendentals, a: real, b: real, c: real, d: real, x: real)
    requires SqrtExact(m) && CbrtExact(m)
    requires Cubic(a, b, c, d, x) == 0.0
    requires a != 0.0 ==> CubicDiscriminant(a, b, c, d) >= 0.0
    ensures a != 0.0 || b != 0.0 || c != 0.0 ==> x in AsSlice(SolveCubic(m, a, b, c, d))
    ensures a == 0.0 && b == 0.0 && c == 0.0 ==> d == 0.0 && SolveCubic(m, a, b, c, d) == None
  {
    if a != 0.0 {
      var (a2, a1, a0) := Monic(a, b, c, d);
      RootShifted(a, b, c, d, x);
      assert SolveCubic(m, a, b, c, d) == CardanoRoots(m, CardanoQ(a2, a1), CardanoR(a2, a1, a0), CardanoShift(a2));
      CardanoRootsComplete(m, CardanoQ(a2, a1), CardanoR(a2, a1, a0), CardanoShift(a2), x);
    } else if b != 0.0 {
      assert Cubic(a, b, c, d, x) == Quadratic(b, c, d, x);
      SolveQuadraticComplete(m, b, c, d, x);
    } else if c != 0.0 {
      assert Cubic(a, b, c, d, x) == Linear(c, d, x);
      SolveLinearComplete(c, d, x);
    }
  }
}
