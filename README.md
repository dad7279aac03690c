# Splinter curves in Dafny

Splinter is a small kernel for polynomial curves of degree one, two and
three. Each curve is stored by its monomial coefficients
`x0 + x1*t + x2*t^2 (+ x3*t^3)`. The kernel offers:

- evaluation and derivatives;
- conversion to and from Bezier control points;
- subdivision;
- degree elevation and fixed-formula degree reduction;
- arc length, and parameterisation by arc length;
- the nearest point to a query point;
- a closed-form solver for linear, quadratic and cubic equations.

The code is generic over a scalar field and an inner-product space.

This model takes the scalar to be Dafny's exact `real`. The curves are modelled over the
scalar instance of the inner-product space, where a vector is a scalar and
the inner product is the plain product (`src/lib.rs:85-89`). The concrete
two-dimensional space `Vector2` is modelled on its own, together with its
laws and its in-place operators.

The scalar's transcendental operations have no exact counterpart in Dafny:
square root, cube root, natural log, arccosine, cosine and pi. They
are a record of functions (`Scalars.Transcendentals`) passed to every
operation that needs them. The facts a proof relies on are predicates:
`SqrtExact`, `CbrtExact`, `LnOfOne` and `TrigExact` state that `sqrt` gives
the non-negative square root, that `cbrt` gives a real cube root, that
`ln(1) == 0`, and that `acos` inverts `cos`, with the triple-angle law and period 2 pi. A lemma needing one of
them names it in its `requires`.

Files and modules:

| file | module | models |
|---|---|---|
| `scalar.dfy` | `Scalars` | the transcendental record, `abs`, sign and square facts |
| `option.dfy` | `Options` | `Option` |
| `vector2.dfy` | `Vectors` | `src/vector2.rs` |
| `roots.dfy` | `RootSolver` | `src/roots.rs` |
| `linear_curve.dfy` | `LinearCurves` | `src/linear_curve.rs` |
| `quadratic_curve.dfy` | `QuadraticCurves` | `src/quadratic_curve.rs`, and `to_quadratic` of `src/linear_curve.rs` |
| `cubic_curve.dfy` | `CubicCurves` | `src/cubic_curve.rs`, and `to_cubic` of `src/quadratic_curve.rs` |

The source's modules import each other in a cycle. Dafny modules cannot, so each degree-raising
conversion lives with the curve it produces. Expressions and pure functions of
the source are Dafny functions. The two loops of `src/quadratic_curve.rs`,
the arc-length search `parameterize` and the candidate scan `nearest_point`,
are methods with loop invariants. The compound assignments of `Vector2` are methods of the class
`Vectors.Vector2Cell`, which holds the two components as mutable fields.

## Model

| member | source | states |
|---|---|---|
| Scalars.Inner | src/lib.rs:85-89 | the inner product of the scalar instance, the plain product, used by `LinearCurves.Speed` |
| Vectors.Add | src/vector2.rs:24-33 | componentwise sum; `AddCommutes`, `AddAssociates` and `ZeroIsIdentity` give its laws |
| Vectors.Sub | src/vector2.rs:89-98 | componentwise difference; `SubIsAddNeg` ties it to `Add` and `Neg` |
| Vectors.Neg | src/vector2.rs:78-87 | componentwise negation; `NegIsInverse` makes it the additive inverse |
| Vectors.Mul | src/vector2.rs:60-69 | scaling of both components; `MulDistributes` gives its laws |
| Vectors.Div | src/vector2.rs:42-51 | division of both components by a nonzero scalar; `DivIsMulInverse` ties it to `Mul` |
| Vectors.Zero | src/vector2.rs:107-113 | the vector `(0, 0)`; `ZeroIsIdentity` makes it the identity of `Add` |
| Vectors.InnerProduct | src/vector2.rs:115-119 | `x1*x2 + y1*y2`; symmetric, bilinear, positive and bounded by Cauchy-Schwarz in the lemmas below |
| Vectors.EmbedIsScalar | src/lib.rs:85-89 | on the x-axis the inner product is the scalar product and the operators are the scalar ones |
| Vectors.AddCommutes | src/vector2.rs:24-33 | vector addition is commutative |
| Vectors.AddAssociates | src/vector2.rs:24-33 | vector addition is associative |
| Vectors.ZeroIsIdentity | src/vector2.rs:107-113 | `zero()` is a two-sided identity of `+`, of subtraction on the right, and `v*0` is zero |
| Vectors.NegIsInverse | src/vector2.rs:78-87 | `v + (-v) == 0` and `0 - v == -v` |
| Vectors.SubIsAddNeg | src/vector2.rs:89-98 | `a - b == a + (-b)` |
| Vectors.MulDistributes | src/vector2.rs:60-69 | scaling distributes over vector and scalar sums and composes as a product |
| Vectors.DivIsMulInverse | src/vector2.rs:42-51 | dividing by a nonzero `s` is scaling by `1/s`, and scaling back by `s` restores the vector |
| Vectors.InnerProductSymmetric | src/vector2.rs:115-119 | the inner product is symmetric |
| Vectors.InnerProductBilinear | src/vector2.rs:115-119 | the inner product is linear in its first argument (sum, difference, scaling) |
| Vectors.InnerProductPositive | src/vector2.rs:115-119 | `<v, v> >= 0`, and it is zero exactly for the zero vector |
| Vectors.CauchySchwarz | src/vector2.rs:115-119 | `<a, b>^2 <= <a, a><b, b>` |
| Vectors.Vector2Cell.constructor | src/vector2.rs:121-127 | the new place holds the given vector |
| Vectors.Vector2Cell.AddAssign | src/vector2.rs:35-40 | after `+=` the place holds the old value plus the operand |
| Vectors.Vector2Cell.SubAssign | src/vector2.rs:100-105 | after `-=` the place holds the old value minus the operand |
| Vectors.Vector2Cell.MulAssign | src/vector2.rs:71-76 | after `*=` the place holds the old value scaled by the operand |
| Vectors.Vector2Cell.DivAssign | src/vector2.rs:53-58 | after `/=` by a nonzero scalar the place holds the old value divided by it |
| RootSolver.AsSlice | src/roots.rs:10-19 | the slice has 0, 1, 2 or 3 elements exactly for the variants `None`, `One`, `Two`, `Three` |
| RootSolver.SolveLinear | src/roots.rs:21-27 | no root exactly when `a == 0`, otherwise one root `x` with `a*x + b == 0` |
| RootSolver.SolveQuadratic | src/roots.rs:29-39 | with `a == 0` the result is `solve_linear(b, c)`; otherwise always two values, whatever the discriminant; `SolveQuadraticComplete` shows no real root is missed |
| RootSolver.QuadraticFormula | src/roots.rs:33-36 | `(-b + s)/(2a)`, for either square root `s` of `b^2 - 4ac`, is a root |
| RootSolver.SolveQuadraticSolves | src/roots.rs:33-37 | with an exact square root and a non-negative discriminant, both values returned solve the quadratic |
| RootSolver.SolveCubic | src/roots.rs:41-78 | with `a == 0` the result is `solve_quadratic(b, c, d)`; otherwise one, two or three values exactly when `q^3 + r^2` is positive, zero or negative; `SolveCubicSolves` and `SolveCubicComplete` relate them to the real roots |
| RootSolver.CardanoRoots | src/roots.rs:56-68 | Cardano's branch gives two values for a zero discriminant and one for a positive one; `CardanoRootsSolve` and `CardanoRootsComplete` show they are exactly the real roots of the depressed cubic, shifted |
| RootSolver.TrigonometricRoots | src/roots.rs:69-76 | the trigonometric branch gives three values |
| RootSolver.DepressedCubic | src/roots.rs:45-54 | substituting `x = y - a2/3` turns the monic cubic into the depressed cubic `y^3 + 3qy - 2r` |
| RootSolver.ShiftedRoot | src/roots.rs:45-54 | a root of the depressed cubic, shifted back, is a root of the original cubic |
| RootSolver.CardanoSum | src/roots.rs:57-61 | with cube roots `s`, `t` of `r +- sqrt(q^3 + r^2)`, `s*t == -q` and `s + t` solves the depressed cubic |
| RootSolver.CardanoRepeated | src/roots.rs:63-65 | for a zero discriminant, `-s` is the repeated root |
| RootSolver.CardanoRootsSolve | src/roots.rs:56-68 | with exact square and cube roots, every value of Cardano's branch solves the depressed cubic |
| RootSolver.TrigonometricRoot | src/roots.rs:70-72 | `2*sqrt(-q)*cos(phi)` solves the depressed cubic when `cos(3 phi) == r / sqrt(-q^3)` |
| RootSolver.TrigAngle | src/roots.rs:70 | `acos(r / sqrt(-q^3))`; `TrigAngleCosine` gives its cosine |
| RootSolver.TrigAngleCosine | src/roots.rs:70-71 | with exact roots and trigonometry, the angle's cosine is `r / sqrt(-q^3)` and `sqrt(-q)^3 == sqrt(-q^3)` |
| RootSolver.TrigonometricDepressedRoot | src/roots.rs:70-75 | any angle whose triple has the angle's cosine gives a root of the depressed cubic |
| RootSolver.TrigonometricRootsSolve | src/roots.rs:69-76 | all three values of the trigonometric branch solve the depressed cubic |
| RootSolver.FirstTrigonometricRootSolves | src/roots.rs:72 | the root from `theta/3` solves the depressed cubic |
| RootSolver.SecondTrigonometricRootSolves | src/roots.rs:73 | the root from `(theta + 2 pi)/3` solves the depressed cubic |
| RootSolver.ThirdTrigonometricRootSolves | src/roots.rs:74 | the root from `(theta - 2 pi)/3` solves the depressed cubic |
| RootSolver.SolveCubicSolves | src/roots.rs:44-77 | for `a != 0`, with exact square root, cube root and trigonometry, every returned value solves `ax^3 + bx^2 + cx + d == 0` |
| RootSolver.SolveLinearComplete | src/roots.rs:21-27 | with `a != 0`, every root of `a*x + b` is the value returned |
| RootSolver.RootDiscriminant | src/roots.rs:33-34 | at a root `x`, `(2ax + b)^2` is the discriminant, which is therefore non-negative |
| RootSolver.QuotientUnique | src/roots.rs:35-36 | `a*t == n` with `a != 0` forces `t == n/a` |
| RootSolver.SquareRootSign | src/roots.rs:34 | a number squaring to `s^2`, for `s >= 0`, is `s` or `-s` |
| RootSolver.QuadraticRootIsFormula | src/roots.rs:33-37 | every root of a quadratic with `a != 0` is `(-b + s)/(2a)` or `(-b - s)/(2a)` for the non-negative square root `s` of the discriminant |
| RootSolver.SolveQuadraticComplete | src/roots.rs:29-39 | with `a != 0` and an exact square root, every real root makes the discriminant non-negative and is one of the two values returned |
| RootSolver.SquareSumZero | src/roots.rs:56-68 | `p^2 + 3u^2 == 0` only for `p == u == 0` |
| RootSolver.CardanoComplete | src/roots.rs:56-68 | every real root of the depressed cubic is `s + t`, or `-s` when `sqrt(q^3 + r^2)` is zero |
| RootSolver.CardanoRootsComplete | src/roots.rs:56-68 | with exact square and cube roots, every real root of the depressed cubic, shifted, is among Cardano's values |
| RootSolver.RootShifted | src/roots.rs:45-54 | a root of the original cubic, shifted by `a2/3`, is a root of the depressed cubic |
| RootSolver.SolveCubicComplete | src/roots.rs:41-78 | with exact square and cube roots, no real root is missed when `a != 0` and `q^3 + r^2 >= 0`, nor by the quadratic and linear fallbacks; the equation with only `d`, which every `x` solves when `d == 0`, gets no roots |
| RootSolver.SolveCubicTotal | src/roots.rs:41-78 | the solver returns at most three values, and each solves its equation whenever the quadratic fallback has a non-negative discriminant |
| LinearCurves.Evaluate | src/linear_curve.rs:28-30 | the point `x0 + x1 t`; `EvaluateEndpoints` and `BernsteinForm` place it |
| LinearCurves.EvaluateDerivative | src/linear_curve.rs:32-34 | the constant `x1`; `DerivativeIsRate` makes it the rate of change of `Evaluate` |
| LinearCurves.FromBezier | src/linear_curve.rs:36-41 | the coefficients `(b0, b1 - b0)`; the round trips invert it |
| LinearCurves.ToBezier | src/linear_curve.rs:43-48 | the control points `(x0, x0 + x1)`; the round trips invert it |
| LinearCurves.Subdivide | src/linear_curve.rs:50-63 | the two pieces as the source writes them, right slope `x1 u`; `SubdivideLeft` and `SubdivideRightEnd` state what they trace |
| LinearCurves.SubdivideCorrected | src/linear_curve.rs:50-63 | the pieces with right slope `x1 (1 - u)`; `SubdivideCorrectedPieces` states that they trace `[0, u]` and `[u, 1]` |
| LinearCurves.Speed | src/linear_curve.rs:73-75 | `sqrt(<x1, x1>)`; `SpeedIsNorm` makes it the norm of the derivative |
| LinearCurves.Length | src/linear_curve.rs:77-79 | `u` times the speed; `LengthAdditive` states that it is additive |
| LinearCurves.NearestPoint | src/linear_curve.rs:90-92 | `<x1, q - x0>` as the source writes it; `NearestPointCorrectedStationary` relates it to the nearest parameter |
| LinearCurves.NearestPointCorrected | src/linear_curve.rs:90-92 | `<x1, q - x0> / <x1, x1>`, proved nearest by `NearestPointCorrectedIsNearest` |
| LinearCurves.BezierRoundTrip | src/linear_curve.rs:36-48 | Bezier points to coefficients and back give the same points |
| LinearCurves.MonomialRoundTrip | src/linear_curve.rs:36-48 | coefficients to Bezier points and back give the same curve |
| LinearCurves.EvaluateEndpoints | src/linear_curve.rs:28-48 | the line starts at `x0`, the first Bezier point, and ends at the second |
| LinearCurves.BernsteinForm | src/linear_curve.rs:36-41 | the line through two Bezier points is `(1-t) b0 + t b1` |
| LinearCurves.DerivativeIsRate | src/linear_curve.rs:28-34 | the derivative is the exact rate of change of `evaluate` |
| LinearCurves.SubdivideLeft | src/linear_curve.rs:50-63 | the left piece traces `[0, u]`, and the right piece starts where it ends, at `evaluate(u)` |
| LinearCurves.SubdivideRightEnd | src/linear_curve.rs:58-61 | as written, the right piece ends at `x0 + 2u x1`, which is the curve's end exactly when `u == 1/2` or `x1 == 0` |
| LinearCurves.SubdivideRightEndExample | src/linear_curve.rs:60 | splitting `(0, 1)` at a quarter gives a right piece ending at `0.5`, not `1` |
| LinearCurves.SubdivideCorrectedPieces | src/linear_curve.rs:50-63 | with right slope `x1(1-u)` the pieces trace `[0, u]` and `[u, 1]` and meet the ends |
| LinearCurves.SpeedIsNorm | src/linear_curve.rs:73-75 | with an exact square root, the speed is non-negative, squares to the derivative's square, and is zero exactly when `x1 == 0` |
| LinearCurves.LengthAdditive | src/linear_curve.rs:77-79 | `length(0) == 0` and length is additive in `u` |
| LinearCurves.Parameterize | src/linear_curve.rs:81-88 | `None` exactly for zero speed, otherwise a parameter whose length is `v` |
| LinearCurves.ParameterizeLength | src/linear_curve.rs:81-88 | for nonzero speed, `parameterize(length(u)) == Some(u)` |
| LinearCurves.ParameterizeNone | src/linear_curve.rs:81-88 | with an exact square root, `parameterize` is `None` exactly for a line with `x1 == 0` |
| LinearCurves.NearestPointCorrectedStationary | src/linear_curve.rs:90-92 | the source's value is `<x1, x1>` times the true nearest parameter |
| LinearCurves.NearestPointCorrectedIsNearest | src/linear_curve.rs:90-92 | `<x1, q - x0> / <x1, x1>` minimises the squared distance over all parameters |
| LinearCurves.NearestPointUnitDirection | src/linear_curve.rs:90-92 | for a unit direction the source's value is the nearest parameter |
| LinearCurves.NearestPointExample | src/linear_curve.rs:90-92 | for the line `(0, 2)` and `q == 2` the source returns `4`, at squared distance `36` |
| LinearCurves.NearestPointCorrectedExample | src/linear_curve.rs:90-92 | the corrected value for the same input is `1`, at distance `0` |
| QuadraticCurves.Evaluate | src/quadratic_curve.rs:36-38 | the point `x0 + x1 t + x2 t^2`; `EvaluateEndpoints`, `BernsteinForm` and `TaylorExpansion` state its properties |
| QuadraticCurves.EvaluateFirstDerivative | src/quadratic_curve.rs:40-42 | `x1 + 2 x2 t`; `TaylorExpansion` makes it the exact first derivative |
| QuadraticCurves.EvaluateSecondDerivative | src/quadratic_curve.rs:44-46 | the constant `2 x2`; `TaylorExpansion` makes it the exact second derivative |
| QuadraticCurves.FromBezier | src/quadratic_curve.rs:48-54 | the coefficients of three control points; the round trips invert it |
| QuadraticCurves.ToBezier | src/quadratic_curve.rs:56-62 | the control points of a curve; the round trips invert it |
| QuadraticCurves.Subdivide | src/quadratic_curve.rs:64-82 | the pieces `[0, u]` and `[u, 1]`; `SubdivideLeft` and `SubdivideRight` state what they trace |
| QuadraticCurves.ToQuadratic | src/linear_curve.rs:65-71 | the line with a zero quadratic coefficient; `ToQuadraticAgrees`, `ToQuadraticSpeed` and `ToQuadraticLength` state that it is the same line |
| QuadraticCurves.ErrorMinimizingLinearApproximation | src/quadratic_curve.rs:213-218 | the line `(x0 - x2/8, x1 + x2)`; `ErrorMinimizingBound` and `ErrorMinimizingEquioscillates` bound its error |
| QuadraticCurves.ContinuityPreservingLinearApproximation | src/quadratic_curve.rs:220-225 | the chord `(x0, x1 + x2)`; `ContinuityPreservingEndpoints` states that it meets both ends |
| QuadraticCurves.SpeedFromCoefficients | src/quadratic_curve.rs:100-103 | `sqrt(c + u (b + a u))`; `SpeedIsDerivativeNorm` makes it the norm of the derivative |
| QuadraticCurves.Speed | src/quadratic_curve.rs:105-107 | the speed from the curve's own coefficients; `SpeedIsDerivativeNorm` states it is `|evaluate'(u)|` |
| QuadraticCurves.LengthFromCoefficients | src/quadratic_curve.rs:109-127 | the closed-form length, `u sqrt(c)` when `a == 0`; `LengthWithoutQuadraticTerm`, `LengthGuardsNotTaken` and `LogTermNeverReached` state which branch is taken |
| QuadraticCurves.CurvedLength | src/quadratic_curve.rs:114-124 | the quantities `n`, `p0`, `p1` and `d` of the branch for nonzero `a`; with `ln(1) == 0` it is zero at `u == 0` |
| QuadraticCurves.StartVanishes | src/quadratic_curve.rs:115-124 | at `u == 0`, `p1 == p0` and `p1^2 + d == c`, so `s1 == s0` and, with `ln(1) == 0`, the closed form is zero |
| QuadraticCurves.ClosedFormAtStart | src/quadratic_curve.rs:120-124 | with `p1 == p0`, `s1 == s0` and `ln(1) == 0` both branches of the closed form are zero |
| QuadraticCurves.ClosedForm | src/quadratic_curve.rs:120-124 | `n (p1 s1 - p0 s0)`, with the log term added when `d` is nonzero; `LogDenominator` shows its divisor is nonzero then |
| QuadraticCurves.Length | src/quadratic_curve.rs:129-131 | the length from the curve's own coefficients; the length lemmas below give its values |
| QuadraticCurves.FalsePosition | src/quadratic_curve.rs:143 | the secant estimate; `FalsePositionInBracket` keeps it in the bracket |
| QuadraticCurves.ToQuadraticAgrees | src/linear_curve.rs:65-71 | the elevated line has the line's value and derivative at every `t` |
| QuadraticCurves.ToQuadraticSpeed | src/linear_curve.rs:65-75 | the elevated line has the line's speed |
| QuadraticCurves.ToQuadraticLength | src/linear_curve.rs:65-79 | the elevated line has the line's arc length |
| QuadraticCurves.BezierRoundTrip | src/quadratic_curve.rs:48-62 | Bezier points to coefficients and back give the same points |
| QuadraticCurves.MonomialRoundTrip | src/quadratic_curve.rs:48-62 | coefficients to Bezier points and back give the same curve |
| QuadraticCurves.EvaluateEndpoints | src/quadratic_curve.rs:36-62 | the curve starts at `x0` and ends at `x0 + x1 + x2`, its first and last Bezier points |
| QuadraticCurves.BernsteinForm | src/quadratic_curve.rs:48-54 | the curve through three Bezier points is their Bernstein combination |
| QuadraticCurves.TaylorExpansion | src/quadratic_curve.rs:36-46 | the two derivatives are exact: the curve equals its second-order Taylor expansion about any `t` |
| QuadraticCurves.EvaluateExample | src/quadratic_curve.rs:242-256 | `(1, 1, 1)` at one half has value `1.75`, slope `2` and second derivative `2` |
| QuadraticCurves.SubdivideLeft | src/quadratic_curve.rs:64-82 | the left piece is `(x0, x1 u, x2 u^2)` and traces `[0, u]` |
| QuadraticCurves.SubdivideRight | src/quadratic_curve.rs:64-82 | the right piece traces `[u, 1]`, starts where the left piece ends and ends at `evaluate(1)` |
| QuadraticCurves.SubdivideExample | src/quadratic_curve.rs:276-288 | splitting `(1, 1, 1)` at a quarter gives `(1, 0.25, 0.0625)` and `(1.3125, 1.125, 0.5625)` |
| QuadraticCurves.ApproximationsOfLine | src/quadratic_curve.rs:213-225 | both linear approximations of an elevated line give the line back |
| QuadraticCurves.ErrorMinimizingError | src/quadratic_curve.rs:213-218 | the minimising line's error is `x2 (t^2 - t + 1/8)` |
| QuadraticCurves.ErrorMinimizingBound | src/quadratic_curve.rs:213-218 | that error is at most `|x2|/8` on `[0, 1]` |
| QuadraticCurves.ErrorMinimizingEquioscillates | src/quadratic_curve.rs:213-218 | the error is `x2/8`, `-x2/8`, `x2/8` at `0`, `1/2`, `1`, so the bound is reached with alternating sign |
| QuadraticCurves.ContinuityPreservingEndpoints | src/quadratic_curve.rs:220-225 | the continuity-preserving line meets the curve at both ends, with error `x2 (t^2 - t)` |
| QuadraticCurves.SpeedCoefficients | src/quadratic_curve.rs:93-98 | `c` and `a` are non-negative and `b^2 == 4ac`: the squared speed is a perfect square |
| QuadraticCurves.SpeedCoefficientsVanish | src/quadratic_curve.rs:93-98 | all three coefficients vanish exactly when `x1 == x2 == 0` |
| QuadraticCurves.SpeedIsDerivativeNorm | src/quadratic_curve.rs:100-107 | with an exact square root, the speed is the magnitude of the first derivative |
| QuadraticCurves.SpeedWithoutVariation | src/quadratic_curve.rs:100-103 | with `b == a == 0` the speed is `sqrt(c)` everywhere |
| QuadraticCurves.LengthAtZero | src/quadratic_curve.rs:109-131 | with `ln(1) == 0`, `length(0) == 0` for every curve, on every branch |
| QuadraticCurves.LengthWithoutQuadraticTerm | src/quadratic_curve.rs:109-114 | when `a == 0` the length is `u sqrt(c)` |
| QuadraticCurves.LogDenominator | src/quadratic_curve.rs:119-124 | `p0 + sqrt(c)` is nonzero whenever `c - p0^2` is |
| QuadraticCurves.LengthGuardsNotTaken | src/quadratic_curve.rs:109-127 | with an exact square root the model's two extra division guards are never taken |
| QuadraticCurves.LogTermNeverReached | src/quadratic_curve.rs:113-124 | for a curve with `x2 != 0` and an exact square root, `a` and `sqrt(a)` are nonzero and `k == c - p0^2` is zero, so the log term is never reached |
| QuadraticCurves.LengthExampleLine | src/quadratic_curve.rs:292-293 | the line `(0, 1, 0)` has length `1` |
| QuadraticCurves.LengthExampleTurning | src/quadratic_curve.rs:295-296 | the Bezier curve `(0, 2, 1)` is `(0, 4, -3)` and has length `5/3` |
| QuadraticCurves.LengthExampleStill | src/quadratic_curve.rs:298-299 | the curve that does not move has length `0` |
| QuadraticCurves.FalsePositionInBracket | src/quadratic_curve.rs:168-171 | the false-position estimate stays inside the bracket and is where the secant vanishes |
| QuadraticCurves.Step | src/quadratic_curve.rs:151-171 | one pass of the loop that did not break: the bracket update, the Newton step, and the false-position fallback when the speed is zero or the step leaves the bracket |
| QuadraticCurves.StepBrackets | src/quadratic_curve.rs:156-171 | a pass keeps `0 <= l <= x <= r <= 1`, `fl <= 0 <= fr` and `fl`, `fr` the length errors at the moved ends |
| QuadraticCurves.Search | src/quadratic_curve.rs:150-172 | the loop with `n` iterations left: it stops on the tolerance test of line 152 or when the iterations run out |
| QuadraticCurves.SearchStops | src/quadratic_curve.rs:150-172 | a search makes at most `n` passes; it stops early only with the length within `tolerance` of `v`, and otherwise makes all `n` |
| QuadraticCurves.SearchBrackets | src/quadratic_curve.rs:150-172 | a search that starts inside a bracket ends inside one |
| QuadraticCurves.ParameterAt | src/quadratic_curve.rs:133-177 | `None` exactly when all speed coefficients vanish; otherwise a value in `[0, 1]`, `0` for `v < 0` and `1` beyond the curve's length |
| QuadraticCurves.ParameterAtSearch | src/quadratic_curve.rs:139-175 | for `0 <= v <= length(1)` the result is the search's last estimate, inside a final bracket `[lo, hi]` with `length(lo) <= v <= length(hi)` (or `lo == 0`), after at most `max_iters` passes, and within `tolerance` of `v` when the search stopped early |
| QuadraticCurves.Parameterize | src/quadratic_curve.rs:133-177 | the loop as written returns exactly `ParameterAt`: its invariant is that the remaining iterations of `Search` end where the whole search ends |
| QuadraticCurves.ParameterizeExamples | src/quadratic_curve.rs:316-318 | on the line `(0, 1, 0)`, for every tolerance and iteration count, `v == 2` gives `Some(1)` and `v == -1` gives `Some(0)` |
| QuadraticCurves.DistanceCoefficients | src/quadratic_curve.rs:180-184 | the coefficients of the squared distance; `QuarticIsSquaredDistance` states that they are |
| QuadraticCurves.Quartic | src/quadratic_curve.rs:186 | the polynomial `e + t (d + t (c + t (b + a t)))` under the square root of the distance closure |
| QuadraticCurves.Distance | src/quadratic_curve.rs:186 | the distance closure; `DistanceIsAbs` makes it `|evaluate(t) - q|` |
| QuadraticCurves.StationaryPoints | src/quadratic_curve.rs:199 | the roots of the derivative of the squared distance; `StationaryPointsAreStationary` states that they are |
| QuadraticCurves.QuarticIsSquaredDistance | src/quadratic_curve.rs:180-186 | the quartic `e + dt + ct^2 + bt^3 + at^4` is the squared distance from `q` |
| QuadraticCurves.DistanceIsAbs | src/quadratic_curve.rs:186 | with an exact square root the distance closure is `|evaluate(t) - q|` |
| QuadraticCurves.CubicIsDerivative | src/quadratic_curve.rs:199 | the cubic solved is the derivative of the quartic, `2 (evaluate(t) - q) evaluate'(t)` |
| QuadraticCurves.NearestPoint | src/quadratic_curve.rs:179-211 | the result is `0`, `1` or an in-range root; its distance is at most the distance at both ends and at every in-range root; `0` wins a tie with `1`, and a root must be strictly nearer to replace an end; when a root wins, every in-range root before it in the solver's order is strictly farther, so ties among roots go to the first |
| QuadraticCurves.StationaryPointsAreStationary | src/quadratic_curve.rs:199-208 | with exact roots, every candidate makes the derivative of the squared distance vanish |
| QuadraticCurves.StationaryPointsComplete | src/quadratic_curve.rs:180-199 | conversely, for a curve that moves, every stationary point of the squared distance is a candidate, with exact square and cube roots, unless the cubic takes the trigonometric branch |
| QuadraticCurves.MovingCurveCubic | src/quadratic_curve.rs:180-182 | for a curve that moves, `4a` or `2c` of the solved cubic is nonzero |
| QuadraticCurves.MovingCoefficients | src/quadratic_curve.rs:180-182 | `x2^2` and `2p*x2 + x1^2` vanish together only when `x1 == x2 == 0` |
| QuadraticCurves.NearestPointExampleStill | src/quadratic_curve.rs:354-357 | for the curve that does not move the nearest parameter is `0` from every point |
| CubicCurves.Evaluate | src/cubic_curve.rs:40-42 | the point `x0 + x1 t + x2 t^2 + x3 t^3`; `EvaluateEndpoints`, `BernsteinForm` and `TaylorExpansion` state its properties |
| CubicCurves.EvaluateFirstDerivative | src/cubic_curve.rs:44-46 | `x1 + 2 x2 t + 3 x3 t^2`; `TaylorExpansion` makes it the exact first derivative |
| CubicCurves.EvaluateSecondDerivative | src/cubic_curve.rs:48-50 | `2 x2 + 6 x3 t`; `TaylorExpansion` and `DerivativeSteps` make it the exact second derivative |
| CubicCurves.EvaluateThirdDerivative | src/cubic_curve.rs:52-54 | the constant `6 x3`; `TaylorExpansion` makes it the exact third derivative |
| CubicCurves.FromBezier | src/cubic_curve.rs:56-63 | the coefficients of four control points; the round trips invert it |
| CubicCurves.ToBezier | src/cubic_curve.rs:65-72 | the control points of a curve; the round trips invert it |
| CubicCurves.Subdivide | src/cubic_curve.rs:74-98 | the pieces `[0, u]` and `[u, 1]`; `SubdividePieces` and the lemmas after it state what they trace |
| CubicCurves.ToCubic | src/quadratic_curve.rs:84-91 | the quadratic with a zero cubic coefficient; `ToCubicAgrees` states that it is the same curve |
| CubicCurves.ErrorMinimizingQuadraticApproximation | src/cubic_curve.rs:100-106 | the Chebyshev-economised quadratic; `ErrorMinimizingBound` and `ErrorMinimizingEquioscillates` bound its error |
| CubicCurves.ContinuityPreservingQuadraticApproximation | src/cubic_curve.rs:108-114 | the quadratic through the ends and the midpoint; `ContinuityPreservingMeets` and `ContinuityPreservingBound` state its error |
| CubicCurves.BezierRoundTrip | src/cubic_curve.rs:56-72 | Bezier points to coefficients and back give the same points |
| CubicCurves.MonomialRoundTrip | src/cubic_curve.rs:56-72 | coefficients to Bezier points and back give the same curve |
| CubicCurves.EvaluateEndpoints | src/cubic_curve.rs:40-72 | the curve starts at `x0` and ends at `x0 + x1 + x2 + x3`, its first and last Bezier points |
| CubicCurves.BernsteinForm | src/cubic_curve.rs:56-63 | the curve through four Bezier points is their Bernstein combination |
| CubicCurves.TaylorExpansion | src/cubic_curve.rs:40-54 | the three derivatives are exact: the curve equals its third-order Taylor expansion about any `t` |
| CubicCurves.DerivativeSteps | src/cubic_curve.rs:44-54 | each derivative is the Taylor expansion of the one before |
| CubicCurves.EvaluateExample | src/cubic_curve.rs:123-139 | the values of `(1, 1, 1, 1)` and its derivatives at `0`, one half and `1` |
| CubicCurves.ReparameterizedTraces | src/cubic_curve.rs:84-97 | the curve expanded about `u` and scaled by `w` traces `t -> c(u + w t)` |
| CubicCurves.SubdividePieces | src/cubic_curve.rs:74-98 | the two pieces are the curve expanded about `0` with scale `u`, and about `u` with scale `1 - u` |
| CubicCurves.SubdivideLeft | src/cubic_curve.rs:74-90 | the left piece is `(x0, x1 u, x2 u^2, x3 u^3)` |
| CubicCurves.SubdivideLeftTraces | src/cubic_curve.rs:74-90 | the left piece traces `[0, u]` |
| CubicCurves.SubdivideRight | src/cubic_curve.rs:74-98 | the right piece traces `[u, 1]` |
| CubicCurves.SubdivideJoins | src/cubic_curve.rs:74-98 | the right piece starts where the left piece ends, at `evaluate(u)` |
| CubicCurves.SubdivideRightEnds | src/cubic_curve.rs:74-98 | the right piece ends at `evaluate(1)` |
| CubicCurves.SubdivideExample | src/cubic_curve.rs:160-174 | splitting `(1, 1, 1, 1)` at a quarter gives the coefficients of the source's test |
| CubicCurves.ToCubicAgrees | src/quadratic_curve.rs:84-91 | the elevated quadratic has its value and derivatives, and a zero third derivative |
| CubicCurves.ApproximationsOfQuadratic | src/cubic_curve.rs:100-114 | both quadratic approximations of an elevated quadratic give it back |
| CubicCurves.ApproximationsShareCurvature | src/cubic_curve.rs:104-112 | both approximations have `x2 + 3 x3 / 2` as their quadratic coefficient |
| CubicCurves.ContinuityPreservingError | src/cubic_curve.rs:108-114 | the continuity-preserving quadratic's error is `x3 t (t - 1/2)(t - 1)` |
| CubicCurves.ContinuityPreservingMeets | src/cubic_curve.rs:193-200 | it meets the cubic at `0`, one half and `1` |
| CubicCurves.ContinuityPreservingBound | src/cubic_curve.rs:202-206 | its error is at most `|x3|/(12 sqrt 3)` on `[0, 1]` |
| CubicCurves.ContinuityPreservingExtremes | src/cubic_curve.rs:202-206 | that bound is reached at `1/2 -+ 1/(2 sqrt 3)`, with opposite signs |
| CubicCurves.ErrorMinimizingError | src/cubic_curve.rs:100-106 | the minimising quadratic's error is `x3 T3(2t - 1)/32`, with `T3` the third Chebyshev polynomial |
| CubicCurves.Chebyshev3Bounded | src/cubic_curve.rs:100-106 | `|T3| <= 1` on `[-1, 1]` |
| CubicCurves.ErrorMinimizingBound | src/cubic_curve.rs:100-106 | the minimising quadratic's error is at most `|x3|/32` on `[0, 1]` |
| CubicCurves.ErrorMinimizingEquioscillates | src/cubic_curve.rs:181-190 | the error is `-+x3/32` alternately at `0`, `1/4`, `3/4`, `1`, and zero at one half |
| CubicCurves.ErrorMinimizingZeros | src/cubic_curve.rs:182-185 | the error also vanishes at `(2 -+ sqrt 3)/4` |

## Left out

- Floating point: rounding, the ulps tolerances of the tests, NaN and the infinities. Arithmetic is exact over `real`.
- Vectors.Div and Vectors.Vector2Cell.DivAssign: a zero divisor is excluded by `requires`, because the float result (infinities) has no `real` counterpart.
- Curves over `Vector2`: every curve is modelled over the scalar instance (`src/lib.rs:85-89`). The laws of `Vector2` are proved on their own, and the `Vector2` cases of the tests are not modelled.
- The trait plumbing of `src/lib.rs` (the `Scalar`, `VectorSpace` and `InnerProductSpace` traits, the `f32`/`f64` instances and `from_i32`) is not part of this model beyond the transcendental record.
- RootSolver.SolveQuadratic: with `a != 0` and a negative discriminant the model keeps whatever value `sqrt` gives. The float code gives NaN there.
- RootSolver.TrigAngle: when `sqrt(-q^3)` is zero, where the float division gives an infinity, the model takes `acos(r)`. An exact square root never reaches this guard.
- RootSolver.TrigonometricRoots: that its three values are all the real roots, and that they are distinct, is not proved. `TrigExact` does not pin `pi` down (`pi == 0` satisfies its laws, and then the three values coincide), so `SolveCubicComplete` and `StationaryPointsComplete` require a non-negative discriminant, and `NearestPoint` is nearest only among the candidates the solver returns there.
- RootSolver.SolveCubicSolves, CardanoRootsSolve and TrigonometricRootsSolve are stated under `SqrtExact`, `CbrtExact` and `TrigExact`. How accurate the float transcendentals are is not modelled.
- QuadraticCurves.LengthFromCoefficients: two guards stand where the float code would divide by zero. The first is a zero `sqrt(a)` for nonzero `a`. The second is a zero `p0 + sqrt(c)`, which drops the log term; the source checks only `|k| == 0`. `LengthGuardsNotTaken` shows an exact square root never takes either.
- QuadraticCurves.ClosedForm: on the scalar instance with an exact square root the logarithmic term and its `p0 + sqrt(c)` division are never reached. A curve with `x2 == 0` takes the `a == 0` branch, and `LogTermNeverReached` shows that every other curve enters the closed form with `c - p0^2 == 0`. That branch is modelled but no property of it is proved; it matters only for a vector space of dimension two or more, which the curves are not modelled over.
- QuadraticCurves.Length: that the closed form is the integral of the speed is not proved, because Dafny has no integral; only its value at `0` (`LengthAtZero`) and the examples are.
- QuadraticCurves.Parameterize: the false-position estimate at line 143 and 170 uses the left end when `fr == fl`, where the source divides by zero. In exact arithmetic that happens only for a zero-length curve.
- QuadraticCurves.Parameterize: the Newton step of line 167 is skipped when the speed is zero, and the estimate falls back to false position. In floats the step gives an infinity, which falls out of the bracket and reaches the same fallback.
- QuadraticCurves.Step: when the speed is zero and `fx` is zero too, which needs `tolerance <= 0` to get past the test of line 152, the float step computes `0/0`. That NaN passes the range test of line 168, because every comparison with NaN is false, and the source returns NaN. The model falls back to false position instead.
- QuadraticCurves.Parameterize: convergence to within `tolerance` in `max_iters` steps is not claimed. `ParameterAtSearch` gives the bracket, and closeness only when the search stopped early.
- The numeric test values that need real transcendentals are not modelled: the nearest point `0.15418649` (`src/quadratic_curve.rs:352`) and the length `1.4789429` (`src/quadratic_curve.rs:302`).
- The sampled round trip of `check_curve_parameterization` (`src/quadratic_curve.rs:333-344`) is not modelled. It depends on convergence.
- The accessors `x0()`, `x1()`, ... and the constructors `new` are the datatype's fields and constructor.

## Findings

| source | as written | input that shows it | evidently intended | confidence | as-written member | corrected member |
|---|---|---|---|---|---|---|
| src/linear_curve.rs:60 | the right piece of `subdivide` has slope `x1*u` | the line `(0, 1)` split at `u = 0.25`: its right piece ends at `0.5` instead of `1` | slope `x1*(1 - u)`, so that the right piece traces `[u, 1]` as in the quadratic and cubic versions | not executed | LinearCurves.SubdivideRightEndExample | LinearCurves.SubdivideCorrectedPieces |
| src/linear_curve.rs:90-92 | `nearest_point` returns `<x1, q - x0>` without dividing by `<x1, x1>` | the line `(0, 2)` and `q = 2`: it returns `4`, at squared distance `36`, while `t = 1` reaches the point exactly | `<x1, q - x0> / <x1, x1>`, the minimiser of the squared distance | not executed | LinearCurves.NearestPointExample | LinearCurves.NearestPointCorrectedIsNearest |
