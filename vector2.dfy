/**
 * The concrete two-dimensional inner-product space of `src/vector2.rs`: a
 * value type with componentwise arithmetic, a zero element and the dot
 * product.  The in-place operators (`+=`, `-=`, `*=`, `/=`) act on a mutable
 * place holding a vector, modelled by the class `Vector2Cell`.
 */
module Vectors {

  import opened Scalars

  datatype Vector2 = Vector2(x: real, y: real)

  function Add(a: Vector2, b: Vector2): Vector2 {
    Vector2(a.x + b.x, a.y + b.y)
  }

  function Sub(a: Vector2, b: Vector2): Vector2 {
    Vector2(a.x - b.x, a.y - b.y)
  }

  function Neg(a: Vector2): Vector2 {
    Vector2(-a.x, -a.y)
  }

  /** Multiplication by a scalar. */
  function Mul(a: Vector2, s: real): Vector2 {
    Vector2(a.x * s, a.y * s)
  }

  /** Division by a scalar; a zero divisor is excluded (floats give infinities). */
  function Div(a: Vector2, s: real): Vector2
    requires s != 0.0
  {
    Vector2(a.x / s, a.y / s)
  }

  function Zero(): Vector2 {
    Vector2(0.0, 0.0)
  }

  function InnerProduct(a: Vector2, b: Vector2): real {
    a.x * b.x + a.y * b.y
  }

  /**
   * A scalar placed on the x-axis.  The scalar instance of the inner-product
   * space (whose inner product is the plain product) is the x-axis of Vector2.
   */
  function Embed(s: real): Vector2 {
    Vector2(s, 0.0)
  }

  /** On the x-axis the inner product is the product of scalars, and the operators are the scalar ones. */
  lemma EmbedIsScalar(s: real, t: real)
    ensures InnerProduct(Embed(s), Embed(t)) == s * t
    ensures Add(Embed(s), Embed(t)) == Embed(s + t) && Sub(Embed(s), Embed(t)) == Embed(s - t)
    ensures Mul(Embed(s), t) == Embed(s * t) && Neg(Embed(s)) == Embed(-s)
  {
  }

  // ----- The laws of a vector space over the reals -----

  lemma AddCommutes(a: Vector2, b: Vector2)
    ensures Add(a, b) == Add(b, a)
  {
  }

  lemma AddAssociates(a: Vector2, b: Vector2, c: Vector2)
    ensures Add(Add(a, b), c) == Add(a, Add(b, c))
  {
  }

  lemma ZeroIsIdentity(a: Vector2)
    ensures Add(a, Zero()) == a && Add(Zero(), a) == a
    ensures Sub(a, Zero()) == a && Mul(a, 0.0) == Zero()
  {
  }

  lemma NegIsInverse(a: Vector2)
    ensures Add(a, Neg(a)) == Zero()
    ensures Sub(Zero(), a) == Neg(a)
  {
  }

  lemma SubIsAddNeg(a: Vector2, b: Vector2)
    ensures Sub(a, b) == Add(a, Neg(b))
  {
  }

  lemma MulDistributes(a: Vector2, b: Vector2, s: real, t: real)
    ensures Mul(Add(a, b), s) == Add(Mul(a, s), Mul(b, s))
    ensures Mul(a, s + t) == Add(Mul(a, s), Mul(a, t))
    ensures Mul(Mul(a, s), t) == Mul(a, s * t)
  {
  }

  lemma DivIsMulInverse(a: Vector2, s: real)
    requires s != 0.0
    ensures Div(a, s) == Mul(a, 1.0 / s)
    ensures Mul(Div(a, s), s) == a
  {
    assert a.x / s == a.x * (1.0 / s);
    assert a.y / s == a.y * (1.0 / s);
  }

  // ----- The laws of the inner product -----

  lemma InnerProductSymmetric(a: Vector2, b: Vector2)
    ensures InnerProduct(a, b) == InnerProduct(b, a)
  {
  }

  lemma InnerProductBilinear(a: Vector2, b: Vector2, c: Vector2, s: real)
    ensures InnerProduct(Add(a, b), c) == InnerProduct(a, c) + InnerProduct(b, c)
    ensures InnerProduct(Sub(a, b), c) == InnerProduct(a, c) - InnerProduct(b, c)
    ensures InnerProduct(Mul(a, s), c) == s * InnerProduct(a, c)
  {
  }

  /** The inner product of a vector with itself is positive unless the vector is zero. */
  lemma InnerProductPositive(a: Vector2)
    ensures InnerProduct(a, a) >= 0.0
    ensures InnerProduct(a, a) == 0.0 <==> a == Zero()
  {
    if InnerProduct(a, a) == 0.0 {
      assert a.x * a.x >= 0.0 && a.y * a.y >= 0.0;
      SquareZero(a.x);
      SquareZero(a.y);
    }
  }

  /** Cauchy-Schwarz in the plane, by the Lagrange identity. */
  lemma CauchySchwarz(a: Vector2, b: Vector2)
    ensures InnerProduct(a, b) * InnerProduct(a, b) <= InnerProduct(a, a) * InnerProduct(b, b)
  {
    var cross := a.x * b.y - a.y * b.x;
    assert InnerProduct(a, a) * InnerProduct(b, b) - InnerProduct(a, b) * InnerProduct(a, b)
        == cross * cross;
  }

  /**
   * A mutable place holding a vector: the receiver of the compound-assignment
   * operators, which update the two components one after the other.
   */
  class Vector2Cell {
    var x: real
    var y: real

    function Value(): Vector2
      reads this
    {
      Vector2(x, y)
    }

    constructor (v: Vector2)
      ensures Value() == v
    {
      x, y := v.x, v.y;
    }

    method AddAssign(other: Vector2)
      modifies this
      ensures Value() == Add(old(Value()), other)
    {
      x := x + other.x;
      y := y + other.y;
    }

    method SubAssign(other: Vector2)
      modifies this
      ensures Value() == Sub(old(Value()), other)
    {
      x := x - other.x;
      y := y - other.y;
    }

    method MulAssign(other: real)
      modifies this
      ensures Value() == Mul(old(Value()), other)
    {
      x := x * other;
      y := y * other;
    }

    method DivAssign(other: real)
      requires other != 0.0
      modifies this
      ensures Value() == Div(old(Value()), other)
    {
      x := x / other;
      y := y / other;
    }
  }
}
