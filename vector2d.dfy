/**
 * The planar vector value type (`Vector2D`): a pair of coordinates with
 * componentwise arithmetic, length, normalisation, signed angle, distance and
 * rotation about the origin or about a pivot. Every operation builds a new value.
 */
module Geometry {
  import opened FloatMath

  /** The value `new Vector2D()`: both coordinates zero. */
  const Zero: Vector2D := Vector2D(0.0, 0.0)

  /** What `Equals(object)` may be handed: a boxed vector, or anything else (including null). */
  datatype Boxed = BoxedVector(v: Vector2D) | NotAVector

  datatype Vector2D = Vector2D(X: real, Y: real)
  {
    /** Squared length. */
    function Quadratic(): (q: real)
      ensures q >= 0.0
      ensures q == 0.0 <==> this == Zero
    {
      SquareSign(X);
      SquareSign(Y);
      assert X * X + Y * Y == Mul(X, X) + Mul(Y, Y);
      X * X + Y * Y
    }

    /** Scalar product. */
    function Dot(v: Vector2D): real
    {
      X * v.X + Y * v.Y
    }

    /** Length: the square root of the scalar product of the vector with itself. */
    function Modulus(m: Library): (r: real)
      ensures r >= 0.0
      ensures r == 0.0 <==> this == Zero
    {
      assert Dot(this) == Quadratic();
      SqrtSign(m, Dot(this));
      m.sqrt(Dot(this))
    }

    /** The vector divided by its length; the zero vector maps to itself. */
    function Unit(m: Library): (u: Vector2D)
      ensures u == Zero <==> this == Zero
      ensures u.Scale(m.sqrt(Dot(this))) == this
    {
      assert Dot(this) == Quadratic();
      SqrtSign(m, Dot(this));
      var r := m.sqrt(Dot(this));
      if 0.0 == r then Zero else Vector2D(X / r, Y / r)
    }

    /** `operator ==`: both coordinates equal. */
    function Eq(v: Vector2D): (b: bool)
      ensures b <==> this == v
    {
      (X == v.X) && (Y == v.Y)
    }

    /** `operator !=`: some coordinate differs. */
    function NotEq(v: Vector2D): (b: bool)
      ensures b <==> !Eq(v)
    {
      (X != v.X) || (Y != v.Y)
    }

    /** `Equals(object)`: true only for a boxed vector with equal coordinates. */
    function Equals(obj: Boxed): (b: bool)
      ensures b <==> obj.BoxedVector? && Eq(obj.v)
    {
      match obj
      case BoxedVector(vector) => (X == vector.X) && (Y == vector.Y)
      case NotAVector => false
    }

    /** `operator +`. */
    function Add(v: Vector2D): Vector2D {
      Vector2D(X + v.X, Y + v.Y)
    }

    /** Binary `operator -`. */
    function Sub(v: Vector2D): Vector2D {
      Vector2D(X - v.X, Y - v.Y)
    }

    /** `operator *` by a scalar. */
    function Scale(x: real): Vector2D {
      Vector2D(x * X, x * Y)
    }

    /** Unary `operator -`. */
    function Neg(): Vector2D {
      Vector2D(-X, -Y)
    }

    /**
     * Signed angle from this vector to `v`, built from the normalised cross
     * product (sine) and scalar product (cosine); 0 when either is zero.
     */
    function GetAngle(m: Library, v: Vector2D): (a: real)
      ensures this == Zero || v == Zero ==> a == 0.0
      ensures -PI < a <= PI
      ensures a > 0.0 <==> Cross(this, v) > 0.0 || (Cross(this, v) == 0.0 && Dot(v) < 0.0)
      ensures a < 0.0 <==> Cross(this, v) < 0.0
    {
      var dotSin := Cross(this, v);
      var dotCos := Dot(v);
      var mod1 := Dot(this);
      var mod2 := v.Dot(v);
      if 0.0 == mod1 * mod2 then
        ZeroProduct(mod1, mod2);
        ZeroLengthEither(this, v);
        ZeroVectorProducts(this, v);
        0.0
      else
        ProductPositive(mod1, mod2);
        SqrtSign(m, mod1 * mod2);
        var mod := m.sqrt(mod1 * mod2);
        SameSignAfterDivision(dotSin, mod);
        SameSignAfterDivision(dotCos, mod);
        AngleFromSinCos(m, dotSin / mod, dotCos / mod)
    }

    /** Distance to `v`. */
    function GetDistance(m: Library, v: Vector2D): (d: real)
      ensures d >= 0.0
      ensures d == 0.0 <==> this == v
    {
      assert v.Sub(this) == Zero <==> this == v;
      v.Sub(this).Modulus(m)
    }

    /** Squared distance to `v`. */
    function GetDistance2(v: Vector2D): (d: real)
      ensures d >= 0.0
      ensures d == 0.0 <==> this == v
    {
      assert v.Sub(this) == Zero <==> this == v;
      v.Sub(this).Quadratic()
    }

    /** `IsParallelTo` as written: the square of X*v.Y + Y*v.X against the product of the squared lengths. */
    function IsParallelTo(v: Vector2D): bool {
      var dotCos := X * v.Y + Y * v.X;
      dotCos * dotCos == Dot(this) * v.Dot(v)
    }

    /** `IsPerpendicularTo` as written: X*v.Y + Y*v.X is zero. */
    function IsPerpendicularTo(v: Vector2D): bool {
      0.0 == X * v.Y + Y * v.X
    }

    /** Parallel test on the scalar product, as the names of the two tests intend. */
    function IsParallelToCorrected(v: Vector2D): bool {
      Dot(v) * Dot(v) == Dot(this) * v.Dot(v)
    }

    /** Perpendicular test on the scalar product, as the names of the two tests intend. */
    function IsPerpendicularToCorrected(v: Vector2D): bool {
      0.0 == Dot(v)
    }

    /** The vector turned a quarter turn counter-clockwise: same length, at a right angle. */
    function QuarterTurn(): (q: Vector2D)
      ensures q.Quadratic() == Quadratic()
      ensures Dot(q) == 0.0
      ensures Cross(this, q) == Quadratic()
    {
      Vector2D(-Y, X)
    }

    /** Rotation about the origin by `alfa` radians. */
    function Rotate(m: Library, alfa: real): Vector2D {
      var sin := m.sin(alfa);
      var cos := m.cos(alfa);
      Vector2D(X * cos - Y * sin, X * sin + Y * cos)
    }

    /** Rotation about the pivot `dotRotate` by `alfa` radians. */
    function RotateAround(m: Library, alfa: real, dotRotate: Vector2D): Vector2D {
      Sub(dotRotate).Rotate(m, alfa).Add(dotRotate)
    }
  }

  /**
   * The angle whose (normalised) sine and cosine are `dotSin` and `dotCos`:
   * the arcsine when the cosine is not negative, otherwise reflected into
   * the half-turn on the side of the sine.
   */
  function AngleFromSinCos(m: Library, dotSin: real, dotCos: real): (a: real)
    ensures -PI < a <= PI
    ensures a > 0.0 <==> dotSin > 0.0 || (dotSin == 0.0 && dotCos < 0.0)
    ensures a < 0.0 <==> dotSin < 0.0
  {
    AsinRange(m, dotSin);
    if dotCos >= 0.0 then m.asin(dotSin)
    else if dotSin >= 0.0 then PI - m.asin(dotSin)
    else -PI - m.asin(dotSin)
  }

  /** The cross product, used to state on which side of a heading a point lies. */
  function Cross(a: Vector2D, b: Vector2D): real {
    a.X * b.Y - a.Y * b.X
  }

  /**
   * Multiplication behind a function symbol. The solver loses sign facts stated
   * directly about a square `x * x`; stated about `Mul(x, x)` they survive.
   */
  ghost function Mul(a: real, b: real): real {
    a * b
  }

  lemma MulPositive(a: real, b: real)
    requires a > 0.0 && b > 0.0
    ensures Mul(a, b) > 0.0
  {
  }

  /** A square is never negative, and is zero only at zero. */
  lemma SquareSign(x: real)
    ensures x * x == Mul(x, x)
    ensures Mul(x, x) >= 0.0
    ensures Mul(x, x) == 0.0 <==> x == 0.0
  {
    if x < 0.0 {
      MulPositive(-x, -x);
      assert Mul(-x, -x) == Mul(x, x);
    } else if x > 0.0 {
      MulPositive(x, x);
    }
  }

  /** Dividing by a positive number keeps the sign. */
  lemma SameSignAfterDivision(x: real, d: real)
    requires d > 0.0
    ensures x / d > 0.0 <==> x > 0.0
    ensures x / d < 0.0 <==> x < 0.0
    ensures x / d == 0.0 <==> x == 0.0
  {
  }

  /** When one of two vectors is zero, their cross and scalar products vanish. */
  lemma ZeroVectorProducts(a: Vector2D, b: Vector2D)
    requires (a.X == 0.0 && a.Y == 0.0) || (b.X == 0.0 && b.Y == 0.0)
    ensures Cross(a, b) == 0.0 && a.Dot(b) == 0.0
  {
  }

  lemma ZeroLengthEither(a: Vector2D, b: Vector2D)
    requires a.Dot(a) == 0.0 || b.Dot(b) == 0.0
    ensures (a.X == 0.0 && a.Y == 0.0) || (b.X == 0.0 && b.Y == 0.0)
  {
    if a.Dot(a) == 0.0 { ZeroLength(a); } else { ZeroLength(b); }
  }

  lemma ZeroLength(a: Vector2D)
    requires a.Dot(a) == 0.0
    ensures a.X == 0.0 && a.Y == 0.0
  {
    QuadraticIsSelfDot(a);
  }

  lemma ZeroProduct(x: real, y: real)
    requires x * y == 0.0
    ensures x == 0.0 || y == 0.0
  {
  }

  lemma ProductPositive(a: real, b: real)
    requires a >= 0.0 && b >= 0.0 && ((a != 0.0 && b != 0.0) || a * b != 0.0)
    ensures a * b > 0.0
  {
  }

  // ---------------------------------------------------------------------
  // Algebra of the operators

  /** Subtracting and adding back the same vector is the identity. */
  lemma SubAddCancel(a: Vector2D, b: Vector2D)
    ensures a.Sub(b).Add(b) == a
  {
  }

  /** Unary minus is scaling by -1, and subtraction is adding the negation. */
  lemma NegIsScaleMinusOne(a: Vector2D, b: Vector2D)
    ensures a.Neg() == a.Scale(-1.0)
    ensures a.Sub(b) == a.Add(b.Neg())
  {
  }

  /** Addition commutes and has the zero vector as its unit. */
  lemma AddCommutes(a: Vector2D, b: Vector2D)
    ensures a.Add(b) == b.Add(a)
    ensures a.Add(Zero) == a
  {
  }

  /** Scaling multiplies the squared length by the square of the factor. */
  lemma ScaleQuadratic(a: Vector2D, k: real)
    ensures a.Scale(k).Quadratic() == k * k * a.Quadratic()
  {
    calc {
      a.Scale(k).Quadratic();
      (k * a.X) * (k * a.X) + (k * a.Y) * (k * a.Y);
      k * k * (a.X * a.X + a.Y * a.Y);
    }
  }

  /** The squared length is the scalar product of the vector with itself. */
  lemma QuadraticIsSelfDot(a: Vector2D)
    ensures a.Quadratic() == a.Dot(a)
  {
  }

  /** Squared distance does not depend on the order of the two points. */
  lemma Distance2Symmetric(a: Vector2D, b: Vector2D)
    ensures a.GetDistance2(b) == b.GetDistance2(a)
  {
    assert b.Sub(a).Dot(b.Sub(a)) == a.Sub(b).Dot(a.Sub(b));
  }

  /** Distance does not depend on the order of the two points. */
  lemma DistanceSymmetric(m: Library, a: Vector2D, b: Vector2D)
    ensures a.GetDistance(m, b) == b.GetDistance(m, a)
  {
    assert b.Sub(a).Dot(b.Sub(a)) == a.Sub(b).Dot(a.Sub(b));
  }

  /** `!=` is the exact complement of `==`, and `Equals` agrees with `==` on vectors. */
  lemma EqualityOperators(a: Vector2D, b: Vector2D)
    ensures a.NotEq(b) == !a.Eq(b)
    ensures a.Equals(BoxedVector(b)) == a.Eq(b)
    ensures !a.Equals(NotAVector)
  {
  }

  // ---------------------------------------------------------------------
  // Normalisation

  /** Normalising gives unit length whenever the square root is exact at that point. */
  lemma UnitHasLengthOne(m: Library, a: Vector2D)
    requires a != Zero
    requires m.sqrt(a.Quadratic()) * m.sqrt(a.Quadratic()) == a.Quadratic()
    ensures a.Unit(m).Quadratic() == 1.0
  {
    var q := a.Quadratic();
    var r := m.sqrt(q);
    assert a.Dot(a) == q;
    SqrtSign(m, q);
    var u := a.Unit(m);
    assert u == Vector2D(a.X / r, a.Y / r);
    assert u == a.Scale(1.0 / r);
    ScaleQuadratic(a, 1.0 / r);
    assert (1.0 / r) * (1.0 / r) * q == q / (r * r);
  }

  // ---------------------------------------------------------------------
  // Rotation

  /** Rotating the zero vector about the origin gives the zero vector, for any angle. */
  lemma RotateZero(m: Library, alfa: real)
    ensures Zero.Rotate(m, alfa) == Zero
  {
  }

  /** A rotation by no angle leaves every point where it is. */
  lemma RotateByNothing(m: Library, a: Vector2D, p: Vector2D)
    ensures a.Rotate(m, 0.0) == a
    ensures a.RotateAround(m, 0.0, p) == a
  {
    SubAddCancel(a, p);
  }

  /** The pivot is a fixed point of rotation about itself, for any angle. */
  lemma PivotIsFixed(m: Library, alfa: real, p: Vector2D)
    ensures p.RotateAround(m, alfa, p) == p
  {
    assert p.Sub(p) == Zero;
    RotateZero(m, alfa);
  }

  /** Rotation about the origin keeps the length when sine and cosine satisfy sin^2 + cos^2 = 1 at `alfa`. */
  lemma RotatePreservesLength(m: Library, alfa: real, a: Vector2D)
    requires m.sin(alfa) * m.sin(alfa) + m.cos(alfa) * m.cos(alfa) == 1.0
    ensures a.Rotate(m, alfa).Quadratic() == a.Quadratic()
  {
    var s, c := m.sin(alfa), m.cos(alfa);
    calc {
      a.Rotate(m, alfa).Quadratic();
      (a.X * c - a.Y * s) * (a.X * c - a.Y * s) + (a.X * s + a.Y * c) * (a.X * s + a.Y * c);
      a.X * a.X * (c * c + s * s) + a.Y * a.Y * (s * s + c * c);
      a.X * a.X + a.Y * a.Y;
    }
  }

  /** Rotation about a pivot keeps the distance to the pivot (under the same condition at `alfa`). */
  lemma RotateAroundKeepsDistance(m: Library, alfa: real, a: Vector2D, p: Vector2D)
    requires m.sin(alfa) * m.sin(alfa) + m.cos(alfa) * m.cos(alfa) == 1.0
    ensures a.RotateAround(m, alfa, p).GetDistance2(p) == a.GetDistance2(p)
  {
    var d := a.Sub(p);
    RotatePreservesLength(m, alfa, d);
    var r := d.Rotate(m, alfa);
    assert a.RotateAround(m, alfa, p) == r.Add(p);
    assert p.Sub(r.Add(p)) == r.Neg();
    assert p.Sub(a) == d.Neg();
    assert r.Neg().Quadratic() == r.Quadratic();
    assert d.Neg().Quadratic() == d.Quadratic();
  }

  // ---------------------------------------------------------------------
  // Parallel and perpendicular tests

  /** Both tests, as written, are symmetric in their two vectors. */
  lemma ParallelPerpendicularSymmetric(a: Vector2D, b: Vector2D)
    ensures a.IsParallelTo(b) == b.IsParallelTo(a)
    ensures a.IsPerpendicularTo(b) == b.IsPerpendicularTo(a)
  {
    assert a.X * b.Y + a.Y * b.X == b.X * a.Y + b.Y * a.X;
    assert a.Dot(a) * b.Dot(b) == b.Dot(b) * a.Dot(a);
  }

  /** The tests as written misjudge the simplest cases: (1,0) against (0,1) and (1,0) against itself. */
  lemma ParallelPerpendicularAsWrittenCounterexample()
    ensures !Vector2D(1.0, 0.0).IsPerpendicularTo(Vector2D(0.0, 1.0))
    ensures Vector2D(1.0, 0.0).IsPerpendicularTo(Vector2D(1.0, 0.0))
    ensures !Vector2D(1.0, 0.0).IsParallelTo(Vector2D(1.0, 0.0))
  {
  }

  /** Lagrange's identity: squared lengths' product = scalar product squared + cross product squared. */
  lemma Lagrange(a: Vector2D, b: Vector2D)
    ensures a.Dot(a) * b.Dot(b) == a.Dot(b) * a.Dot(b) + Cross(a, b) * Cross(a, b)
  {
    calc {
      a.Dot(a) * b.Dot(b);
      (a.X * a.X + a.Y * a.Y) * (b.X * b.X + b.Y * b.Y);
      (a.X * b.X + a.Y * b.Y) * (a.X * b.X + a.Y * b.Y) + (a.X * b.Y - a.Y * b.X) * (a.X * b.Y - a.Y * b.X);
    }
  }

  /**
   * The corrected tests mean what their names say: parallel exactly when the
   * cross product vanishes, perpendicular exactly when the quarter-turned
   * vector is parallel, and both are symmetric.
   */
  lemma CorrectedTestsMeanGeometry(a: Vector2D, b: Vector2D)
    ensures a.IsParallelToCorrected(b) <==> Cross(a, b) == 0.0
    ensures a.IsPerpendicularToCorrected(b) <==> Cross(a, b) * Cross(a, b) == a.Dot(a) * b.Dot(b)
    ensures a.IsParallelToCorrected(b) == b.IsParallelToCorrected(a)
    ensures a.IsPerpendicularToCorrected(b) == b.IsPerpendicularToCorrected(a)
    ensures a.IsParallelToCorrected(a.Scale(-2.0)) && a.IsPerpendicularToCorrected(Vector2D(-a.Y, a.X))
  {
    Lagrange(a, b);
    var c := Cross(a, b);
    var d := a.Dot(b);
    SquareSign(c);
    SquareSign(d);
    assert a.Dot(a) * b.Dot(b) == Mul(d, d) + Mul(c, c);
    assert a.Dot(b) == b.Dot(a);
    Lagrange(a, a.Scale(-2.0));
    assert Cross(a, a.Scale(-2.0)) == 0.0;
  }
}
