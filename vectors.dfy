/**
  Three-dimensional vectors over exact reals, and the numeric library the
  tracer calls (square root, tangent, pi).

  The vector type itself is not part of this model's sources; it is the
  usual value type with +, -, unary -, scaling, dot and cross products.
  `Math.Sqrt`, `Math.Tan` and `Math.PI` cannot be written exactly, so the
  model receives them as a `MathLib` value; the only thing assumed about
  them is `IsSqrt`: the square root of a non-negative number is a
  non-negative number whose square is that number.
 */
module Vectors {

  datatype Vector3 = Vector3(x: real, y: real, z: real)

  const Zero: Vector3 := Vector3(0.0, 0.0, 0.0)

  function Add(a: Vector3, b: Vector3): Vector3 {
    Vector3(a.x + b.x, a.y + b.y, a.z + b.z)
  }

  function Sub(a: Vector3, b: Vector3): Vector3 {
    Vector3(a.x - b.x, a.y - b.y, a.z - b.z)
  }

  function Neg(a: Vector3): Vector3 {
    Vector3(-a.x, -a.y, -a.z)
  }

  /** `k * a` and `a * k` */
  function Scale(k: real, a: Vector3): Vector3 {
    Vector3(k * a.x, k * a.y, k * a.z)
  }

  function Dot(a: Vector3, b: Vector3): real {
    a.x * b.x + a.y * b.y + a.z * b.z
  }

  function Cross(a: Vector3, b: Vector3): Vector3 {
    Vector3(a.y * b.z - a.z * b.y, a.z * b.x - a.x * b.z, a.x * b.y - a.y * b.x)
  }

  /** The platform's numeric library, as values the model is handed. */
  datatype MathLib = MathLib(sqrt: real -> real, tan: real -> real, pi: real)

  /** What the model assumes of `Math.Sqrt`: exactness on non-negative input. */
  ghost predicate IsSqrt(sqrt: real -> real) {
    forall x: real :: 0.0 <= x ==> 0.0 <= sqrt(x) && sqrt(x) * sqrt(x) == x
  }

  function Length(v: Vector3, m: MathLib): real {
    m.sqrt(Dot(v, v))
  }

  /** `v / |v|`; a vector of length zero normalizes to Zero (IEEE arithmetic would give NaN). */
  function Normalized(v: Vector3, m: MathLib): Vector3 {
    var len := Length(v, m);
    if len == 0.0 then Zero else Scale(1.0 / len, v)
  }

  /** `x * x`, named so that facts about squares survive as facts about a term. */
  function Square(x: real): real {
    x * x
  }

  lemma SquareSign(x: real)
    ensures Square(x) >= 0.0
    ensures x != 0.0 ==> Square(x) > 0.0
  {
    if x > 0.0 {
      calc {
        Square(x);
        x * x;
      >
        0.0;
      }
    } else if x < 0.0 {
      calc {
        Square(x);
        x * x;
        (-x) * (-x);
      >
        0.0;
      }
    }
  }

  /** A product of two non-zero reals is non-zero. */
  lemma ProductNonZero(u: real, v: real)
    requires u != 0.0 && v != 0.0
    ensures u * v != 0.0
  {
    if u > 0.0 && v > 0.0 {
      calc {
        u * v;
      >
        0.0;
      }
    } else if u > 0.0 {
      calc {
        u * v;
        -(u * (-v));
      <
        0.0;
      }
    } else if v > 0.0 {
      calc {
        u * v;
        -((-u) * v);
      <
        0.0;
      }
    } else {
      calc {
        u * v;
        (-u) * (-v);
      >
        0.0;
      }
    }
  }

  /** Two reals with the same square are equal or opposite. */
  lemma SquaresEqual(x: real, y: real)
    requires x * x == y * y
    ensures x == y || x == -y
  {
    assert (x - y) * (x + y) == x * x - y * y;
    if x != y && x != -y {
      ProductNonZero(x - y, x + y);
    }
  }

  /** A non-zero real divided by itself is one. */
  lemma SelfQuotient(a: real)
    requires a != 0.0
    ensures a / a == 1.0
  {
  }

  /** Zero divided by a non-zero real is zero. */
  lemma ZeroQuotient(a: real)
    requires a != 0.0
    ensures 0.0 / a == 0.0
  {
  }

  /** On [0, 1] squaring does not increase a value. */
  lemma SquareAtMostSelf(x: real)
    requires 0.0 <= x <= 1.0
    ensures Square(x) <= x
  {
    NonNegativeProduct(x, 1.0 - x);
    assert x * (1.0 - x) == x - x * x;
  }

  /** A product of two non-negative reals is non-negative. */
  lemma NonNegativeProduct(u: real, v: real)
    requires u >= 0.0 && v >= 0.0
    ensures u * v >= 0.0
  {
    if u > 0.0 && v > 0.0 {
      calc {
        u * v;
      >
        0.0;
      }
    }
  }

  /** A quotient of two positive reals is positive. */
  lemma DivPositive(x: real, y: real)
    requires x > 0.0 && y > 0.0
    ensures x / y > 0.0
  {
    var q := x / y;
    assert q * y == x;
    if q <= 0.0 {
      calc {
        x;
        q * y;
      <=
        0.0 * y;
      ==
        0.0;
      }
    }
  }

  /** A factor of a positive product whose other factor is positive is positive. */
  lemma PositiveFactor(u: real, v: real)
    requires u * v > 0.0 && v > 0.0
    ensures u > 0.0
  {
    DivPositive(u * v, v);
    assert (u * v) / v == u;
  }

  /** A non-negative real whose square is below one is itself below one. */
  lemma BelowOne(r: real)
    requires r >= 0.0 && Square(r) < 1.0
    ensures r < 1.0
  {
    assert (1.0 - r) * (1.0 + r) == 1.0 - Square(r);
    PositiveFactor(1.0 - r, 1.0 + r);
  }

  /** A vector minus itself is the zero vector. */
  lemma SubSelf(v: Vector3)
    ensures Sub(v, v) == Zero
  {
  }

  /** The cross product with the zero vector, on either side, is the zero vector. */
  lemma CrossZero(u: Vector3)
    ensures Cross(u, Zero) == Zero && Cross(Zero, u) == Zero
  {
  }

  /** The dot product with the zero vector is zero. */
  lemma DotZero(u: Vector3)
    ensures Dot(u, Zero) == 0.0
  {
  }

  /** The squared length is non-negative, and zero only for the zero vector. */
  lemma DotSelf(v: Vector3)
    ensures Dot(v, v) >= 0.0
    ensures Dot(v, v) == 0.0 <==> v == Zero
  {
    SquareSign(v.x);
    SquareSign(v.y);
    SquareSign(v.z);
    assert Dot(v, v) == Square(v.x) + Square(v.y) + Square(v.z);
  }

  lemma SqrtOfZero(m: MathLib)
    requires IsSqrt(m.sqrt)
    ensures m.sqrt(0.0) == 0.0
  {
    var s := m.sqrt(0.0);
    assert s >= 0.0 && s * s == 0.0;
    if s > 0.0 {
      calc {
        0.0;
        s * s;
      >
        0.0;
      }
    }
  }

  lemma SqrtOfPositive(m: MathLib, x: real)
    requires IsSqrt(m.sqrt) && x > 0.0
    ensures m.sqrt(x) > 0.0
  {
    var s := m.sqrt(x);
    assert s >= 0.0 && s * s == x;
  }

  /** Length is zero exactly for the zero vector, and positive otherwise. */
  lemma LengthZero(v: Vector3, m: MathLib)
    requires IsSqrt(m.sqrt)
    ensures Length(v, m) >= 0.0
    ensures Length(v, m) == 0.0 <==> v == Zero
  {
    DotSelf(v);
    var d := Dot(v, v);
    assert Length(v, m) == m.sqrt(d);
    if d == 0.0 {
      SqrtOfZero(m);
    } else {
      SqrtOfPositive(m, d);
    }
  }

  lemma SquareOfSum(p: real, q: real, t: real)
    ensures (p + t * q) * (p + t * q) == q * q * t * t + 2.0 * p * q * t + p * p
  {
  }

  /** |u + t v|^2 = |v|^2 t^2 + 2 (u . v) t + |u|^2 */
  lemma {:induction false} DotAlongLine(u: Vector3, v: Vector3, t: real)
    ensures Dot(Add(u, Scale(t, v)), Add(u, Scale(t, v))) == Dot(v, v) * t * t + 2.0 * Dot(u, v) * t + Dot(u, u)
  {
    SquareOfSum(u.x, v.x, t);
    SquareOfSum(u.y, v.y, t);
    SquareOfSum(u.z, v.z, t);
  }

  lemma DotScaleScale(k: real, v: Vector3)
    ensures Dot(Scale(k, v), Scale(k, v)) == k * k * Dot(v, v)
  {
  }

  lemma DotScaleLeft(k: real, a: Vector3, b: Vector3)
    ensures Dot(Scale(k, a), b) == k * Dot(a, b)
  {
  }

  /** A normalized non-zero vector has unit length; the zero vector normalizes to itself. */
  lemma {:induction false} NormalizedIsUnit(v: Vector3, m: MathLib)
    requires IsSqrt(m.sqrt)
    ensures v != Zero ==> Dot(Normalized(v, m), Normalized(v, m)) == 1.0
    ensures v == Zero ==> Normalized(v, m) == Zero
  {
    LengthZero(v, m);
    if v != Zero {
      var len := Length(v, m);
      var k := 1.0 / len;
      DotScaleScale(k, v);
      assert len * len == Dot(v, v);
      calc {
        Dot(Normalized(v, m), Normalized(v, m));
        k * k * Dot(v, v);
        k * k * (len * len);
        (k * len) * (k * len);
        { assert k * len == 1.0; }
        1.0;
      }
    }
  }

  /** The normalized vector points along `v`: its dot product with `v` is `|v|`. */
  lemma NormalizedDotSelf(v: Vector3, m: MathLib)
    requires IsSqrt(m.sqrt)
    ensures Dot(Normalized(v, m), v) == Length(v, m)
  {
    LengthZero(v, m);
    var len := Length(v, m);
    if len != 0.0 {
      DotScaleLeft(1.0 / len, v, v);
      assert Dot(v, v) == len * len;
      assert (1.0 / len) * (len * len) == len;
    }
  }
}
