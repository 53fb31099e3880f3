/**
  Two-dimensional vectors over the reals, with the handful of raylib vector
  operations the round logic calls (add, subtract, scale, length, squared
  length, distance, normalise).

  The square root is not part of Dafny's real arithmetic, so every operation
  that needs one takes the square-root function as a parameter, constrained
  by `IsSqrt` to return the exact nonnegative root.
*/
module Vector2D {

  datatype Vec = Vec(x: real, y: real)

  const Zero: Vec := Vec(0.0, 0.0)

  function Add(a: Vec, b: Vec): Vec { Vec(a.x + b.x, a.y + b.y) }

  function Sub(a: Vec, b: Vec): Vec { Vec(a.x - b.x, a.y - b.y) }

  function Scale(v: Vec, k: real): Vec { Vec(v.x * k, v.y * k) }

  function Dot(a: Vec, b: Vec): real { a.x * b.x + a.y * b.y }

  /** Zero exactly when `a` and `b` are parallel (or one of them is zero). */
  function Cross(a: Vec, b: Vec): real { a.x * b.y - a.y * b.x }

  function LengthSqr(v: Vec): real { v.x * v.x + v.y * v.y }

  function DistanceSqr(a: Vec, b: Vec): real { LengthSqr(Sub(a, b)) }

  /** `sqrt` is the exact square root on the nonnegative reals. */
  ghost predicate IsSqrt(sqrt: real -> real) {
    forall r :: 0.0 <= r ==> 0.0 <= sqrt(r) && sqrt(r) * sqrt(r) == r
  }

  lemma PosMul(a: real, b: real)
    requires 0.0 < a && 0.0 < b
    ensures 0.0 < a * b
  {
  }

  lemma MulStrict(a: real, b: real, c: real)
    requires 0.0 < a && b < c
    ensures a * b < a * c
  {
    PosMul(a, c - b);
    assert a * (c - b) == a * c - a * b;
  }

  lemma SquarePositive(a: real)
    ensures 0.0 <= a * a
    ensures a != 0.0 ==> 0.0 < a * a
  {
    if a < 0.0 {
      PosMul(-a, -a);
      assert (-a) * (-a) == a * a;
    } else if a > 0.0 {
      PosMul(a, a);
    }
  }

  lemma LengthSqrNonnegative(v: Vec)
    ensures 0.0 <= LengthSqr(v)
    ensures LengthSqr(v) == 0.0 <==> v == Zero
  {
    SquarePositive(v.x);
    SquarePositive(v.y);
    if v.x != 0.0 {
      calc { LengthSqr(v); == v.x * v.x + v.y * v.y; > 0.0; }
    } else if v.y != 0.0 {
      calc { LengthSqr(v); == v.x * v.x + v.y * v.y; > 0.0; }
    } else {
      assert v == Zero;
      calc { LengthSqr(v); == 0.0 * 0.0 + 0.0 * 0.0; == 0.0; }
    }
  }

  lemma SqrtOf(sqrt: real -> real, sq: real)
    requires IsSqrt(sqrt) && 0.0 <= sq
    ensures 0.0 <= sqrt(sq) && sqrt(sq) * sqrt(sq) == sq
    ensures sqrt(sq) == 0.0 <==> sq == 0.0
  {
    var r := sqrt(sq);
    assert 0.0 <= r && r * r == sq;
    if r == 0.0 {
      calc { sq; == r * r; == 0.0 * 0.0; == 0.0; }
    } else {
      SquarePositive(r);
      calc { sq; == r * r; > 0.0; }
    }
  }

  /** Vector2Length. */
  function Length(sqrt: real -> real, v: Vec): (r: real)
    requires IsSqrt(sqrt)
    ensures 0.0 <= r && r * r == LengthSqr(v)
    ensures r == 0.0 <==> v == Zero
  {
    LengthSqrNonnegative(v);
    SqrtOf(sqrt, LengthSqr(v));
    sqrt(LengthSqr(v))
  }

  /** Vector2Distance. */
  function Distance(sqrt: real -> real, a: Vec, b: Vec): (r: real)
    requires IsSqrt(sqrt)
    ensures 0.0 <= r && r * r == DistanceSqr(a, b)
  {
    Length(sqrt, Sub(a, b))
  }

  /** For nonnegative reals, comparing two numbers and comparing their squares agree. */
  lemma SquareMonotone(r: real, c: real)
    requires 0.0 <= r && 0.0 <= c
    ensures r < c <==> r * r < c * c
  {
    if r < c {
      calc {
        r * r;
        <= { if r > 0.0 { MulStrict(r, r, c); } }
        r * c;
        == c * r;
        < { MulStrict(c, r, c); }
        c * c;
      }
    } else {
      calc {
        c * c;
        <= { if c > 0.0 && c < r { MulStrict(c, c, r); } }
        c * r;
        == r * c;
        <= { if r > 0.0 && c < r { MulStrict(r, c, r); } }
        r * r;
      }
    }
  }

  /** A threshold test on a length is the same test on the squared length. */
  lemma LengthBelow(sqrt: real -> real, v: Vec, c: real)
    requires IsSqrt(sqrt) && 0.0 <= c
    ensures Length(sqrt, v) < c <==> LengthSqr(v) < c * c
  {
    SquareMonotone(Length(sqrt, v), c);
  }

  lemma ScaleLengthSqr(v: Vec, k: real)
    ensures LengthSqr(Scale(v, k)) == k * k * LengthSqr(v)
    ensures Cross(Scale(v, k), v) == 0.0
    ensures Dot(Scale(v, k), v) == k * LengthSqr(v)
  {
    calc {
      LengthSqr(Scale(v, k));
      (v.x * k) * (v.x * k) + (v.y * k) * (v.y * k);
      k * k * (v.x * v.x) + k * k * (v.y * v.y);
    }
  }

  lemma ScaleZero(k: real)
    ensures Scale(Zero, k) == Zero
  {
  }

  lemma AddZero(v: Vec)
    ensures Add(v, Zero) == v
  {
  }

  /** Scaling one argument scales the cross and dot products alike. */
  lemma ScaleProducts(a: Vec, b: Vec, k: real)
    ensures Cross(Scale(a, k), b) == k * Cross(a, b)
    ensures Dot(Scale(a, k), b) == k * Dot(a, b)
  {
  }

  lemma MulNonnegative(a: real, b: real)
    requires 0.0 <= a && 0.0 <= b
    ensures 0.0 <= a * b
  {
    if 0.0 < a && 0.0 < b { PosMul(a, b); }
  }

  lemma NormalizeUnit(v: Vec, len: real)
    requires 0.0 < len && len * len == LengthSqr(v)
    ensures LengthSqr(Scale(v, 1.0 / len)) == 1.0
    ensures Cross(Scale(v, 1.0 / len), v) == 0.0
    ensures Dot(Scale(v, 1.0 / len), v) > 0.0
  {
    var k := 1.0 / len;
    ScaleLengthSqr(v, k);
    assert k * len == 1.0;
    calc {
      k * k * LengthSqr(v);
      k * k * (len * len);
      (k * len) * (k * len);
      1.0;
    }
    MulStrict(k, 0.0, LengthSqr(v));
  }

  /**
    Vector2Normalize: the unit vector in the direction of `v`, and the zero
    vector when `v` is zero (raylib divides only by a positive length).
  */
  function Normalize(sqrt: real -> real, v: Vec): (r: Vec)
    requires IsSqrt(sqrt)
    ensures v == Zero ==> r == Zero
    ensures v != Zero ==> LengthSqr(r) == 1.0 && Cross(r, v) == 0.0 && Dot(r, v) > 0.0
  {
    var len := Length(sqrt, v);
    if len > 0.0 then
      NormalizeUnit(v, len);
      Scale(v, 1.0 / len)
    else Zero
  }

  lemma DistanceSymmetric(a: Vec, b: Vec)
    ensures DistanceSqr(a, b) == DistanceSqr(b, a)
  {
    var dx, dy := a.x - b.x, a.y - b.y;
    calc {
      DistanceSqr(b, a);
      (-dx) * (-dx) + (-dy) * (-dy);
      dx * dx + dy * dy;
    }
  }

  /** Adding a vector scaled by a product of two factors, one axis at a time. */
  lemma AddScaled(v: Vec, u: Vec, a: real, b: real)
    ensures Vec(v.x + u.x * a * b, v.y + u.y * a * b) == Add(v, Scale(u, a * b))
  {
    var scaled := Scale(u, a * b);
    MulAssoc(u.x, a, b);
    assert scaled.x == u.x * a * b;
    MulAssoc(u.y, a, b);
    assert scaled.y == u.y * a * b;
  }

  lemma MulAssoc(x: real, a: real, b: real)
    ensures x * a * b == x * (a * b)
  {
  }
}
