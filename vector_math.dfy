/**
 * Exact-arithmetic model of the small part of the host's vector library that
 * the deformer uses: points and vectors in three dimensions, the cross product,
 * row vectors times 3x3 matrices, lengths, normalisation and matrix inversion.
 *
 * Square roots and general matrix inversion are not computable exactly over
 * the reals, so they are supplied by a `MathLib` value whose soundness is a
 * predicate callers assume; every other operation is defined here.
 */
module VectorMath {

  /** A point or vector; the host's homogeneous `w` of points is always 1 and plays no role. */
  datatype Vec3 = Vec3(x: real, y: real, z: real)

  function Zero(): Vec3 { Vec3(0.0, 0.0, 0.0) }

  function Add(a: Vec3, b: Vec3): Vec3 { Vec3(a.x + b.x, a.y + b.y, a.z + b.z) }

  function Sub(a: Vec3, b: Vec3): Vec3 { Vec3(a.x - b.x, a.y - b.y, a.z - b.z) }

  function Scale(a: Vec3, k: real): Vec3 { Vec3(a.x * k, a.y * k, a.z * k) }

  /** Component-wise division, as `MVector::operator/=(double)`. */
  function Div(a: Vec3, d: real): Vec3
    requires d != 0.0
  {
    Vec3(a.x / d, a.y / d, a.z / d)
  }

  function Dot(a: Vec3, b: Vec3): real { a.x * b.x + a.y * b.y + a.z * b.z }

  /** The host's `^` operator on vectors. */
  function Cross(a: Vec3, b: Vec3): Vec3
  {
    Vec3(a.y * b.z - a.z * b.y, a.z * b.x - a.x * b.z, a.x * b.y - a.y * b.x)
  }

  /**
   * A 3x3 matrix given by its rows. The deformer fills the upper-left 3x3 block
   * of a 4x4 matrix whose last row and column are (0, 0, 0, 1); vectors ignore
   * that last row and the inverse keeps that shape, so the block is all that matters.
   */
  datatype Mat3 = Mat3(r0: Vec3, r1: Vec3, r2: Vec3)

  /** Row vector times matrix, as `MVector * MMatrix`: x * row0 + y * row1 + z * row2. */
  function VecMat(v: Vec3, m: Mat3): Vec3
  {
    Vec3(v.x * m.r0.x + v.y * m.r1.x + v.z * m.r2.x,
         v.x * m.r0.y + v.y * m.r1.y + v.z * m.r2.y,
         v.x * m.r0.z + v.y * m.r1.z + v.z * m.r2.z)
  }

  function MatMul(a: Mat3, b: Mat3): Mat3
  {
    Mat3(VecMat(a.r0, b), VecMat(a.r1, b), VecMat(a.r2, b))
  }

  function Identity(): Mat3
  {
    Mat3(Vec3(1.0, 0.0, 0.0), Vec3(0.0, 1.0, 0.0), Vec3(0.0, 0.0, 1.0))
  }

  function Det(m: Mat3): real { Dot(m.r0, Cross(m.r1, m.r2)) }

  /** The square of a number; named so that facts about squares can be stated and reused. */
  function Sq(a: real): real { a * a }

  /** The host's square root and 3x3 inverse, as function values. */
  datatype MathLib = MathLib(sqrt: real -> real, inverse: Mat3 -> Mat3)

  /** What the model relies on of `sqrt`: it is the non-negative square root. */
  ghost predicate SqrtSound(lib: MathLib)
  {
    forall x: real :: 0.0 <= x ==> 0.0 <= lib.sqrt(x) && Sq(lib.sqrt(x)) == x
  }

  /**
   * What the model relies on of `inverse`: it undoes any matrix whose
   * determinant is non-zero. Nothing is assumed about a singular matrix.
   */
  ghost predicate InverseSound(lib: MathLib)
  {
    forall m: Mat3 :: Det(m) != 0.0 ==> MatMul(lib.inverse(m), m) == Identity()
  }

  /** `MVector::length()`. */
  function Length(lib: MathLib, v: Vec3): (r: real)
    ensures SqrtSound(lib) ==> 0.0 <= r && Sq(r) == Dot(v, v)
  {
    DotSelf(v);
    lib.sqrt(Dot(v, v))
  }

  /** `MVector::normal()` and `MVector::normalize()`: a vector of length zero is left as it is. */
  function Normal(lib: MathLib, v: Vec3): Vec3
  {
    var len := Length(lib, v);
    if len > 0.0 then Scale(v, 1.0 / len) else v
  }

  /** The product of two positive reals is positive. */
  lemma MulPositive(a: real, b: real, t: real)
    requires t == a * b && 0.0 < a && 0.0 < b
    ensures 0.0 < t
  {
  }

  /** The product of two non-negative reals is non-negative. */
  lemma MulNonNegative(a: real, b: real, t: real)
    requires t == a * b && 0.0 <= a && 0.0 <= b
    ensures 0.0 <= t
  {
  }

  /** A square is non-negative, and positive for a non-zero number. */
  lemma Square(a: real)
    ensures 0.0 <= Sq(a)
    ensures a != 0.0 ==> 0.0 < Sq(a)
  {
    if a > 0.0 {
      MulPositive(a, a, Sq(a));
    } else if a < 0.0 {
      MulPositive(-a, -a, Sq(a));
    }
  }

  /** Two non-negative numbers with the same square are equal. */
  lemma RootsEqual(q: real, r: real)
    requires 0.0 <= q && 0.0 <= r && Sq(q) == Sq(r)
    ensures q == r
  {
    if q > r {
      MulPositive(q - r, q + r, Sq(q) - Sq(r));
    } else if q < r {
      MulPositive(r - q, r + q, Sq(r) - Sq(q));
    }
  }

  /** The square root is determined by its defining property. */
  lemma SqrtUnique(lib: MathLib, x: real, r: real)
    requires SqrtSound(lib) && 0.0 <= r && Sq(r) == x
    ensures lib.sqrt(x) == r
  {
    Square(r);
    RootsEqual(lib.sqrt(x), r);
  }

  /** The squared length of a vector is non-negative, and positive unless the vector is zero. */
  lemma DotSelf(v: Vec3)
    ensures 0.0 <= Dot(v, v)
    ensures v != Zero() ==> 0.0 < Dot(v, v)
  {
    Square(v.x);
    Square(v.y);
    Square(v.z);
    assert Dot(v, v) == Sq(v.x) + Sq(v.y) + Sq(v.z);
    if v != Zero() {
      assert v.x != 0.0 || v.y != 0.0 || v.z != 0.0;
    }
  }

  /** The length of a vector is positive exactly when the vector is non-zero. */
  lemma LengthPositive(lib: MathLib, v: Vec3)
    requires SqrtSound(lib)
    ensures v != Zero() ==> 0.0 < Length(lib, v)
    ensures v == Zero() ==> Length(lib, v) == 0.0
  {
    DotSelf(v);
    if v == Zero() {
      SqrtUnique(lib, 0.0, 0.0);
    }
  }

  /** Normalising a non-zero vector and scaling it back by its length gives the vector. */
  lemma NormalTimesLength(lib: MathLib, v: Vec3)
    requires SqrtSound(lib) && v != Zero()
    ensures Scale(Normal(lib, v), Length(lib, v)) == v
  {
    LengthPositive(lib, v);
    var len := Length(lib, v);
    var k := 1.0 / len;
    assert k * len == 1.0;
    assert (v.x * k) * len == v.x * (k * len);
    assert (v.y * k) * len == v.y * (k * len);
    assert (v.z * k) * len == v.z * (k * len);
  }

  /** Scaling a vector by `k` scales its squared length by the square of `k`. */
  lemma DotScale(v: Vec3, k: real)
    ensures Dot(Scale(v, k), Scale(v, k)) == Sq(k) * Dot(v, v)
  {
    assert (v.x * k) * (v.x * k) == (k * k) * (v.x * v.x);
    assert (v.y * k) * (v.y * k) == (k * k) * (v.y * v.y);
    assert (v.z * k) * (v.z * k) == (k * k) * (v.z * v.z);
  }

  /** A non-zero vector normalises to unit length. */
  lemma NormalIsUnit(lib: MathLib, v: Vec3)
    requires SqrtSound(lib) && v != Zero()
    ensures Dot(Normal(lib, v), Normal(lib, v)) == 1.0
  {
    LengthPositive(lib, v);
    var len := Length(lib, v);
    var k := 1.0 / len;
    DotScale(v, k);
    assert Sq(k) * Sq(len) == Sq(k * len);
    assert k * len == 1.0;
  }

  /** Scaling twice is scaling by the product. */
  lemma ScaleScale(v: Vec3, a: real, b: real)
    ensures Scale(Scale(v, a), b) == Scale(v, a * b)
  {
    assert (v.x * a) * b == v.x * (a * b);
    assert (v.y * a) * b == v.y * (a * b);
    assert (v.z * a) * b == v.z * (a * b);
  }

  /** Scaling by a non-negative factor scales the length by that factor. */
  lemma LengthScale(lib: MathLib, v: Vec3, c: real)
    requires SqrtSound(lib) && 0.0 <= c
    ensures Length(lib, Scale(v, c)) == c * Length(lib, v)
  {
    var len := Length(lib, v);
    var w := Scale(v, c);
    DotScale(v, c);
    assert Sq(c * len) == Sq(c) * Sq(len);
    MulNonNegative(c, len, c * len);
    SqrtUnique(lib, Dot(w, w), c * len);
  }

  /** Scaling by a positive factor does not change the direction `Normal` returns. */
  lemma NormalOfPositiveMultiple(lib: MathLib, v: Vec3, c: real)
    requires SqrtSound(lib) && 0.0 < c
    ensures Normal(lib, Scale(v, c)) == Normal(lib, v)
  {
    if v == Zero() {
      assert Scale(v, c) == v;
    } else {
      var len := Length(lib, v);
      LengthScale(lib, v, c);
      LengthPositive(lib, v);
      MulPositive(c, len, c * len);
      ScaleScale(v, c, 1.0 / (c * len));
      assert c * (1.0 / (c * len)) == 1.0 / len;
    }
  }

  /**
   * The detail vector the deformer rebuilds, a normalised direction scaled by a
   * non-negative magnitude, has exactly that magnitude as its length.
   */
  lemma ScaledNormalLength(lib: MathLib, v: Vec3, k: real)
    requires SqrtSound(lib) && v != Zero() && 0.0 <= k
    ensures Length(lib, Scale(Normal(lib, v), k)) == k
  {
    var u := Normal(lib, v);
    NormalIsUnit(lib, v);
    DotScale(u, k);
    SqrtUnique(lib, Sq(k), k);
  }

  /** Multiplying a row vector by two matrices in turn is multiplying by their product. */
  lemma VecMatAssociative(v: Vec3, a: Mat3, b: Mat3)
    ensures VecMat(VecMat(v, a), b) == VecMat(v, MatMul(a, b))
  {
    var p0, p1, p2 := Scale(a.r0, v.x), Scale(a.r1, v.y), Scale(a.r2, v.z);
    RowCombination(v, a);
    VecMatAdd(Add(p0, p1), p2, b);
    VecMatAdd(p0, p1, b);
    VecMatScale(a.r0, v.x, b);
    VecMatScale(a.r1, v.y, b);
    VecMatScale(a.r2, v.z, b);
    RowCombination(v, MatMul(a, b));
  }

  /** A row vector times a matrix is the combination of the matrix rows weighted by the vector's components. */
  lemma RowCombination(v: Vec3, m: Mat3)
    ensures VecMat(v, m) == Add(Add(Scale(m.r0, v.x), Scale(m.r1, v.y)), Scale(m.r2, v.z))
  {
  }

  /** `VecMat` distributes over vector addition. */
  lemma VecMatAdd(u: Vec3, w: Vec3, b: Mat3)
    ensures VecMat(Add(u, w), b) == Add(VecMat(u, b), VecMat(w, b))
  {
    var l, r := VecMat(Add(u, w), b), Add(VecMat(u, b), VecMat(w, b));
    RowSum(u.x, u.y, u.z, w.x, w.y, w.z, b.r0.x, b.r1.x, b.r2.x);
    assert l.x == r.x;
    RowSum(u.x, u.y, u.z, w.x, w.y, w.z, b.r0.y, b.r1.y, b.r2.y);
    assert l.y == r.y;
    RowSum(u.x, u.y, u.z, w.x, w.y, w.z, b.r0.z, b.r1.z, b.r2.z);
    assert l.z == r.z;
  }

  /** One component of `VecMatAdd`. */
  lemma RowSum(u0: real, u1: real, u2: real, w0: real, w1: real, w2: real, c0: real, c1: real, c2: real)
    ensures (u0 + w0) * c0 + (u1 + w1) * c1 + (u2 + w2) * c2
         == (u0 * c0 + u1 * c1 + u2 * c2) + (w0 * c0 + w1 * c1 + w2 * c2)
  {
  }

  /** `VecMat` commutes with scaling. */
  lemma VecMatScale(u: Vec3, k: real, b: Mat3)
    ensures VecMat(Scale(u, k), b) == Scale(VecMat(u, b), k)
  {
    var l, r := VecMat(Scale(u, k), b), Scale(VecMat(u, b), k);
    RowScale(u.x, u.y, u.z, k, b.r0.x, b.r1.x, b.r2.x);
    assert l.x == r.x;
    RowScale(u.x, u.y, u.z, k, b.r0.y, b.r1.y, b.r2.y);
    assert l.y == r.y;
    RowScale(u.x, u.y, u.z, k, b.r0.z, b.r1.z, b.r2.z);
    assert l.z == r.z;
  }

  /** One component of `VecMatScale`. */
  lemma RowScale(u0: real, u1: real, u2: real, k: real, c0: real, c1: real, c2: real)
    ensures (u0 * k) * c0 + (u1 * k) * c1 + (u2 * k) * c2 == (u0 * c0 + u1 * c1 + u2 * c2) * k
  {
  }

  /**
   * Encoding a vector with the inverse of an invertible matrix and decoding it
   * with the matrix gives the vector back.
   */
  lemma DecodeUndoesEncode(lib: MathLib, d: Vec3, m: Mat3)
    requires InverseSound(lib) && Det(m) != 0.0
    ensures VecMat(VecMat(d, lib.inverse(m)), m) == d
  {
    VecMatAssociative(d, lib.inverse(m), m);
    assert MatMul(lib.inverse(m), m) == Identity();
  }

  /** The cross product is orthogonal to both of its operands. */
  lemma CrossOrthogonal(a: Vec3, b: Vec3)
    ensures Dot(Cross(a, b), a) == 0.0 && Dot(Cross(a, b), b) == 0.0
  {
  }

  /** Adding a vector to `k` copies of itself gives `k + 1` copies. */
  lemma ScaleSucc(v: Vec3, k: real)
    ensures Add(Scale(v, k), v) == Scale(v, k + 1.0)
  {
    assert v.x * k + v.x == v.x * (k + 1.0);
    assert v.y * k + v.y == v.y * (k + 1.0);
    assert v.z * k + v.z == v.z * (k + 1.0);
  }

  /** Dividing a scaled vector divides the scale factor. */
  lemma DivScale(v: Vec3, a: real, b: real)
    requires b != 0.0
    ensures Div(Scale(v, a), b) == Scale(v, a / b)
  {
    assert (v.x * a) / b == v.x * (a / b);
    assert (v.y * a) / b == v.y * (a / b);
    assert (v.z * a) / b == v.z * (a / b);
  }

  /** The difference of two points is zero exactly when they coincide. */
  lemma SubZero(a: Vec3, b: Vec3)
    ensures Sub(a, b) == Zero() <==> a == b
  {
  }

  /** The zero row vector times any matrix is zero. */
  lemma VecMatZero(m: Mat3)
    ensures VecMat(Zero(), m) == Zero()
  {
  }

  /** Zero is fixed by scaling and division. */
  lemma ZeroScaled(k: real, d: real)
    requires d != 0.0
    ensures Scale(Zero(), k) == Zero() && Div(Zero(), d) == Zero()
  {
  }

  /** `normal()` of the zero vector is the zero vector. */
  lemma NormalZero(lib: MathLib)
    requires SqrtSound(lib)
    ensures Normal(lib, Zero()) == Zero()
  {
    LengthPositive(lib, Zero());
  }
}
