// The quaternion of include/pbrt/math/quaternion.hpp, components (w, x, y, z) with w the
// scalar part. The expressions (`conjugate`, `inverse`, `rotate`, `to_matrix`, `dot`,
// `slerp`) are functions on the value `Quat`; the compound operators and `normalize`,
// which update `m_components` in place, are methods of the class `Quaternion`.
module Quaternions {
  import opened Scalar
  import Grids
  import Vectors

  datatype Quat = Quat(w: real, x: real, y: real, z: real)

  /** The default constructor and `identity()`. */
  function Identity(): Quat
  {
    Quat(1.0, 0.0, 0.0, 0.0)
  }

  /** The all-zero quaternion `inverse()` answers for a (near) zero length. */
  function ZeroQuat(): Quat
  {
    Quat(0.0, 0.0, 0.0, 0.0)
  }

  /** `operator[](index)`: components in the order w, x, y, z. */
  function Component(q: Quat, index: nat): real
    requires index < 4
  {
    if index == 0 then q.w else if index == 1 then q.x else if index == 2 then q.y else q.z
  }

  /** The constructor from a scalar part and a 3-vector part. */
  function FromScalarVector(w: real, v: Vectors.Vec): (q: Quat)
    requires |v| == 3
    ensures q.w == w && VectorPart(q) == v
  {
    Quat(w, v[0], v[1], v[2])
  }

  /** `vector()`: the imaginary part (x, y, z). */
  function VectorPart(q: Quat): (v: Vectors.Vec)
    ensures |v| == 3
  {
    [q.x, q.y, q.z]
  }

  // ---------------------------------------------------------------- component-wise arithmetic

  function Add(a: Quat, b: Quat): Quat
  {
    Quat(a.w + b.w, a.x + b.x, a.y + b.y, a.z + b.z)
  }

  function Sub(a: Quat, b: Quat): Quat
  {
    Quat(a.w - b.w, a.x - b.x, a.y - b.y, a.z - b.z)
  }

  /** Unary `operator-`. */
  function Neg(q: Quat): Quat
  {
    Quat(-q.w, -q.x, -q.y, -q.z)
  }

  /** `q * s`, `q *= s` and the free `s * q`: every component times `s`. */
  function Scale(q: Quat, s: real): Quat
  {
    Quat(q.w * s, q.x * s, q.y * s, q.z * s)
  }

  /** Free `dot(lhs, rhs)`. */
  function Dot(a: Quat, b: Quat): real
  {
    a.w * b.w + a.x * b.x + a.y * b.y + a.z * b.z
  }

  /** `length_squared()`. */
  function LengthSquared(q: Quat): real
  {
    q.w * q.w + q.x * q.x + q.y * q.y + q.z * q.z
  }

  /** `approx_equal(other, epsilon)`, and `==` with the type's epsilon. */
  predicate ApproxEqual(a: Quat, b: Quat, eps: real)
  {
    Abs(a.w - b.w) <= eps && Abs(a.x - b.x) <= eps && Abs(a.y - b.y) <= eps && Abs(a.z - b.z) <= eps
  }

  // ---------------------------------------------------------------- Hamilton product

  /** `operator*=(Quaternion)` and `operator*(Quaternion)`: the Hamilton product `a b`. */
  function Hamilton(a: Quat, b: Quat): Quat
  {
    Quat(a.w * b.w - a.x * b.x - a.y * b.y - a.z * b.z,
         a.w * b.x + a.x * b.w + a.y * b.z - a.z * b.y,
         a.w * b.y - a.x * b.z + a.y * b.w + a.z * b.x,
         a.w * b.z + a.x * b.y - a.y * b.x + a.z * b.w)
  }

  /** The identity is a unit on both sides. */
  lemma HamiltonIdentity(q: Quat)
    ensures Hamilton(Identity(), q) == q && Hamilton(q, Identity()) == q
  {
  }

  /** The imaginary units multiply cyclically: i j = k, j k = i, k i = j, and i i = -1. */
  lemma HamiltonBasis()
    ensures Hamilton(UnitI(), UnitJ()) == UnitK()
    ensures Hamilton(UnitJ(), UnitK()) == UnitI()
    ensures Hamilton(UnitK(), UnitI()) == UnitJ()
    ensures Hamilton(UnitI(), UnitI()) == Neg(Identity())
  {
    BasisIJ();
    BasisJK();
    BasisKI();
    BasisII();
  }

  lemma BasisIJ() ensures Hamilton(UnitI(), UnitJ()) == UnitK() {}
  lemma BasisJK() ensures Hamilton(UnitJ(), UnitK()) == UnitI() {}
  lemma BasisKI() ensures Hamilton(UnitK(), UnitI()) == UnitJ() {}
  lemma BasisII() ensures Hamilton(UnitI(), UnitI()) == Neg(Identity()) {}

  function UnitI(): Quat { Quat(0.0, 1.0, 0.0, 0.0) }
  function UnitJ(): Quat { Quat(0.0, 0.0, 1.0, 0.0) }
  function UnitK(): Quat { Quat(0.0, 0.0, 0.0, 1.0) }

  /** The product of two quaternions given by their components. */
  lemma HamiltonOf(a0: real, a1: real, a2: real, a3: real, b0: real, b1: real, b2: real, b3: real)
    ensures Hamilton(Quat(a0, a1, a2, a3), Quat(b0, b1, b2, b3))
         == Quat(a0 * b0 - a1 * b1 - a2 * b2 - a3 * b3, a0 * b1 + a1 * b0 + a2 * b3 - a3 * b2,
                 a0 * b2 - a1 * b3 + a2 * b0 + a3 * b1, a0 * b3 + a1 * b2 - a2 * b1 + a3 * b0)
  {
  }

  /** The Hamilton product is associative (exactly, over the reals). */
  lemma HamiltonAssociative(a: Quat, b: Quat, c: Quat)
    ensures Hamilton(Hamilton(a, b), c) == Hamilton(a, Hamilton(b, c))
  {
    AssociativeW(a, b, c);
    AssociativeX(a, b, c);
    AssociativeY(a, b, c);
    AssociativeZ(a, b, c);
  }

  lemma AssociativeW(a: Quat, b: Quat, c: Quat)
    ensures Hamilton(Hamilton(a, b), c).w == Hamilton(a, Hamilton(b, c)).w
  {
    var p, q := Hamilton(a, b), Hamilton(b, c);
    HamiltonIsProduct(a, b);
    HamiltonIsProduct(b, c);
    PolyW(a.w, a.x, a.y, a.z, b.w, b.x, b.y, b.z, c.w, c.x, c.y, c.z, p.w, p.x, p.y, p.z, q.w, q.x, q.y, q.z);
  }

  lemma AssociativeX(a: Quat, b: Quat, c: Quat)
    ensures Hamilton(Hamilton(a, b), c).x == Hamilton(a, Hamilton(b, c)).x
  {
    var p, q := Hamilton(a, b), Hamilton(b, c);
    HamiltonIsProduct(a, b);
    HamiltonIsProduct(b, c);
    PolyX(a.w, a.x, a.y, a.z, b.w, b.x, b.y, b.z, c.w, c.x, c.y, c.z, p.w, p.x, p.y, p.z, q.w, q.x, q.y, q.z);
  }

  lemma AssociativeY(a: Quat, b: Quat, c: Quat)
    ensures Hamilton(Hamilton(a, b), c).y == Hamilton(a, Hamilton(b, c)).y
  {
    var p, q := Hamilton(a, b), Hamilton(b, c);
    HamiltonIsProduct(a, b);
    HamiltonIsProduct(b, c);
    PolyY(a.w, a.x, a.y, a.z, b.w, b.x, b.y, b.z, c.w, c.x, c.y, c.z, p.w, p.x, p.y, p.z, q.w, q.x, q.y, q.z);
  }

  lemma AssociativeZ(a: Quat, b: Quat, c: Quat)
    ensures Hamilton(Hamilton(a, b), c).z == Hamilton(a, Hamilton(b, c)).z
  {
    var p, q := Hamilton(a, b), Hamilton(b, c);
    HamiltonIsProduct(a, b);
    HamiltonIsProduct(b, c);
    PolyZ(a.w, a.x, a.y, a.z, b.w, b.x, b.y, b.z, c.w, c.x, c.y, c.z, p.w, p.x, p.y, p.z, q.w, q.x, q.y, q.z);
  }

  // One component of associativity over the reals: `p` is the product `a b`, `q` is `b c`.

  lemma PolyW(a0: real, a1: real, a2: real, a3: real, b0: real, b1: real, b2: real, b3: real,
              c0: real, c1: real, c2: real, c3: real,
              p0: real, p1: real, p2: real, p3: real, q0: real, q1: real, q2: real, q3: real)
    requires IsProduct(a0, a1, a2, a3, b0, b1, b2, b3, p0, p1, p2, p3)
    requires IsProduct(b0, b1, b2, b3, c0, c1, c2, c3, q0, q1, q2, q3)
    ensures p0 * c0 - p1 * c1 - p2 * c2 - p3 * c3 == a0 * q0 - a1 * q1 - a2 * q2 - a3 * q3
  {
  }

  lemma PolyX(a0: real, a1: real, a2: real, a3: real, b0: real, b1: real, b2: real, b3: real,
              c0: real, c1: real, c2: real, c3: real,
              p0: real, p1: real, p2: real, p3: real, q0: real, q1: real, q2: real, q3: real)
    requires IsProduct(a0, a1, a2, a3, b0, b1, b2, b3, p0, p1, p2, p3)
    requires IsProduct(b0, b1, b2, b3, c0, c1, c2, c3, q0, q1, q2, q3)
    ensures p0 * c1 + p1 * c0 + p2 * c3 - p3 * c2 == a0 * q1 + a1 * q0 + a2 * q3 - a3 * q2
  {
  }

  lemma PolyY(a0: real, a1: real, a2: real, a3: real, b0: real, b1: real, b2: real, b3: real,
              c0: real, c1: real, c2: real, c3: real,
              p0: real, p1: real, p2: real, p3: real, q0: real, q1: real, q2: real, q3: real)
    requires IsProduct(a0, a1, a2, a3, b0, b1, b2, b3, p0, p1, p2, p3)
    requires IsProduct(b0, b1, b2, b3, c0, c1, c2, c3, q0, q1, q2, q3)
    ensures p0 * c2 - p1 * c3 + p2 * c0 + p3 * c1 == a0 * q2 - a1 * q3 + a2 * q0 + a3 * q1
  {
  }

  lemma PolyZ(a0: real, a1: real, a2: real, a3: real, b0: real, b1: real, b2: real, b3: real,
              c0: real, c1: real, c2: real, c3: real,
              p0: real, p1: real, p2: real, p3: real, q0: real, q1: real, q2: real, q3: real)
    requires IsProduct(a0, a1, a2, a3, b0, b1, b2, b3, p0, p1, p2, p3)
    requires IsProduct(b0, b1, b2, b3, c0, c1, c2, c3, q0, q1, q2, q3)
    ensures p0 * c3 + p1 * c2 - p2 * c1 + p3 * c0 == a0 * q3 + a1 * q2 - a2 * q1 + a3 * q0
  {
  }

  lemma HamiltonIsProduct(a: Quat, b: Quat)
    ensures var p := Hamilton(a, b); IsProduct(a.w, a.x, a.y, a.z, b.w, b.x, b.y, b.z, p.w, p.x, p.y, p.z)
  {
  }

  /** `(p0, p1, p2, p3)` is the Hamilton product of `(a0, a1, a2, a3)` and `(b0, b1, b2, b3)`. */
  predicate IsProduct(a0: real, a1: real, a2: real, a3: real, b0: real, b1: real, b2: real, b3: real,
                      p0: real, p1: real, p2: real, p3: real)
  {
    && p0 == a0 * b0 - a1 * b1 - a2 * b2 - a3 * b3
    && p1 == a0 * b1 + a1 * b0 + a2 * b3 - a3 * b2
    && p2 == a0 * b2 - a1 * b3 + a2 * b0 + a3 * b1
    && p3 == a0 * b3 + a1 * b2 - a2 * b1 + a3 * b0
  }

  /** A scalar factor on the right operand comes out of the product. */
  lemma HamiltonScaleRight(a: Quat, b: Quat, s: real)
    ensures Hamilton(a, Scale(b, s)) == Scale(Hamilton(a, b), s)
  {
    var c := Scale(b, s);
    var p, r := Hamilton(a, b), Hamilton(a, c);
    HamiltonIsProduct(a, b);
    HamiltonIsProduct(a, c);
    ProductScaled(a.w, a.x, a.y, a.z, b.w, b.x, b.y, b.z, c.w, c.x, c.y, c.z, s,
                  p.w, p.x, p.y, p.z, r.w, r.x, r.y, r.z);
    assert r == Quat(p.w * s, p.x * s, p.y * s, p.z * s);
  }

  /** A scalar factor on the left operand comes out of the product. */
  lemma HamiltonScaleLeft(a: Quat, b: Quat, s: real)
    ensures Hamilton(Scale(a, s), b) == Scale(Hamilton(a, b), s)
  {
    var c := Scale(a, s);
    var p, r := Hamilton(a, b), Hamilton(c, b);
    HamiltonIsProduct(a, b);
    HamiltonIsProduct(c, b);
    ProductScaledLeft(a.w, a.x, a.y, a.z, b.w, b.x, b.y, b.z, c.w, c.x, c.y, c.z, s,
                      p.w, p.x, p.y, p.z, r.w, r.x, r.y, r.z);
    assert r == Quat(p.w * s, p.x * s, p.y * s, p.z * s);
  }

  lemma ProductScaled(a0: real, a1: real, a2: real, a3: real, b0: real, b1: real, b2: real, b3: real,
                      c0: real, c1: real, c2: real, c3: real, s: real,
                      p0: real, p1: real, p2: real, p3: real, r0: real, r1: real, r2: real, r3: real)
    requires c0 == b0 * s && c1 == b1 * s && c2 == b2 * s && c3 == b3 * s
    requires IsProduct(a0, a1, a2, a3, b0, b1, b2, b3, p0, p1, p2, p3)
    requires IsProduct(a0, a1, a2, a3, c0, c1, c2, c3, r0, r1, r2, r3)
    ensures r0 == p0 * s && r1 == p1 * s && r2 == p2 * s && r3 == p3 * s
  {
  }

  lemma ProductScaledLeft(a0: real, a1: real, a2: real, a3: real, b0: real, b1: real, b2: real, b3: real,
                          c0: real, c1: real, c2: real, c3: real, s: real,
                          p0: real, p1: real, p2: real, p3: real, r0: real, r1: real, r2: real, r3: real)
    requires c0 == a0 * s && c1 == a1 * s && c2 == a2 * s && c3 == a3 * s
    requires IsProduct(a0, a1, a2, a3, b0, b1, b2, b3, p0, p1, p2, p3)
    requires IsProduct(c0, c1, c2, c3, b0, b1, b2, b3, r0, r1, r2, r3)
    ensures r0 == p0 * s && r1 == p1 * s && r2 == p2 * s && r3 == p3 * s
  {
  }

  // ---------------------------------------------------------------- conjugate and inverse

  /** `conjugate()`: the vector part negated. */
  function Conjugate(q: Quat): (r: Quat)
    ensures r.w == q.w && VectorPart(r) == Vectors.Negated(VectorPart(q))
  {
    Quat(q.w, -q.x, -q.y, -q.z)
  }

  /** Conjugating twice gives the quaternion back. */
  lemma ConjugateInvolutive(q: Quat)
    ensures Conjugate(Conjugate(q)) == q
  {
  }

  /** A quaternion times its conjugate, either way round, is its squared length. */
  lemma HamiltonConjugate(q: Quat)
    ensures Hamilton(q, Conjugate(q)) == Quat(LengthSquared(q), 0.0, 0.0, 0.0)
    ensures Hamilton(Conjugate(q), q) == Quat(LengthSquared(q), 0.0, 0.0, 0.0)
  {
  }

  /**
   * `inverse()` with `eps` for EPSILON: the zero quaternion when the squared length is at
   * most `eps`, else the conjugate times the reciprocal of the squared length.
   */
  function Inverse(q: Quat, eps: real): (r: Quat)
    requires 0.0 < eps
    ensures LengthSquared(q) <= eps ==> r == ZeroQuat()
  {
    var lenSquared := LengthSquared(q);
    if lenSquared <= eps then ZeroQuat() else Scale(Conjugate(q), 1.0 / lenSquared)
  }

  /** Outside the guard the inverse is a two-sided inverse for the Hamilton product. */
  lemma InverseCorrect(q: Quat, eps: real)
    requires 0.0 < eps && eps < LengthSquared(q)
    ensures Hamilton(q, Inverse(q, eps)) == Identity()
    ensures Hamilton(Inverse(q, eps), q) == Identity()
  {
    var ls := LengthSquared(q);
    var s := 1.0 / ls;
    HamiltonScaleRight(q, Conjugate(q), s);
    HamiltonScaleLeft(Conjugate(q), q, s);
    HamiltonConjugate(q);
    assert ls * s == 1.0;
  }

  // ---------------------------------------------------------------- normalize

  /**
   * The value `normalize()` leaves: unchanged when the length `len` is at most `eps`
   * (EPSILON), else every component times `1 / len`.
   */
  function Normalized(q: Quat, len: real, eps: real): (r: Quat)
    requires 0.0 < eps
    ensures len <= eps ==> r == q
  {
    if len <= eps then q else Scale(q, 1.0 / len)
  }

  /** Scaling multiplies the squared length by the square of the factor. */
  lemma LengthSquaredScale(q: Quat, s: real)
    ensures LengthSquared(Scale(q, s)) == s * s * LengthSquared(q)
  {
  }

  /** When `len` is the length and exceeds `eps`, normalising gives a unit quaternion. */
  lemma NormalizedIsUnit(q: Quat, len: real, eps: real)
    requires 0.0 < eps < len && IsSqrt(LengthSquared(q), len)
    ensures LengthSquared(Normalized(q, len, eps)) == 1.0
  {
    var s := 1.0 / len;
    LengthSquaredScale(q, s);
    assert s * len == 1.0;
    UnitSquare(s, len, LengthSquared(q));
  }

  lemma UnitSquare(s: real, len: real, ls: real)
    requires s * len == 1.0 && len * len == ls
    ensures s * s * ls == 1.0
  {
    calc {
      s * s * ls;
      == s * s * (len * len);
      == (s * len) * (s * len);
      == 1.0;
    }
  }

  // ---------------------------------------------------------------- rotation

  /** `rotate(v)`: `v + 2 (w (q x v) + q x (q x v))` with q the vector part. */
  function Rotate(q: Quat, v: Vectors.Vec): (r: Vectors.Vec)
    requires |v| == 3
    ensures |r| == 3
  {
    var qvec := VectorPart(q);
    var uv := Vectors.Cross(qvec, v);
    var uuv := Vectors.Cross(qvec, uv);
    Vectors.Plus(v, Vectors.Scale(Vectors.Plus(Vectors.Scale(uv, q.w), uuv), 2.0))
  }

  /** Rotating by the identity changes nothing. */
  lemma RotateIdentity(v: Vectors.Vec)
    requires |v| == 3
    ensures Rotate(Identity(), v) == v
  {
    assert Vectors.Cross(VectorPart(Identity()), v) == [0.0, 0.0, 0.0];
  }

  /** `q` and `-q` rotate every vector the same way. */
  lemma RotateNegated(q: Quat, v: Vectors.Vec)
    requires |v| == 3
    ensures Rotate(Neg(q), v) == Rotate(q, v)
  {
    var qvec := VectorPart(q);
    assert VectorPart(Neg(q)) == Vectors.Negated(qvec);
    var uv := Vectors.Cross(qvec, v);
    CrossNegatedLeft(qvec, v);
    CrossNegatedBoth(qvec, uv);
    ScaleNegated(uv, q.w);
  }

  lemma CrossNegatedLeft(l: Vectors.Vec, r: Vectors.Vec)
    requires |l| == 3 && |r| == 3
    ensures Vectors.Cross(Vectors.Negated(l), r) == Vectors.Negated(Vectors.Cross(l, r))
  {
    var n := Vectors.Negated(l);
    NegLeft(l[1], r[2], l[2], r[1], n[1], n[2]);
    NegLeft(l[2], r[0], l[0], r[2], n[2], n[0]);
    NegLeft(l[0], r[1], l[1], r[0], n[0], n[1]);
    var c := Vectors.Cross(l, r);
    assert Vectors.Cross(n, r)[0] == -c[0];
    assert Vectors.Cross(n, r)[1] == -c[1];
    assert Vectors.Cross(n, r)[2] == -c[2];
    assert |Vectors.Negated(c)| == 3;
  }

  lemma CrossNegatedBoth(l: Vectors.Vec, r: Vectors.Vec)
    requires |l| == 3 && |r| == 3
    ensures Vectors.Cross(Vectors.Negated(l), Vectors.Negated(r)) == Vectors.Cross(l, r)
  {
    var n, m := Vectors.Negated(l), Vectors.Negated(r);
    NegBoth(l[1], r[2], l[2], r[1], n[1], m[2], n[2], m[1]);
    NegBoth(l[2], r[0], l[0], r[2], n[2], m[0], n[0], m[2]);
    NegBoth(l[0], r[1], l[1], r[0], n[0], m[1], n[1], m[0]);
    var c := Vectors.Cross(l, r);
    assert Vectors.Cross(n, m)[0] == c[0];
    assert Vectors.Cross(n, m)[1] == c[1];
    assert Vectors.Cross(n, m)[2] == c[2];
  }

  lemma ScaleNegated(v: Vectors.Vec, s: real)
    ensures Vectors.Scale(Vectors.Negated(v), -s) == Vectors.Scale(v, s)
  {
    var n := Vectors.Negated(v);
    forall i | 0 <= i < |v| ensures Vectors.Scale(n, -s)[i] == Vectors.Scale(v, s)[i] {
      NegBoth(v[i], s, 0.0, 0.0, n[i], -s, 0.0, 0.0);
    }
  }

  lemma NegLeft(a: real, b: real, c: real, d: real, na: real, nc: real)
    requires na == -a && nc == -c
    ensures na * b - nc * d == -(a * b - c * d)
  {
  }

  lemma NegBoth(a: real, b: real, c: real, d: real, na: real, nb: real, nc: real, nd: real)
    requires na == -a && nb == -b && nc == -c && nd == -d
    ensures na * nb - nc * nd == a * b - c * d
  {
  }

  // ---------------------------------------------------------------- rotation matrices

  /** `to_matrix()`: nine entries of a fresh 4 x 4 identity overwritten. */
  function ToMatrix(q: Quat): (m: Grids.Grid)
    ensures Grids.IsGrid(m, 4, 4)
  {
    ToMatrixOf(q.w, q.x, q.y, q.z)
  }

  /** The body of `to_matrix()` over the four components (w, x, y, z). */
  function ToMatrixOf(w: real, x: real, y: real, z: real): (m: Grids.Grid)
    ensures Grids.IsGrid(m, 4, 4)
  {
    var w2, x2, y2, z2 := w * w, x * x, y * y, z * z;
    var wx, wy, wz := w * x, w * y, w * z;
    var xy, xz, yz := x * y, x * z, y * z;
    var id := Grids.Identity(4);
    id[0 := id[0][0 := w2 + x2 - y2 - z2][1 := 2.0 * (xy - wz)][2 := 2.0 * (xz + wy)]]
      [1 := id[1][0 := 2.0 * (xy + wz)][1 := w2 - x2 + y2 - z2][2 := 2.0 * (yz - wx)]]
      [2 := id[2][0 := 2.0 * (xz - wy)][1 := 2.0 * (yz + wx)][2 := w2 - x2 - y2 + z2]]
  }

  /** The free `rotate(q)`: the same nine entries inside the identity's last row and column. */
  function RotationMatrix(q: Quat): (m: Grids.Grid)
    ensures Grids.IsGrid(m, 4, 4)
  {
    RotationMatrixOf(q.w, q.x, q.y, q.z)
  }

  /** The body of the free `rotate(q)` over the four components (w, x, y, z). */
  function RotationMatrixOf(w: real, x: real, y: real, z: real): (m: Grids.Grid)
    ensures Grids.IsGrid(m, 4, 4)
  {
    var w2, x2, y2, z2 := w * w, x * x, y * y, z * z;
    var wx, wy, wz := w * x, w * y, w * z;
    var xy, xz, yz := x * y, x * z, y * z;
    [[w2 + x2 - y2 - z2, 2.0 * (xy - wz), 2.0 * (xz + wy), 0.0],
     [2.0 * (xy + wz), w2 - x2 + y2 - z2, 2.0 * (yz - wx), 0.0],
     [2.0 * (xz - wy), 2.0 * (yz + wx), w2 - x2 - y2 + z2, 0.0],
     [0.0, 0.0, 0.0, 1.0]]
  }

  /** `to_matrix()` and the free `rotate(q)` build the same matrix. */
  lemma RotationMatrixIsToMatrix(q: Quat)
    ensures RotationMatrix(q) == ToMatrix(q)
  {
    var m, t := RotationMatrix(q), ToMatrix(q);
    forall r | 0 <= r < 4 ensures m[r] == t[r] {
      assert |m[r]| == |t[r]| == 4;
    }
  }

  /** The last row and the last column of `to_matrix()` are the identity's. */
  lemma ToMatrixBorder(q: Quat)
    ensures ToMatrix(q)[3] == [0.0, 0.0, 0.0, 1.0]
    ensures forall r :: 0 <= r < 3 ==> ToMatrix(q)[r][3] == 0.0
  {
  }

  /** The identity quaternion gives the identity matrix. */
  lemma ToMatrixIdentity()
    ensures ToMatrix(Identity()) == Grids.Identity(4)
  {
    var m, id := ToMatrix(Identity()), Grids.Identity(4);
    forall r | 0 <= r < 4 ensures m[r] == id[r] {
      assert |m[r]| == |id[r]| == 4;
    }
  }

  // ---------------------------------------------------------------- slerp

  /** Above this cosine `slerp` falls back to a normalised linear blend. */
  const SlerpLinearThreshold: real := 0.9995

  /**
   * The branch `slerp` takes: the linear blend before its normalisation, or the spherical
   * case with the sign-adjusted end point and the (non-negative) cosine of the angle
   * between the end points, which `acos` and `sin` then turn into weights.
   */
  datatype SlerpPlan = Linear(blend: Quat) | Spherical(q2Adjusted: Quat, cosTheta: real)

  /** The end point `slerp` interpolates towards: `q2`, negated when the cosine is negative. */
  function Hemisphere(q1: Quat, q2: Quat): (r: Quat)
    ensures r == q2 || r == Neg(q2)
    ensures Dot(q1, r) == Abs(Dot(q1, q2))
  {
    if Dot(q1, q2) < 0.0 then Neg(q2) else q2
  }

  function Slerp(q1: Quat, q2: Quat, t: real): (p: SlerpPlan)
    ensures p.Linear? <==> Abs(Dot(q1, q2)) > SlerpLinearThreshold
    ensures p.Spherical? ==> p.q2Adjusted == Hemisphere(q1, q2) && p.cosTheta == Dot(q1, p.q2Adjusted)
    ensures p.Spherical? ==> 0.0 <= p.cosTheta <= SlerpLinearThreshold
  {
    var q2Adjusted := Hemisphere(q1, q2);
    var cosTheta := Dot(q1, q2Adjusted);
    if cosTheta > SlerpLinearThreshold then Linear(Add(q1, Scale(Sub(q2Adjusted, q1), t)))
    else Spherical(q2Adjusted, cosTheta)
  }

  /** The linear blend starts at `q1` and ends at the adjusted `q2`. */
  lemma SlerpLinearEnds(q1: Quat, q2: Quat)
    requires Abs(Dot(q1, q2)) > SlerpLinearThreshold
    ensures Slerp(q1, q2, 0.0) == Linear(q1)
    ensures Slerp(q1, q2, 1.0) == Linear(Hemisphere(q1, q2))
  {
  }

  // ---------------------------------------------------------------- the in-place quaternion

  /** A quaternion object whose components live in `components` (`m_components`). */
  class Quaternion {
    const components: array<real>

    ghost predicate Valid()
      reads this
    {
      components.Length == 4
    }

    function Value(): Quat
      requires Valid()
      reads this, components
    {
      Quat(components[0], components[1], components[2], components[3])
    }

    /** The default constructor: the identity (1, 0, 0, 0). */
    constructor Default()
      ensures Valid() && fresh(components) && Value() == Identity()
    {
      components := new real[4][1.0, 0.0, 0.0, 0.0];
    }

    /** The constructor from the four components. */
    constructor FromComponents(w: real, x: real, y: real, z: real)
      ensures Valid() && fresh(components) && Value() == Quat(w, x, y, z)
    {
      components := new real[4][w, x, y, z];
    }

    /** The constructor from a scalar part and a vector part. */
    constructor FromParts(w: real, v: Vectors.Vec)
      requires |v| == 3
      ensures Valid() && fresh(components) && Value() == FromScalarVector(w, v)
    {
      components := new real[4][w, v[0], v[1], v[2]];
    }

    /** The copy `Quaternion result{*this}` the binary operators start from. */
    constructor Copy(other: Quaternion)
      requires other.Valid()
      ensures Valid() && fresh(components) && Value() == other.Value()
    {
      components := new real[4][other.components[0], other.components[1], other.components[2], other.components[3]];
    }

    /** The read `operator[](index)`. */
    function Get(index: nat): (r: real)
      requires Valid() && index < 4
      reads this, components
      ensures r == Component(Value(), index)
    {
      components[index]
    }

    /** A write through the reference `operator[](index)` returns: one component replaced. */
    method Set(index: nat, value: real)
      requires Valid() && index < 4
      modifies components
      ensures Component(Value(), index) == value
      ensures forall i :: 0 <= i < 4 && i != index ==> Component(Value(), i) == Component(old(Value()), i)
    {
      components[index] := value;
    }

    /** `operator+=`: component by component. */
    method AddAssign(other: Quaternion)
      requires Valid() && other.Valid()
      modifies components
      ensures Value() == Add(old(Value()), old(other.Value()))
    {
      components[0] := components[0] + other.components[0];
      components[1] := components[1] + other.components[1];
      components[2] := components[2] + other.components[2];
      components[3] := components[3] + other.components[3];
    }

    /** `operator-=`: component by component. */
    method SubAssign(other: Quaternion)
      requires Valid() && other.Valid()
      modifies components
      ensures Value() == Sub(old(Value()), old(other.Value()))
    {
      components[0] := components[0] - other.components[0];
      components[1] := components[1] - other.components[1];
      components[2] := components[2] - other.components[2];
      components[3] := components[3] - other.components[3];
    }

    /** `operator*=(T)`: every component times the scalar. */
    method ScaleAssign(s: real)
      requires Valid()
      modifies components
      ensures Value() == Scale(old(Value()), s)
    {
      components[0] := components[0] * s;
      components[1] := components[1] * s;
      components[2] := components[2] * s;
      components[3] := components[3] * s;
    }

    /**
     * `operator*=(Quaternion)`: all four products are formed from the old components before
     * any is stored, so `q *= q` squares `q`.
     */
    method HamiltonAssign(other: Quaternion)
      requires Valid() && other.Valid()
      modifies components
      ensures Value() == Hamilton(old(Value()), old(other.Value()))
    {
      var a0, a1, a2, a3 := components[0], components[1], components[2], components[3];
      var b0, b1, b2, b3 := other.components[0], other.components[1], other.components[2], other.components[3];
      HamiltonOf(a0, a1, a2, a3, b0, b1, b2, b3);
      var w := a0 * b0 - a1 * b1 - a2 * b2 - a3 * b3;
      var x := a0 * b1 + a1 * b0 + a2 * b3 - a3 * b2;
      var y := a0 * b2 - a1 * b3 + a2 * b0 + a3 * b1;
      var z := a0 * b3 + a1 * b2 - a2 * b1 + a3 * b0;
      components[0], components[1], components[2], components[3] := w, x, y, z;
    }

    /** `operator+`: a copy, then `+=`. */
    method Plus(other: Quaternion) returns (r: Quaternion)
      requires Valid() && other.Valid()
      ensures fresh(r) && fresh(r.components) && r.Valid() && r.Value() == Add(Value(), other.Value())
    {
      r := new Quaternion.Copy(this);
      r.AddAssign(other);
    }

    /** `operator-(Quaternion)`: a copy, then `-=`. */
    method Minus(other: Quaternion) returns (r: Quaternion)
      requires Valid() && other.Valid()
      ensures fresh(r) && fresh(r.components) && r.Valid() && r.Value() == Sub(Value(), other.Value())
    {
      r := new Quaternion.Copy(this);
      r.SubAssign(other);
    }

    /** `operator*(T)`: a copy, then `*=`. */
    method Times(s: real) returns (r: Quaternion)
      requires Valid()
      ensures fresh(r) && fresh(r.components) && r.Valid() && r.Value() == Scale(Value(), s)
    {
      r := new Quaternion.Copy(this);
      r.ScaleAssign(s);
    }

    /** `operator*(Quaternion)`: a copy, then the Hamilton `*=`. */
    method Product(other: Quaternion) returns (r: Quaternion)
      requires Valid() && other.Valid()
      ensures fresh(r) && fresh(r.components) && r.Valid() && r.Value() == Hamilton(Value(), other.Value())
    {
      r := new Quaternion.Copy(this);
      r.HamiltonAssign(other);
    }

    /**
     * `normalize()` with `eps` for EPSILON: nothing when the length is at most `eps`, else
     * every component times the reciprocal of the length. `len` stands for `length()`.
     */
    method Normalize(len: real, eps: real)
      requires Valid() && 0.0 < eps && IsSqrt(LengthSquared(Value()), len)
      modifies components
      ensures Value() == Normalized(old(Value()), len, eps)
      ensures eps < len ==> LengthSquared(Value()) == 1.0
    {
      ghost var q := Value();
      if len <= eps {
        return;
      }
      var invLen := 1.0 / len;
      ScaleAssign(invLen);
      NormalizedIsUnit(q, len, eps);
    }

    /** `normalized()`: a copy, then `normalize()`. */
    method NormalizedCopy(len: real, eps: real) returns (r: Quaternion)
      requires Valid() && 0.0 < eps && IsSqrt(LengthSquared(Value()), len)
      ensures fresh(r) && fresh(r.components) && r.Valid() && r.Value() == Normalized(Value(), len, eps)
    {
      r := new Quaternion.Copy(this);
      r.Normalize(len, eps);
    }
  }
}
