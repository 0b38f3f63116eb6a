// The generic fixed-size vector of include/pbrt/math/vector.hpp. The value of a
// vector is a `seq<real>` of its N components; the in-place operators, which the
// source writes as loops over `m_data`, are methods of the class `Vector`.
module Vectors {
  import opened Scalar

  type Vec = seq<real>

  /** The four component-wise operations the compound operators apply. */
  datatype Op = Add | Sub | Mul | Div

  /**
   * Division as the source performs it through `safe_divide`, a helper that is not
   * part of this model: its documented policy is to yield 0 for a zero divisor.
   * Every property stated about division assumes a non-zero divisor.
   */
  function SafeDivide(x: real, y: real): (r: real)
    ensures y != 0.0 ==> r * y == x
  {
    if y == 0.0 then 0.0 else x / y
  }

  function Apply(op: Op, x: real, y: real): real
  {
    match op
    case Add => x + y
    case Sub => x - y
    case Mul => x * y
    case Div => SafeDivide(x, y)
  }

  /** `op` applied to matching components of two vectors. */
  function ZipWith(op: Op, a: Vec, b: Vec): Vec
    requires |a| == |b|
  {
    seq(|a|, i requires 0 <= i < |a| => Apply(op, a[i], b[i]))
  }

  /** `op` applied to every component and one scalar. */
  function WithScalar(op: Op, a: Vec, s: real): Vec
  {
    seq(|a|, i requires 0 <= i < |a| => Apply(op, a[i], s))
  }

  function Minus(a: Vec, b: Vec): Vec requires |a| == |b| { ZipWith(Sub, a, b) }
  function Plus(a: Vec, b: Vec): Vec requires |a| == |b| { ZipWith(Add, a, b) }
  function Scale(a: Vec, s: real): Vec { WithScalar(Mul, a, s) }
  function Negated(a: Vec): Vec { seq(|a|, i requires 0 <= i < |a| => -a[i]) }
  function Zeros(n: nat): Vec { seq(n, _ => 0.0) }

  // ---------------------------------------------------------------- factories

  /** `unit_x`, `unit_y`, `unit_z`, `unit_w`: the zero vector with a 1 at `axis`. */
  function UnitAxis(n: nat, axis: nat): (r: Vec)
    requires axis < n
    ensures |r| == n && r[axis] == 1.0
  {
    Zeros(n)[axis := 1.0]
  }

  /** A unit axis picks out one component under the dot product. */
  lemma UnitAxisSelects(n: nat, axis: nat, v: Vec)
    requires axis < n && |v| == n
    ensures InnerProduct(UnitAxis(n, axis), v) == v[axis]
  {
    UnitAxisIsSparse(n, axis);
    SparseSelects(UnitAxis(n, axis), v, axis);
  }

  /** A vector that is 1 at `axis` and 0 elsewhere picks out component `axis`. */
  lemma SparseSelects(e: Vec, v: Vec, axis: nat)
    requires |e| == |v| && axis < |e| && e[axis] == 1.0
    requires forall j :: 0 <= j < |e| && j != axis ==> e[j] == 0.0
    ensures InnerProduct(e, v) == v[axis]
  {
    InnerProductOfSparse(e, v, axis, |e|);
    assert e[..|e|] == e;
    assert v[..|v|] == v;
  }


  /** A unit axis has length 1. */
  lemma UnitAxisIsUnit(n: nat, axis: nat)
    requires axis < n
    ensures InnerProduct(UnitAxis(n, axis), UnitAxis(n, axis)) == 1.0
  {
    UnitAxisSelects(n, axis, UnitAxis(n, axis));
  }

  lemma UnitAxisIsSparse(n: nat, axis: nat)
    requires axis < n
    ensures forall j :: 0 <= j < n && j != axis ==> UnitAxis(n, axis)[j] == 0.0
  {
  }

  /** A vector with at most one non-zero component, `axis`, dotted with `v` over a prefix. */
  lemma {:induction false} InnerProductOfSparse(e: Vec, v: Vec, axis: nat, k: nat)
    requires |e| == |v| && axis < |e| && k <= |e|
    requires forall j :: 0 <= j < |e| && j != axis ==> e[j] == 0.0
    ensures InnerProduct(e[..k], v[..k]) == if axis < k then e[axis] * v[axis] else 0.0
  {
    if k > 0 {
      assert e[..k][..k - 1] == e[..k - 1];
      assert v[..k][..k - 1] == v[..k - 1];
      InnerProductOfSparse(e, v, axis, k - 1);
    }
  }

  // ---------------------------------------------------------------- dot and lengths

  /** `std::inner_product(begin, end, other, 0)`: a left fold, first component first. */
  function InnerProduct(a: Vec, b: Vec): real
    requires |a| == |b|
    decreases |a|
  {
    if |a| == 0 then 0.0 else InnerProduct(a[..|a| - 1], b[..|b| - 1]) + a[|a| - 1] * b[|b| - 1]
  }

  /**
   * `dot`. The source writes the sum out for one to four components and calls
   * `std::inner_product` beyond; `InnerProductUnrolled` shows the written-out sums are the fold.
   */
  function Dot(a: Vec, b: Vec): real
    requires |a| == |b|
  {
    InnerProduct(a, b)
  }

  /** The written-out sums of `dot` for one to four components agree with the fold. */
  lemma InnerProductUnrolled(a: Vec, b: Vec)
    requires |a| == |b|
    ensures |a| == 1 ==> InnerProduct(a, b) == a[0] * b[0]
    ensures |a| == 2 ==> InnerProduct(a, b) == a[0] * b[0] + a[1] * b[1]
    ensures |a| == 3 ==> InnerProduct(a, b) == a[0] * b[0] + a[1] * b[1] + a[2] * b[2]
    ensures |a| == 4 ==> InnerProduct(a, b) == a[0] * b[0] + a[1] * b[1] + a[2] * b[2] + a[3] * b[3]
  {
    if |a| == 1 {
      InnerProductOfLength1(a, b);
    } else if |a| == 2 {
      InnerProductOfLength2(a, b);
    } else if |a| == 3 {
      InnerProductOfLength3(a, b);
    } else if |a| == 4 {
      InnerProductOfLength4(a, b);
    }
  }

  lemma InnerProductOfLength1(a: Vec, b: Vec)
    requires |a| == |b| == 1
    ensures InnerProduct(a, b) == a[0] * b[0]
  {
    assert a[..1] == a && b[..1] == b;
    assert a[..0] == [] && b[..0] == [];
    InnerProductPrefix(a, b, 1);
  }

  lemma InnerProductOfLength2(a: Vec, b: Vec)
    requires |a| == |b| == 2
    ensures InnerProduct(a, b) == a[0] * b[0] + a[1] * b[1]
  {
    assert a[..2] == a && b[..2] == b;
    assert a[..0] == [] && b[..0] == [];
    InnerProductPrefix(a, b, 1);
    InnerProductPrefix(a, b, 2);
  }

  lemma InnerProductOfLength3(a: Vec, b: Vec)
    requires |a| == |b| == 3
    ensures InnerProduct(a, b) == a[0] * b[0] + a[1] * b[1] + a[2] * b[2]
  {
    assert a[..3] == a && b[..3] == b;
    assert a[..0] == [] && b[..0] == [];
    InnerProductPrefix(a, b, 1);
    InnerProductPrefix(a, b, 2);
    InnerProductPrefix(a, b, 3);
  }

  lemma InnerProductOfLength4(a: Vec, b: Vec)
    requires |a| == |b| == 4
    ensures InnerProduct(a, b) == a[0] * b[0] + a[1] * b[1] + a[2] * b[2] + a[3] * b[3]
  {
    assert a[..4] == a && b[..4] == b;
    assert a[..0] == [] && b[..0] == [];
    InnerProductPrefix(a, b, 1);
    InnerProductPrefix(a, b, 2);
    InnerProductPrefix(a, b, 3);
    InnerProductPrefix(a, b, 4);
  }

  /** The fold over the first `k` components adds the `k`-th product to the fold over `k - 1`. */
  lemma InnerProductPrefix(a: Vec, b: Vec, k: nat)
    requires |a| == |b| && 0 < k <= |a|
    ensures InnerProduct(a[..k], b[..k]) == InnerProduct(a[..k - 1], b[..k - 1]) + a[k - 1] * b[k - 1]
  {
    assert a[..k][..k - 1] == a[..k - 1];
    assert b[..k][..k - 1] == b[..k - 1];
  }

  /** The dot product is symmetric. */
  lemma {:induction false} DotSymmetric(a: Vec, b: Vec)
    requires |a| == |b|
    ensures InnerProduct(a, b) == InnerProduct(b, a)
  {
    if |a| > 0 {
      DotSymmetric(a[..|a| - 1], b[..|b| - 1]);
    }
  }

  /** The dot product is additive in its first argument, across a difference. */
  lemma {:induction false} DotMinus(a: Vec, b: Vec, c: Vec)
    requires |a| == |b| == |c|
    ensures InnerProduct(Minus(a, b), c) == InnerProduct(a, c) - InnerProduct(b, c)
  {
    if |a| > 0 {
      var n := |a|;
      assert Minus(a, b)[..n - 1] == Minus(a[..n - 1], b[..n - 1]);
      DotMinus(a[..n - 1], b[..n - 1], c[..n - 1]);
    }
  }

  /** The dot product is homogeneous in its first argument. */
  lemma {:induction false} DotScale(a: Vec, s: real, c: Vec)
    requires |a| == |c|
    ensures InnerProduct(Scale(a, s), c) == s * InnerProduct(a, c)
  {
    if |a| > 0 {
      var n := |a|;
      assert Scale(a, s)[..n - 1] == Scale(a[..n - 1], s);
      DotScale(a[..n - 1], s, c[..n - 1]);
    }
  }

  /** `length_squared`: the vector dotted with itself. */
  function LengthSquared(a: Vec): (r: real)
    ensures r == InnerProduct(a, a)
  {
    Dot(a, a)
  }

  /** `distance_squared`: the squared length of the difference. */
  function DistanceSquared(a: Vec, b: Vec): (r: real)
    requires |a| == |b|
    ensures r == InnerProduct(Minus(a, b), Minus(a, b))
  {
    LengthSquared(Minus(a, b))
  }

  /** The squared distance is symmetric. */
  lemma DistanceSquaredSymmetric(a: Vec, b: Vec)
    requires |a| == |b|
    ensures DistanceSquared(a, b) == DistanceSquared(b, a)
  {
    var d, e := Minus(a, b), Minus(b, a);
    assert e == Scale(d, -1.0);
    DotScale(d, -1.0, e);
    DotSymmetric(d, e);
    DotScale(d, -1.0, d);
  }

  // ---------------------------------------------------------------- cross product

  /** `cross` of two 3-vectors. */
  function Cross(l: Vec, r: Vec): (c: Vec)
    requires |l| == 3 && |r| == 3
    ensures |c| == 3
  {
    [l[1] * r[2] - l[2] * r[1], l[2] * r[0] - l[0] * r[2], l[0] * r[1] - l[1] * r[0]]
  }

  /** Swapping the operands negates the cross product. */
  lemma CrossAnticommutative(a: Vec, b: Vec)
    requires |a| == 3 && |b| == 3
    ensures Cross(a, b) == Negated(Cross(b, a))
  {
  }

  /** The cross product is orthogonal to both operands. */
  lemma CrossOrthogonal(a: Vec, b: Vec)
    requires |a| == 3 && |b| == 3
    ensures Dot(Cross(a, b), a) == 0.0 && Dot(Cross(a, b), b) == 0.0
  {
    var c := Cross(a, b);
    InnerProductOfLength3(c, a);
    InnerProductOfLength3(c, b);
    CrossCellsOrthogonal(a[0], a[1], a[2], b[0], b[1], b[2], c[0], c[1], c[2]);
  }

  lemma CrossCellsOrthogonal(a0: real, a1: real, a2: real, b0: real, b1: real, b2: real, x0: real, x1: real, x2: real)
    requires x0 == a1 * b2 - a2 * b1 && x1 == a2 * b0 - a0 * b2 && x2 == a0 * b1 - a1 * b0
    ensures x0 * a0 + x1 * a1 + x2 * a2 == 0.0
    ensures x0 * b0 + x1 * b1 + x2 * b2 == 0.0
  {
  }

  /** The right-handed basis: x cross y is z, y cross z is x, z cross x is y. */
  lemma CrossBasis()
    ensures Cross(UnitAxis(3, 0), UnitAxis(3, 1)) == UnitAxis(3, 2)
    ensures Cross(UnitAxis(3, 1), UnitAxis(3, 2)) == UnitAxis(3, 0)
    ensures Cross(UnitAxis(3, 2), UnitAxis(3, 0)) == UnitAxis(3, 1)
  {
    assert UnitAxis(3, 0) == [1.0, 0.0, 0.0];
    assert UnitAxis(3, 1) == [0.0, 1.0, 0.0];
    assert UnitAxis(3, 2) == [0.0, 0.0, 1.0];
  }

  // ---------------------------------------------------------------- reflect, refract, lerp

  /** `reflect(v, n)`: `v - n * (2 * dot(v, n))`. */
  function Reflect(v: Vec, n: Vec): (r: Vec)
    requires |v| == |n|
    ensures |r| == |v|
    ensures forall i :: 0 <= i < |r| ==> r[i] == v[i] - n[i] * (2.0 * Dot(v, n))
  {
    Minus(v, Scale(n, 2.0 * Dot(v, n)))
  }

  /** About a unit normal, reflection flips the normal component. */
  lemma ReflectFlipsNormalComponent(v: Vec, n: Vec)
    requires |v| == |n| && InnerProduct(n, n) == 1.0
    ensures InnerProduct(Reflect(v, n), n) == -InnerProduct(v, n)
  {
    DotMinus(v, Scale(n, 2.0 * Dot(v, n)), n);
    DotScale(n, 2.0 * Dot(v, n), n);
  }

  /** About a unit normal, reflecting twice gives back the vector exactly. */
  lemma ReflectTwice(v: Vec, n: Vec)
    requires |v| == |n| && InnerProduct(n, n) == 1.0
    ensures Reflect(Reflect(v, n), n) == v
  {
    ReflectFlipsNormalComponent(v, n);
    ReflectTwiceWhenFlipped(v, n);
  }

  /** Reflecting twice is the identity once the first reflection has negated `dot(v, n)`. */
  lemma ReflectTwiceWhenFlipped(v: Vec, n: Vec)
    requires |v| == |n| && Dot(Reflect(v, n), n) == -Dot(v, n)
    ensures Reflect(Reflect(v, n), n) == v
  {
    var r := Reflect(v, n);
    ReflectTwiceCells(v, n, r, Reflect(r, n), Dot(v, n), Dot(r, n));
  }


  /** Subtracting `2 d n` and then `2 e n` with `e == -d` is the identity, component by component. */
  lemma ReflectTwiceCells(v: Vec, n: Vec, r: Vec, w: Vec, d: real, e: real)
    requires |v| == |n| == |r| == |w| && e == -d
    requires forall i :: 0 <= i < |r| ==> r[i] == v[i] - n[i] * (2.0 * d)
    requires forall i :: 0 <= i < |w| ==> w[i] == r[i] - n[i] * (2.0 * e)
    ensures w == v
  {
    forall i | 0 <= i < |v| ensures w[i] == v[i] {
      ReflectCellTwice(v[i], n[i], d, e);
    }
  }


  /** One component of a double reflection, when the second dot product is minus the first. */
  lemma ReflectCellTwice(x: real, y: real, d: real, e: real)
    requires e == -d
    ensures (x - y * (2.0 * d)) - y * (2.0 * e) == x
  {
  }

  /** Reflecting (-1, -1) about the normal (0, 1) gives (-1, 1). */
  lemma ReflectExample()
    ensures Reflect([-1.0, -1.0], [0.0, 1.0]) == [-1.0, 1.0]
  {
    InnerProductOfLength2([-1.0, -1.0], [0.0, 1.0]);
  }

  /** The squared sine of the transmitted angle that `refract` tests against 1. */
  function RefractSin2(v: Vec, n: Vec, eta: real): real
    requires |v| == |n|
  {
    Sin2FromCos(eta, Dot(v, n))
  }

  /** `eta^2 (1 - cos^2)`, Snell's law for the squared sine of the transmitted angle. */
  function Sin2FromCos(eta: real, cosI: real): real
  {
    eta * eta * (1.0 - cosI * cosI)
  }

  /**
   * `refract(v, n, eta)`. `root` stands for `std::sqrt(1 - sin2ThetaT)`, which the model
   * does not compute; it is only used when there is no total internal reflection.
   */
  function Refract(v: Vec, n: Vec, eta: real, root: real): (r: Vec)
    requires |v| == |n|
    ensures |r| == |v|
    ensures RefractSin2(v, n, eta) > 1.0 ==> r == Zeros(|v|)
  {
    var cosI := Dot(v, n);
    if RefractSin2(v, n, eta) > 1.0 then Zeros(|v|)
    else Minus(Scale(v, eta), Scale(n, eta * cosI + root))
  }

  /**
   * Without total internal reflection, a unit incident vector and a unit normal give a
   * unit refracted vector when `root` is the square root `refract` takes.
   */
  lemma RefractUnitLength(v: Vec, n: Vec, eta: real, root: real)
    requires |v| == |n|
    requires InnerProduct(v, v) == 1.0 && InnerProduct(n, n) == 1.0
    requires RefractSin2(v, n, eta) <= 1.0
    requires IsSqrt(1.0 - RefractSin2(v, n, eta), root)
    ensures InnerProduct(Refract(v, n, eta, root), Refract(v, n, eta, root)) == 1.0
  {
    RefractTransmits(v, n, eta, root);
    TransmittedUnitLength(v, n, eta, root, eta * Dot(v, n) + root);
  }

  /** Without total internal reflection, `refract` returns `eta v - (eta cos + root) n`. */
  lemma RefractTransmits(v: Vec, n: Vec, eta: real, root: real)
    requires |v| == |n| && RefractSin2(v, n, eta) <= 1.0
    ensures Refract(v, n, eta, root) == Minus(Scale(v, eta), Scale(n, eta * Dot(v, n) + root))
  {
  }

  /** `eta v - k n` is a unit vector when `k` is the coefficient `refract` uses. */
  lemma TransmittedUnitLength(v: Vec, n: Vec, eta: real, root: real, k: real)
    requires |v| == |n|
    requires InnerProduct(v, v) == 1.0 && InnerProduct(n, n) == 1.0
    requires IsSqrt(1.0 - Sin2FromCos(eta, Dot(v, n)), root) && k == eta * Dot(v, n) + root
    ensures InnerProduct(Minus(Scale(v, eta), Scale(n, k)), Minus(Scale(v, eta), Scale(n, k))) == 1.0
  {
    ExpandDifferenceSquared(v, n, eta, k);
    RefractClose(eta, Dot(v, n), root, k);
  }

  /** `eta^2 vv - 2 eta k vn + k^2 nn`, the squared length of `eta v - k n` by bilinearity. */
  function Expansion(eta: real, k: real, vv: real, vn: real, nn: real): real
  {
    eta * (eta * vv) - 2.0 * (eta * (k * vn)) + k * (k * nn)
  }

  /** |eta v - k n|^2 expanded, by induction over the components. */
  lemma {:induction false} ExpandDifferenceSquared(v: Vec, n: Vec, eta: real, k: real)
    requires |v| == |n|
    ensures var r := Minus(Scale(v, eta), Scale(n, k));
      InnerProduct(r, r) == Expansion(eta, k, InnerProduct(v, v), InnerProduct(v, n), InnerProduct(n, n))
    decreases |v|
  {
    var r := Minus(Scale(v, eta), Scale(n, k));
    if |v| > 0 {
      var l := |v| - 1;
      var v', n' := v[..l], n[..l];
      var r' := Minus(Scale(v', eta), Scale(n', k));
      assert r[..l] == r';
      ExpandDifferenceSquared(v', n', eta, k);
      ExpansionStep(InnerProduct(r', r'), InnerProduct(v', v'), InnerProduct(v', n'), InnerProduct(n', n'), v[l], n[l], eta, k);
    }
  }

  lemma ExpansionStep(rr: real, vv: real, vn: real, nn: real, x: real, y: real, eta: real, k: real)
    requires rr == Expansion(eta, k, vv, vn, nn)
    ensures rr + (eta * x - k * y) * (eta * x - k * y) == Expansion(eta, k, vv + x * x, vn + x * y, nn + y * y)
  {
  }

  lemma RefractClose(eta: real, c: real, root: real, k: real)
    requires IsSqrt(1.0 - Sin2FromCos(eta, c), root) && k == eta * c + root
    ensures Expansion(eta, k, 1.0, c, 1.0) == 1.0
  {
    SquareOfSum(eta * c, root);
    assert eta * (k * c) == eta * eta * (c * c) + eta * c * root;
    assert Sin2FromCos(eta, c) == eta * eta - eta * eta * (c * c);
  }


  lemma SquareOfSum(x: real, y: real)
    ensures (x + y) * ((x + y) * 1.0) == x * x + 2.0 * (x * y) + y * y
  {
  }


  /** Vector `lerp(a, b, t)`: `a * (1 - t) + b * t`. */
  function Lerp(a: Vec, b: Vec, t: real): (r: Vec)
    requires |a| == |b|
    ensures |r| == |a|
    ensures t == 0.0 ==> r == a
    ensures t == 1.0 ==> r == b
    ensures forall i :: 0 <= i < |r| ==> r[i] == Scalar.Lerp(a[i], b[i], t)
  {
    Plus(Scale(a, 1.0 - t), Scale(b, t))
  }

  // ---------------------------------------------------------------- normalising

  /**
   * `safe_normalized(fallback)` with `eps` for PRECISION_EPSILON: the fallback when the
   * squared length is below `eps`, otherwise the vector divided by `root`, which stands
   * for the square root of the squared length.
   */
  function SafeNormalized(v: Vec, fallback: Vec, eps: real, root: real): (r: Vec)
    ensures LengthSquared(v) < eps ==> r == fallback
    ensures LengthSquared(v) >= eps ==> r == WithScalar(Div, v, root)
  {
    if LengthSquared(v) < eps then fallback else WithScalar(Div, v, root)
  }

  /** Division by a non-zero scalar is multiplication by its inverse. */
  lemma DivIsScale(v: Vec, s: real)
    requires s != 0.0
    ensures WithScalar(Div, v, s) == Scale(v, 1.0 / s)
  {
    forall i | 0 <= i < |v| ensures WithScalar(Div, v, s)[i] == Scale(v, 1.0 / s)[i] {
      assert v[i] / s == v[i] * (1.0 / s);
    }
  }

  /** Outside the fallback branch, `safe_normalized` gives a unit vector. */
  lemma SafeNormalizedIsUnit(v: Vec, fallback: Vec, eps: real, root: real)
    requires eps > 0.0
    requires LengthSquared(v) >= eps
    requires IsSqrt(LengthSquared(v), root)
    ensures InnerProduct(SafeNormalized(v, fallback, eps, root), SafeNormalized(v, fallback, eps, root)) == 1.0
  {
    assert root != 0.0;
    NormalizedIsUnit(v, root);
  }

  /** Dividing by the square root of a non-zero squared length gives a unit vector. */
  lemma NormalizedIsUnit(v: Vec, root: real)
    requires root != 0.0 && IsSqrt(LengthSquared(v), root)
    ensures InnerProduct(WithScalar(Div, v, root), WithScalar(Div, v, root)) == 1.0
  {
    var L := LengthSquared(v);
    DivIsScale(v, root);
    var u := Scale(v, 1.0 / root);
    DotScale(v, 1.0 / root, u);
    DotSymmetric(v, u);
    DotScale(v, 1.0 / root, v);
    assert InnerProduct(u, u) == (1.0 / root) * ((1.0 / root) * L);
    InverseSquare(root, L);
  }

  lemma InverseSquare(root: real, L: real)
    requires root != 0.0 && root * root == L
    ensures (1.0 / root) * ((1.0 / root) * L) == 1.0
  {
  }

  /** `project_onto(other)`: `other * (dot(other) / |other|^2)`, for a non-zero `other`. */
  function ProjectOnto(v: Vec, other: Vec): (r: Vec)
    requires |v| == |other| && LengthSquared(other) > 0.0
    ensures |r| == |v|
  {
    Scale(other, Dot(v, other) / LengthSquared(other))
  }

  /** What is left after projecting onto `other` is orthogonal to `other`. */
  lemma ProjectionResidualOrthogonal(v: Vec, other: Vec)
    requires |v| == |other| && LengthSquared(other) > 0.0
    ensures InnerProduct(Minus(v, ProjectOnto(v, other)), other) == 0.0
  {
    var s := Dot(v, other) / LengthSquared(other);
    DotMinus(v, ProjectOnto(v, other), other);
    DotScale(other, s, other);
    QuotientResidual(Dot(v, other), InnerProduct(v, other), LengthSquared(other), InnerProduct(other, other), s);
  }

  /** `d - (d / l) l` vanishes; `d2` and `l2` are the same values under other names. */
  lemma QuotientResidual(d: real, d2: real, l: real, l2: real, s: real)
    requires d == d2 && l == l2 && l > 0.0 && s == d / l
    ensures d2 - s * l2 == 0.0
  {
  }

  // ---------------------------------------------------------------- swizzles

  /** `xy(v)`: the first two components of a 3-vector. */
  function Xy(v: Vec): (r: Vec)
    requires |v| == 3
    ensures r == v[..2]
  {
    [v[0], v[1]]
  }

  /** `xz(v)`: the 3-vector without its middle component. */
  function Xz(v: Vec): (r: Vec)
    requires |v| == 3
    ensures r == v[..1] + v[2..]
  {
    [v[0], v[2]]
  }

  /** `yz(v)`: the last two components of a 3-vector. */
  function Yz(v: Vec): (r: Vec)
    requires |v| == 3
    ensures r == v[1..]
  {
    [v[1], v[2]]
  }

  /** `xyz(v)`: the first three components of a 4-vector. */
  function Xyz(v: Vec): (r: Vec)
    requires |v| == 4
    ensures r == v[..3] && r + [v[3]] == v
  {
    [v[0], v[1], v[2]]
  }

  // ---------------------------------------------------------------- the in-place vector

  /** A vector object whose components live in `data` (`m_data`). */
  class Vector {
    const data: array<real>

    function Contents(): Vec
      reads this, data
    {
      data[..]
    }

    /** The default constructor: every component zero. */
    constructor Zero(n: nat)
      ensures fresh(data) && Contents() == Zeros(n)
    {
      data := new real[n](_ => 0.0);
    }

    /** The fill constructor: every component set to `value`. */
    constructor Fill(n: nat, value: real)
      ensures fresh(data) && |Contents()| == n
      ensures forall i :: 0 <= i < n ==> Contents()[i] == value
    {
      data := new real[n](_ => value);
    }

    /** The component-list constructor. */
    constructor FromComponents(components: Vec)
      ensures fresh(data) && Contents() == components
    {
      data := new real[|components|](i requires 0 <= i < |components| => components[i]);
    }

    /** The copy constructor, `Vector result{*this}` in the binary operators. */
    constructor Copy(other: Vector)
      ensures fresh(data) && Contents() == other.Contents()
    {
      var a := new real[other.data.Length];
      var i := 0;
      while i < a.Length
        invariant 0 <= i <= a.Length
        invariant forall j :: 0 <= j < i ==> a[j] == other.data[j]
      {
        a[i] := other.data[i];
        i := i + 1;
      }
      data := a;
    }

    /** The shared loop of `+=`, `-=`, `*=` and `/=` with a vector operand. */
    method CombineAssign(op: Op, other: Vec)
      requires |other| == data.Length
      modifies data
      ensures Contents() == ZipWith(op, old(Contents()), other)
    {
      var i := 0;
      while i < data.Length
        invariant 0 <= i <= data.Length
        invariant forall j :: 0 <= j < i ==> data[j] == Apply(op, old(data[j]), other[j])
        invariant forall j :: i <= j < data.Length ==> data[j] == old(data[j])
      {
        data[i] := Apply(op, data[i], other[i]);
        i := i + 1;
      }
    }

    /** The shared loop of `+=`, `-=`, `*=` and `/=` with a scalar operand. */
    method ScalarAssign(op: Op, s: real)
      modifies data
      ensures Contents() == WithScalar(op, old(Contents()), s)
    {
      var i := 0;
      while i < data.Length
        invariant 0 <= i <= data.Length
        invariant forall j :: 0 <= j < i ==> data[j] == Apply(op, old(data[j]), s)
        invariant forall j :: i <= j < data.Length ==> data[j] == old(data[j])
      {
        data[i] := Apply(op, data[i], s);
        i := i + 1;
      }
    }

    /** `operator+=(Vector)`: each component grows by the matching one of `other`. */
    method AddAssign(other: Vector)
      requires other.data.Length == data.Length
      modifies data
      ensures forall i :: 0 <= i < data.Length ==> data[i] == old(data[i]) + old(other.data[i])
    {
      CombineAssign(Add, other.data[..]);
    }

    /** `operator+=(T)`. */
    method AddScalarAssign(s: real)
      modifies data
      ensures forall i :: 0 <= i < data.Length ==> data[i] == old(data[i]) + s
    {
      ScalarAssign(Add, s);
    }

    /** `operator-=(Vector)`. */
    method SubAssign(other: Vector)
      requires other.data.Length == data.Length
      modifies data
      ensures forall i :: 0 <= i < data.Length ==> data[i] == old(data[i]) - old(other.data[i])
    {
      CombineAssign(Sub, other.data[..]);
    }

    /** `operator-=(T)`. */
    method SubScalarAssign(s: real)
      modifies data
      ensures forall i :: 0 <= i < data.Length ==> data[i] == old(data[i]) - s
    {
      ScalarAssign(Sub, s);
    }

    /** `operator*=(Vector)`: the component-wise product. */
    method MulAssign(other: Vector)
      requires other.data.Length == data.Length
      modifies data
      ensures forall i :: 0 <= i < data.Length ==> data[i] == old(data[i]) * old(other.data[i])
    {
      CombineAssign(Mul, other.data[..]);
    }

    /** `operator*=(T)`. */
    method MulScalarAssign(s: real)
      modifies data
      ensures forall i :: 0 <= i < data.Length ==> data[i] == old(data[i]) * s
    {
      ScalarAssign(Mul, s);
    }

    /** `operator/=(Vector)`, through `safe_divide`; stated for non-zero divisors. */
    method DivAssign(other: Vector)
      requires other.data.Length == data.Length
      modifies data
      ensures Contents() == ZipWith(Div, old(Contents()), old(other.Contents()))
      ensures forall i :: 0 <= i < data.Length && old(other.data[i]) != 0.0 ==>
        data[i] == old(data[i]) / old(other.data[i])
    {
      CombineAssign(Div, other.data[..]);
    }

    /** `operator/=(T)`, through `safe_divide`; stated for a non-zero divisor. */
    method DivScalarAssign(s: real)
      modifies data
      ensures Contents() == WithScalar(Div, old(Contents()), s)
      ensures s != 0.0 ==> forall i :: 0 <= i < data.Length ==> data[i] == old(data[i]) / s
    {
      ScalarAssign(Div, s);
    }

    /** `operator+(Vector)`: a copy with `+=` applied; neither operand changes. */
    method Sum(other: Vector) returns (r: Vector)
      requires other.data.Length == data.Length
      ensures fresh(r) && fresh(r.data)
      ensures r.Contents() == ZipWith(Add, Contents(), other.Contents())
    {
      r := new Vector.Copy(this);
      r.CombineAssign(Add, other.data[..]);
    }

    /** `operator+(T)`. */
    method SumScalar(s: real) returns (r: Vector)
      ensures fresh(r) && fresh(r.data) && r.Contents() == WithScalar(Add, Contents(), s)
    {
      r := new Vector.Copy(this);
      r.ScalarAssign(Add, s);
    }

    /** `operator-(Vector)`. */
    method Difference(other: Vector) returns (r: Vector)
      requires other.data.Length == data.Length
      ensures fresh(r) && fresh(r.data) && r.Contents() == Minus(Contents(), other.Contents())
    {
      r := new Vector.Copy(this);
      r.CombineAssign(Sub, other.data[..]);
    }

    /** `operator-(T)`. */
    method DifferenceScalar(s: real) returns (r: Vector)
      ensures fresh(r) && fresh(r.data) && r.Contents() == WithScalar(Sub, Contents(), s)
    {
      r := new Vector.Copy(this);
      r.ScalarAssign(Sub, s);
    }

    /** `operator*(Vector)`: the component-wise product. */
    method Product(other: Vector) returns (r: Vector)
      requires other.data.Length == data.Length
      ensures fresh(r) && fresh(r.data) && r.Contents() == ZipWith(Mul, Contents(), other.Contents())
    {
      r := new Vector.Copy(this);
      r.CombineAssign(Mul, other.data[..]);
    }

    /** `operator*(T)`, and the free `operator*(T, Vector)` which forwards to it. */
    method Scaled(s: real) returns (r: Vector)
      ensures fresh(r) && fresh(r.data) && r.Contents() == Scale(Contents(), s)
    {
      r := new Vector.Copy(this);
      r.ScalarAssign(Mul, s);
    }

    /** `operator/(Vector)`. */
    method Quotient(other: Vector) returns (r: Vector)
      requires other.data.Length == data.Length
      ensures fresh(r) && fresh(r.data) && r.Contents() == ZipWith(Div, Contents(), other.Contents())
    {
      r := new Vector.Copy(this);
      r.CombineAssign(Div, other.data[..]);
    }

    /** `operator/(T)`. */
    method QuotientScalar(s: real) returns (r: Vector)
      ensures fresh(r) && fresh(r.data) && r.Contents() == WithScalar(Div, Contents(), s)
    {
      r := new Vector.Copy(this);
      r.ScalarAssign(Div, s);
    }

    /** Unary `operator-`: a zero vector filled with the negated components. */
    method Negate() returns (r: Vector)
      ensures fresh(r) && fresh(r.data) && r.Contents() == Negated(Contents())
    {
      r := new Vector.Zero(data.Length);
      var i := 0;
      while i < data.Length
        invariant 0 <= i <= data.Length && r.data.Length == data.Length
        invariant forall j :: 0 <= j < i ==> r.data[j] == -data[j]
      {
        r.data[i] := -data[i];
        i := i + 1;
      }
    }

    /** `operator==`: exact, component by component, stopping at the first difference. */
    method Equals(other: Vector) returns (b: bool)
      requires other.data.Length == data.Length
      ensures b <==> Contents() == other.Contents()
    {
      var i := 0;
      while i < data.Length
        invariant 0 <= i <= data.Length
        invariant forall j :: 0 <= j < i ==> data[j] == other.data[j]
      {
        if data[i] != other.data[i] {
          assert Contents()[i] != other.Contents()[i];
          return false;
        }
        i := i + 1;
      }
      return true;
    }

    /** `operator!=`: the negation of `==`. */
    method NotEquals(other: Vector) returns (b: bool)
      requires other.data.Length == data.Length
      ensures b <==> Contents() != other.Contents()
    {
      var e := Equals(other);
      b := !e;
    }

    /** `approx_equal(other, epsilon)`: no component differs by more than `epsilon`. */
    method ApproxEqual(other: Vector, epsilon: real) returns (b: bool)
      requires other.data.Length == data.Length
      ensures b <==> forall j :: 0 <= j < data.Length ==> Abs(data[j] - other.data[j]) <= epsilon
    {
      var i := 0;
      while i < data.Length
        invariant 0 <= i <= data.Length
        invariant forall j :: 0 <= j < i ==> Abs(data[j] - other.data[j]) <= epsilon
      {
        if Abs(data[i] - other.data[i]) > epsilon {
          return false;
        }
        i := i + 1;
      }
      return true;
    }

    /**
     * `normalize()`: asserts a positive length, then divides in place by it. `len` stands
     * for `length()`, the square root of the squared length.
     */
    method Normalize(len: real)
      requires IsSqrt(LengthSquared(Contents()), len) && len > 0.0
      modifies data
      ensures Contents() == WithScalar(Div, old(Contents()), len)
      ensures InnerProduct(Contents(), Contents()) == 1.0
    {
      ghost var v := Contents();
      ScalarAssign(Div, len);
      NormalizedIsUnit(v, len);
    }

    /** `min_dimension()`: the index `std::min_element` finds, the first smallest component. */
    method MinDimension() returns (k: nat)
      ensures data.Length == 0 ==> k == 0
      ensures data.Length > 0 ==> k < data.Length
      ensures data.Length > 0 ==> forall j :: 0 <= j < data.Length ==> data[k] <= data[j]
      ensures forall j :: 0 <= j < k && j < data.Length ==> data[j] > data[k]
    {
      k := 0;
      if data.Length == 0 { return; }
      var i := 1;
      while i < data.Length
        invariant 1 <= i <= data.Length && k < i
        invariant forall j :: 0 <= j < i ==> data[k] <= data[j]
        invariant forall j :: 0 <= j < k ==> data[j] > data[k]
      {
        if data[i] < data[k] {
          k := i;
        }
        i := i + 1;
      }
    }

    /** `max_dimension()`: the index `std::max_element` finds, the first largest component. */
    method MaxDimension() returns (k: nat)
      ensures data.Length == 0 ==> k == 0
      ensures data.Length > 0 ==> k < data.Length
      ensures data.Length > 0 ==> forall j :: 0 <= j < data.Length ==> data[j] <= data[k]
      ensures forall j :: 0 <= j < k && j < data.Length ==> data[j] < data[k]
    {
      k := 0;
      if data.Length == 0 { return; }
      var i := 1;
      while i < data.Length
        invariant 1 <= i <= data.Length && k < i
        invariant forall j :: 0 <= j < i ==> data[j] <= data[k]
        invariant forall j :: 0 <= j < k ==> data[j] < data[k]
      {
        if data[k] < data[i] {
          k := i;
        }
        i := i + 1;
      }
    }

    /** `min_component()`: the component at `min_dimension()`. */
    method MinComponent() returns (m: real)
      requires data.Length > 0
      ensures exists j :: 0 <= j < data.Length && data[j] == m
      ensures forall j :: 0 <= j < data.Length ==> m <= data[j]
    {
      var k := MinDimension();
      m := data[k];
    }

    /** `max_component()`: the component at `max_dimension()`. */
    method MaxComponent() returns (m: real)
      requires data.Length > 0
      ensures exists j :: 0 <= j < data.Length && data[j] == m
      ensures forall j :: 0 <= j < data.Length ==> data[j] <= m
    {
      var k := MaxDimension();
      m := data[k];
    }

    /** `abs()`: a copy with every component replaced by its absolute value. */
    method AbsValues() returns (r: Vector)
      ensures fresh(r) && fresh(r.data) && r.data.Length == data.Length
      ensures forall i :: 0 <= i < data.Length ==> r.data[i] >= 0.0 && (r.data[i] == data[i] || r.data[i] == -data[i])
    {
      r := new Vector.Copy(this);
      var i := 0;
      while i < data.Length
        invariant 0 <= i <= data.Length && r.data.Length == data.Length
        invariant forall j :: 0 <= j < i ==> r.data[j] == Abs(data[j])
      {
        r.data[i] := Abs(data[i]);
        i := i + 1;
      }
    }

    /** `clamp(min, max)` with scalar bounds: every component forced into [lo, hi]. */
    method ClampScalar(lo: real, hi: real) returns (r: Vector)
      requires lo <= hi
      ensures fresh(r) && fresh(r.data) && r.data.Length == data.Length
      ensures forall i :: 0 <= i < data.Length ==> r.data[i] == Clamp(data[i], lo, hi)
      ensures forall i :: 0 <= i < data.Length ==> lo <= r.data[i] <= hi
    {
      r := new Vector.Copy(this);
      var i := 0;
      while i < data.Length
        invariant 0 <= i <= data.Length && r.data.Length == data.Length
        invariant forall j :: 0 <= j < i ==> r.data[j] == Clamp(data[j], lo, hi)
      {
        r.data[i] := Clamp(data[i], lo, hi);
        i := i + 1;
      }
    }

    /** `clamp(min, max)` with per-component bounds. */
    method ClampVector(lo: Vector, hi: Vector) returns (r: Vector)
      requires lo.data.Length == data.Length && hi.data.Length == data.Length
      requires forall i :: 0 <= i < data.Length ==> lo.data[i] <= hi.data[i]
      ensures fresh(r) && fresh(r.data) && r.data.Length == data.Length
      ensures forall i :: 0 <= i < data.Length ==> r.data[i] == Clamp(data[i], lo.data[i], hi.data[i])
      ensures forall i :: 0 <= i < data.Length ==> lo.data[i] <= r.data[i] <= hi.data[i]
    {
      r := new Vector.Copy(this);
      var i := 0;
      while i < data.Length
        invariant 0 <= i <= data.Length && r.data.Length == data.Length
        invariant forall j :: 0 <= j < i ==> r.data[j] == Clamp(data[j], lo.data[j], hi.data[j])
      {
        r.data[i] := Clamp(data[i], lo.data[i], hi.data[i]);
        i := i + 1;
      }
    }
  }

  /** The free `min(lhs, rhs)`: the component-wise smaller value. */
  method ComponentMin(lhs: Vector, rhs: Vector) returns (r: Vector)
    requires lhs.data.Length == rhs.data.Length
    ensures fresh(r) && fresh(r.data) && r.data.Length == lhs.data.Length
    ensures forall i :: 0 <= i < r.data.Length ==> r.data[i] == Min(lhs.data[i], rhs.data[i])
  {
    r := new Vector.Zero(lhs.data.Length);
    var i := 0;
    while i < lhs.data.Length
      invariant 0 <= i <= lhs.data.Length && r.data.Length == lhs.data.Length
      invariant forall j :: 0 <= j < i ==> r.data[j] == Min(lhs.data[j], rhs.data[j])
    {
      r.data[i] := Min(lhs.data[i], rhs.data[i]);
      i := i + 1;
    }
  }

  /** The free `max(lhs, rhs)`: the component-wise larger value. */
  method ComponentMax(lhs: Vector, rhs: Vector) returns (r: Vector)
    requires lhs.data.Length == rhs.data.Length
    ensures fresh(r) && fresh(r.data) && r.data.Length == lhs.data.Length
    ensures forall i :: 0 <= i < r.data.Length ==> r.data[i] == Max(lhs.data[i], rhs.data[i])
  {
    r := new Vector.Zero(lhs.data.Length);
    var i := 0;
    while i < lhs.data.Length
      invariant 0 <= i <= lhs.data.Length && r.data.Length == lhs.data.Length
      invariant forall j :: 0 <= j < i ==> r.data[j] == Max(lhs.data[j], rhs.data[j])
    {
      r.data[i] := Max(lhs.data[i], rhs.data[i]);
      i := i + 1;
    }
  }
}
