// The transform builders of include/pbrt/math/matrix_transform.hpp. Each one starts from a
// fresh identity (or zero) matrix and overwrites a fixed set of cells; here they are grid
// values of module `Grids`. The cosine, sine and tangent the source computes from an angle
// are parameters `c`, `s` and `tanHalfFov`.
module MatrixTransforms {
  import opened Grids
  import Vectors
  import ClosedForms

  // ---------------------------------------------------------------- translate

  /**
   * `translate(v)` for 2-D (3 x 3) and 3-D (4 x 4): the identity with `v` written into
   * the last column above the corner.
   */
  function Translate(v: Vectors.Vec): (m: Grid)
    requires |v| == 2 || |v| == 3
    ensures IsGrid(m, |v| + 1, |v| + 1)
    ensures forall r, c :: 0 <= r <= |v| && 0 <= c <= |v| ==>
      m[r][c] == (if r < |v| && c == |v| then v[r] else if r == c then 1.0 else 0.0)
  {
    var id := Identity(|v| + 1);
    if |v| == 2 then
      id[0 := id[0][2 := v[0]]][1 := id[1][2 := v[1]]]
    else
      id[0 := id[0][3 := v[0]]][1 := id[1][3 := v[1]]][2 := id[2][3 := v[2]]]
  }

  /** `extract_translation` of an `n x n` transform, `n` being 3 or 4: the last column, corner excluded. */
  function ExtractTranslation(m: Grid, n: nat): (v: Vectors.Vec)
    requires (n == 3 || n == 4) && IsGrid(m, n, n)
    ensures |v| == n - 1 && forall r :: 0 <= r < n - 1 ==> v[r] == m[r][n - 1]
  {
    if n == 3 then [m[0][2], m[1][2]] else [m[0][3], m[1][3], m[2][3]]
  }

  /** Extracting the translation of a translation matrix gives its vector back. */
  lemma ExtractTranslate(v: Vectors.Vec)
    requires |v| == 2 || |v| == 3
    ensures ExtractTranslation(Translate(v), |v| + 1) == v
  {
  }

  // ---------------------------------------------------------------- scale

  /** `scale(v)`: the diagonal `(v..., 1)`, zero elsewhere. */
  function ScaleBy(v: Vectors.Vec): (m: Grid)
    requires |v| == 2 || |v| == 3
    ensures IsGrid(m, |v| + 1, |v| + 1)
    ensures forall r, c :: 0 <= r <= |v| && 0 <= c <= |v| ==>
      m[r][c] == (if r != c then 0.0 else if r < |v| then v[r] else 1.0)
  {
    var id := Identity(|v| + 1);
    if |v| == 2 then
      id[0 := id[0][0 := v[0]]][1 := id[1][1 := v[1]]]
    else
      id[0 := id[0][0 := v[0]]][1 := id[1][1 := v[1]]][2 := id[2][2 := v[2]]]
  }

  /** `scale(f)` in `n` dimensions (2 or 3): `f` on the first `n` diagonal cells. */
  function ScaleUniform(f: real, n: nat): (m: Grid)
    requires n == 2 || n == 3
    ensures IsGrid(m, n + 1, n + 1)
  {
    var id := Identity(n + 1);
    if n == 2 then
      id[0 := id[0][0 := f]][1 := id[1][1 := f]]
    else
      id[0 := id[0][0 := f]][1 := id[1][1 := f]][2 := id[2][2 := f]]
  }

  /** Uniform scaling is scaling by the vector whose every component is `f`. */
  lemma ScaleUniformIsScaleBy(f: real, n: nat)
    requires n == 2 || n == 3
    ensures ScaleUniform(f, n) == ScaleBy(seq(n, _ => f))
  {
    var u, s := ScaleUniform(f, n), ScaleBy(seq(n, _ => f));
    GridExtensionality(u, s, n + 1, n + 1);
  }

  // ---------------------------------------------------------------- rotations

  /** `rotate(angle)` for 2-D, with `c` = cos and `s` = sin of the angle. */
  function Rotate2(c: real, s: real): (m: Grid)
    ensures IsGrid(m, 3, 3)
  {
    var id := Identity(3);
    id[0 := id[0][0 := c][1 := -s]][1 := id[1][0 := s][1 := c]]
  }

  /** `rotate_x(angle)`: the block `[[c, -s], [s, c]]` on rows and columns 1 and 2. */
  function RotateX(c: real, s: real): (m: Grid)
    ensures IsGrid(m, 4, 4)
  {
    var id := Identity(4);
    id[1 := id[1][1 := c][2 := -s]][2 := id[2][1 := s][2 := c]]
  }

  /** `rotate_y(angle)`: `c` at (0, 0) and (2, 2), `s` at (0, 2) and `-s` at (2, 0). */
  function RotateY(c: real, s: real): (m: Grid)
    ensures IsGrid(m, 4, 4)
  {
    var id := Identity(4);
    id[0 := id[0][0 := c][2 := s]][2 := id[2][0 := -s][2 := c]]
  }

  /** `rotate_z(angle)`: the block `[[c, -s], [s, c]]` on rows and columns 0 and 1. */
  function RotateZ(c: real, s: real): (m: Grid)
    ensures IsGrid(m, 4, 4)
  {
    var id := Identity(4);
    id[0 := id[0][0 := c][1 := -s]][1 := id[1][0 := s][1 := c]]
  }

  /** `rotate_z` differs from the identity only in its upper-left 2 x 2 block. */
  lemma RotateZBlock(c: real, s: real)
    ensures var m := RotateZ(c, s);
      m[0][0] == c && m[0][1] == -s && m[1][0] == s && m[1][1] == c
    ensures forall r, col :: 0 <= r < 4 && 0 <= col < 4 && (r >= 2 || col >= 2) ==>
      RotateZ(c, s)[r][col] == Identity(4)[r][col]
  {
  }

  /** A 4 x 4 product cell written out as four terms. */
  lemma ProductCell4(a: Grid, b: Grid, i: nat, j: nat)
    requires IsGrid(a, 4, 4) && IsGrid(b, 4, 4) && i < 4 && j < 4
    ensures Product(a, b, 4, 4, 4)[i][j]
      == a[i][0] * b[0][j] + a[i][1] * b[1][j] + a[i][2] * b[2][j] + a[i][3] * b[3][j]
  {
    ClosedForms.DotPrefix4(a, b, i, j);
  }

  lemma ProductCell3(a: Grid, b: Grid, i: nat, j: nat)
    requires IsGrid(a, 3, 3) && IsGrid(b, 3, 3) && i < 3 && j < 3
    ensures Product(a, b, 3, 3, 3)[i][j] == a[i][0] * b[0][j] + a[i][1] * b[1][j] + a[i][2] * b[2][j]
  {
    ClosedForms.DotPrefix3(a, b, i, j);
  }

  /** The 2 x 2 rotation block times its transpose, written over atoms. */
  lemma BlockOrthogonal(c: real, s: real, ns: real)
    requires c * c + s * s == 1.0 && ns == -s
    ensures c * c + ns * ns == 1.0 && s * s + c * c == 1.0
    ensures c * s + ns * c == 0.0 && s * c + c * ns == 0.0
  {
  }

  /** Given `c^2 + s^2 = 1`, `rotate_z` times its transpose is the identity. */
  lemma RotateZOrthogonal(c: real, s: real)
    requires c * c + s * s == 1.0
    ensures var m := RotateZ(c, s); Product(m, Transposed(m, 4, 4), 4, 4, 4) == Identity(4)
  {
    var m := RotateZ(c, s);
    var t := Transposed(m, 4, 4);
    var p := Product(m, t, 4, 4, 4);
    BlockOrthogonal(c, s, m[0][1]);
    forall i, j | 0 <= i < 4 && 0 <= j < 4 ensures p[i][j] == Identity(4)[i][j] {
      ProductCell4(m, t, i, j);
    }
    GridExtensionality(p, Identity(4), 4, 4);
  }

  /** Given `c^2 + s^2 = 1`, `rotate_x` times its transpose is the identity. */
  lemma RotateXOrthogonal(c: real, s: real)
    requires c * c + s * s == 1.0
    ensures var m := RotateX(c, s); Product(m, Transposed(m, 4, 4), 4, 4, 4) == Identity(4)
  {
    var m := RotateX(c, s);
    var t := Transposed(m, 4, 4);
    var p := Product(m, t, 4, 4, 4);
    BlockOrthogonal(c, s, m[1][2]);
    forall i, j | 0 <= i < 4 && 0 <= j < 4 ensures p[i][j] == Identity(4)[i][j] {
      ProductCell4(m, t, i, j);
    }
    GridExtensionality(p, Identity(4), 4, 4);
  }

  /** Given `c^2 + s^2 = 1`, `rotate_y` times its transpose is the identity. */
  lemma RotateYOrthogonal(c: real, s: real)
    requires c * c + s * s == 1.0
    ensures var m := RotateY(c, s); Product(m, Transposed(m, 4, 4), 4, 4, 4) == Identity(4)
  {
    var m := RotateY(c, s);
    var t := Transposed(m, 4, 4);
    var p := Product(m, t, 4, 4, 4);
    BlockOrthogonal(c, m[2][0], s);
    forall i, j | 0 <= i < 4 && 0 <= j < 4 ensures p[i][j] == Identity(4)[i][j] {
      ProductCell4(m, t, i, j);
    }
    GridExtensionality(p, Identity(4), 4, 4);
  }

  /** Given `c^2 + s^2 = 1`, the 2-D rotation times its transpose is the identity. */
  lemma Rotate2Orthogonal(c: real, s: real)
    requires c * c + s * s == 1.0
    ensures var m := Rotate2(c, s); Product(m, Transposed(m, 3, 3), 3, 3, 3) == Identity(3)
  {
    var m := Rotate2(c, s);
    var t := Transposed(m, 3, 3);
    var p := Product(m, t, 3, 3, 3);
    BlockOrthogonal(c, s, m[0][1]);
    forall i, j | 0 <= i < 3 && 0 <= j < 3 ensures p[i][j] == Identity(3)[i][j] {
      ProductCell3(m, t, i, j);
    }
    GridExtensionality(p, Identity(3), 3, 3);
  }

  // ---------------------------------------------------------------- projections

  /** `m` applied to the homogeneous point `(x, y, z, 1)`. */
  function ApplyPoint(m: Grid, x: real, y: real, z: real): (clip: Vectors.Vec)
    requires IsGrid(m, 4, 4)
    ensures |clip| == 4
  {
    MulVector(m, [x, y, z, 1.0], 4, 4)
  }

  /** A cell of `ApplyPoint`, written out. */
  lemma ApplyPointRow(m: Grid, x: real, y: real, z: real, r: nat)
    requires IsGrid(m, 4, 4) && r < 4
    ensures ApplyPoint(m, x, y, z)[r] == m[r][0] * x + m[r][1] * y + m[r][2] * z + m[r][3]
  {
    var p := [x, y, z, 1.0];
    Vectors.InnerProductOfLength4(m[r], p);
    RowTimesPoint(m[r][0], m[r][1], m[r][2], m[r][3], p[0], p[1], p[2], p[3], x, y, z);
  }

  lemma RowTimesPoint(a0: real, a1: real, a2: real, a3: real, p0: real, p1: real, p2: real, p3: real,
                      x: real, y: real, z: real)
    requires p0 == x && p1 == y && p2 == z && p3 == 1.0
    ensures a0 * p0 + a1 * p1 + a2 * p2 + a3 * p3 == a0 * x + a1 * y + a2 * z + a3
  {
  }

  /**
   * `perspective(fov, aspect, near, far)` with `tanHalfFov` = tan(fov / 2). The source
   * asserts `near > 0` and `far > near`; the two divisions by the tangent need it nonzero.
   */
  function Perspective(tanHalfFov: real, aspect: real, near: real, far: real): (m: Grid)
    requires 0.0 < near < far
    requires aspect * tanHalfFov != 0.0 && tanHalfFov != 0.0
    ensures IsGrid(m, 4, 4)
    ensures m[3][2] == -1.0 && m[3][3] == 0.0 && m[3][0] == 0.0 && m[3][1] == 0.0
  {
    var zero := Zero(4, 4);
    var zRange := far - near;
    zero[0 := zero[0][0 := 1.0 / (aspect * tanHalfFov)]]
      [1 := zero[1][1 := 1.0 / tanHalfFov]]
      [2 := zero[2][2 := -(far + near) / zRange][3 := -2.0 * far * near / zRange]]
      [3 := zero[3][2 := -1.0]]
  }

  /** Depth product over atoms: `(A z + B) / -z` at `z = -near` is -1 and at `z = -far` is 1. */
  lemma PerspectiveDepth(near: real, far: real, a: real, b: real)
    requires 0.0 < near < far
    requires a == -(far + near) / (far - near) && b == -2.0 * far * near / (far - near)
    ensures (a * -near + b) / near == -1.0
    ensures (a * -far + b) / far == 1.0
  {
    var zRange := far - near;
    assert a * zRange == -(far + near);
    assert b * zRange == -2.0 * far * near;
    assert (a * -near + b) * zRange == -near * zRange;
    assert (a * -far + b) * zRange == far * zRange;
  }

  /**
   * A point on the near plane on the view axis lands at normalised depth -1, a point on the
   * far plane at +1; the clip `w` is the distance in front of the camera.
   */
  lemma PerspectiveMapsNearFar(tanHalfFov: real, aspect: real, near: real, far: real)
    requires 0.0 < near < far
    requires aspect * tanHalfFov != 0.0 && tanHalfFov != 0.0
    ensures var m := Perspective(tanHalfFov, aspect, near, far);
      var p := ApplyPoint(m, 0.0, 0.0, -near);
      p[3] == near && p[2] / p[3] == -1.0
    ensures var m := Perspective(tanHalfFov, aspect, near, far);
      var p := ApplyPoint(m, 0.0, 0.0, -far);
      p[3] == far && p[2] / p[3] == 1.0
  {
    var m := Perspective(tanHalfFov, aspect, near, far);
    ApplyPointRow(m, 0.0, 0.0, -near, 2);
    ApplyPointRow(m, 0.0, 0.0, -near, 3);
    ApplyPointRow(m, 0.0, 0.0, -far, 2);
    ApplyPointRow(m, 0.0, 0.0, -far, 3);
    PerspectiveDepth(near, far, m[2][2], m[2][3]);
  }

  /**
   * `orthographic(left, right, bottom, top, near, far)`. The source asserts `near < far`;
   * the divisions by `right - left` and `top - bottom` need those nonzero.
   */
  function Orthographic(left: real, right: real, bottom: real, top: real, near: real, far: real): (m: Grid)
    requires near < far && left != right && bottom != top
    ensures IsGrid(m, 4, 4)
    ensures m[3] == [0.0, 0.0, 0.0, 1.0]
  {
    var zero := Zero(4, 4);
    var xScale := 2.0 / (right - left);
    var yScale := 2.0 / (top - bottom);
    var zScale := 1.0 / (far - near);
    zero[0 := zero[0][0 := xScale][3 := -(right + left) * xScale / 2.0]]
      [1 := zero[1][1 := yScale][3 := -(top + bottom) * yScale / 2.0]]
      [2 := zero[2][2 := zScale][3 := -near * zScale]]
      [3 := zero[3][3 := 1.0]]
  }

  /** `k (x - (hi + lo) / 2)` with `k = 2 / (hi - lo)` is 1 at `hi` and -1 at `lo`. */
  lemma OrthoAxis(lo: real, hi: real, k: real, t: real)
    requires lo != hi && k == 2.0 / (hi - lo) && t == -(hi + lo) * k / 2.0
    ensures k * hi + t == 1.0 && k * lo + t == -1.0
  {
    assert k * (hi - lo) == 2.0;
  }

  /** `k z + t` with `k = 1 / (far - near)`, `t = -near k` is 0 at near and 1 at far. */
  lemma OrthoDepth(near: real, far: real, k: real, t: real)
    requires near < far && k == 1.0 / (far - near) && t == -near * k
    ensures k * near + t == 0.0 && k * far + t == 1.0
  {
    assert k * (far - near) == 1.0;
  }

  /**
   * The box maps onto the unit cube: x = right to 1 and x = left to -1, y = top to 1 and
   * y = bottom to -1, z = near to 0 and z = far to 1, and `w` stays 1.
   */
  lemma OrthographicMapsBox(left: real, right: real, bottom: real, top: real, near: real, far: real,
                            x: real, y: real, z: real)
    requires near < far && left != right && bottom != top
    ensures var m := Orthographic(left, right, bottom, top, near, far);
      ApplyPoint(m, right, y, z)[0] == 1.0 && ApplyPoint(m, left, y, z)[0] == -1.0
    ensures var m := Orthographic(left, right, bottom, top, near, far);
      ApplyPoint(m, x, top, z)[1] == 1.0 && ApplyPoint(m, x, bottom, z)[1] == -1.0
    ensures var m := Orthographic(left, right, bottom, top, near, far);
      ApplyPoint(m, x, y, near)[2] == 0.0 && ApplyPoint(m, x, y, far)[2] == 1.0
    ensures var m := Orthographic(left, right, bottom, top, near, far);
      ApplyPoint(m, x, y, z)[3] == 1.0
  {
    var m := Orthographic(left, right, bottom, top, near, far);
    OrthoRow(m, 0, left, right, y, z, true);
    OrthoRow(m, 1, bottom, top, x, z, false);
    ApplyPointRow(m, x, y, near, 2);
    ApplyPointRow(m, x, y, far, 2);
    DepthCells(near, far, m[2][2], m[2][3], m[2][0], m[2][1], x, y);
    ApplyPointRow(m, x, y, z, 3);
    UnitWCells(m[3][0], m[3][1], m[3][2], m[3][3], x, y, z);
  }

  /** Row `r` (0 for x, 1 for y) of the orthographic matrix maps `hi` to 1 and `lo` to -1. */
  lemma OrthoRow(m: Grid, r: nat, lo: real, hi: real, other: real, z: real, isX: bool)
    requires IsGrid(m, 4, 4) && r < 2 && lo != hi && (isX <==> r == 0)
    requires m[r][1 - r] == 0.0 && m[r][2] == 0.0
    requires m[r][r] == 2.0 / (hi - lo) && m[r][3] == -(hi + lo) * m[r][r] / 2.0
    ensures isX ==> ApplyPoint(m, hi, other, z)[r] == 1.0 && ApplyPoint(m, lo, other, z)[r] == -1.0
    ensures !isX ==> ApplyPoint(m, other, hi, z)[r] == 1.0 && ApplyPoint(m, other, lo, z)[r] == -1.0
  {
    if isX {
      ApplyPointRow(m, hi, other, z, r);
      ApplyPointRow(m, lo, other, z, r);
      OrthoCells(lo, hi, m[r][0], m[r][3], m[r][1], m[r][2], other, z);
    } else {
      ApplyPointRow(m, other, hi, z, r);
      ApplyPointRow(m, other, lo, z, r);
      OrthoCells(lo, hi, m[r][1], m[r][3], m[r][0], m[r][2], other, z);
    }
  }

  /** One row of the orthographic matrix, over plain reals: the two zero cells drop out. */
  lemma OrthoCells(lo: real, hi: real, k: real, t: real, a: real, b: real, other: real, z: real)
    requires lo != hi && k == 2.0 / (hi - lo) && t == -(hi + lo) * k / 2.0 && a == 0.0 && b == 0.0
    ensures k * hi + a * other + b * z + t == 1.0 && k * lo + a * other + b * z + t == -1.0
  {
    OrthoAxis(lo, hi, k, t);
  }

  /** The depth row of the orthographic matrix, over plain reals. */
  lemma DepthCells(near: real, far: real, k: real, t: real, a: real, b: real, x: real, y: real)
    requires near < far && k == 1.0 / (far - near) && t == -near * k && a == 0.0 && b == 0.0
    ensures a * x + b * y + k * near + t == 0.0 && a * x + b * y + k * far + t == 1.0
  {
    OrthoDepth(near, far, k, t);
  }

  /** The bottom row (0, 0, 0, 1) keeps `w` at 1. */
  lemma UnitWCells(a0: real, a1: real, a2: real, a3: real, x: real, y: real, z: real)
    requires a0 == 0.0 && a1 == 0.0 && a2 == 0.0 && a3 == 1.0
    ensures a0 * x + a1 * y + a2 * z + a3 == 1.0
  {
  }


  // ---------------------------------------------------------------- is_affine

  /** `is_affine` of an `n x n` transform, `n` being 3 or 4: the bottom row compared cell by cell. */
  predicate IsAffine(m: Grid, n: nat)
    requires (n == 3 || n == 4) && IsGrid(m, n, n)
  {
    if n == 3 then m[2][0] == 0.0 && m[2][1] == 0.0 && m[2][2] == 1.0
    else m[3][0] == 0.0 && m[3][1] == 0.0 && m[3][2] == 0.0 && m[3][3] == 1.0
  }

  /** The bottom row of an affine transform: zeros then a 1 in the corner. */
  function AffineRow(n: nat): (row: Vectors.Vec)
    requires n > 0
    ensures |row| == n && row[n - 1] == 1.0
  {
    seq(n, c => if c == n - 1 then 1.0 else 0.0)
  }

  /** `is_affine` holds exactly when the bottom row is `(0, ..., 0, 1)`. */
  lemma IsAffineIffBottomRow(m: Grid, n: nat)
    requires (n == 3 || n == 4) && IsGrid(m, n, n)
    ensures IsAffine(m, n) <==> m[n - 1] == AffineRow(n)
  {
    if m[n - 1] == AffineRow(n) {
      assert forall c :: 0 <= c < n ==> m[n - 1][c] == AffineRow(n)[c];
    }
    if IsAffine(m, n) {
      assert forall c :: 0 <= c < n ==> m[n - 1][c] == AffineRow(n)[c];
    }
  }

  /** Translations, scalings, rotations and orthographic projections are affine; perspective is not. */
  lemma BuildersAffine(v: Vectors.Vec, c: real, s: real)
    requires |v| == 2 || |v| == 3
    ensures IsAffine(Translate(v), |v| + 1) && IsAffine(ScaleBy(v), |v| + 1)
    ensures IsAffine(RotateX(c, s), 4) && IsAffine(RotateY(c, s), 4) && IsAffine(RotateZ(c, s), 4)
    ensures IsAffine(Rotate2(c, s), 3)
  {
  }

  lemma ProjectionsAffine(tanHalfFov: real, aspect: real, left: real, right: real, bottom: real, top: real,
                          near: real, far: real)
    requires 0.0 < near < far && left != right && bottom != top
    requires aspect * tanHalfFov != 0.0 && tanHalfFov != 0.0
    ensures IsAffine(Orthographic(left, right, bottom, top, near, far), 4)
    ensures !IsAffine(Perspective(tanHalfFov, aspect, near, far), 4)
  {
  }
}
