// The closed-form determinants of `determinant()` for sizes 1 to 4 and the closed-form
// inverses `inverse_1` .. `inverse_4` of include/pbrt/math/matrix.hpp. Each inverse is the
// adjugate scaled by `1 / det`, or the zero matrix when `|det| <= eps`.
module ClosedForms {
  import opened Scalar
  import opened Grids

  // ---------------------------------------------------------------- determinants

  function Det1(g: Grid): real
    requires IsGrid(g, 1, 1)
  {
    g[0][0]
  }

  function Det2(g: Grid): real
    requires IsGrid(g, 2, 2)
  {
    g[0][0] * g[1][1] - g[0][1] * g[1][0]
  }

  /** Expansion along the first row. */
  function Det3(g: Grid): real
    requires IsGrid(g, 3, 3)
  {
    Det3Terms(g[0][0], g[0][1], g[0][2], g[1][0], g[1][1], g[1][2], g[2][0], g[2][1], g[2][2])
  }

  function Det3Terms(m00: real, m01: real, m02: real, m10: real, m11: real, m12: real, m20: real, m21: real, m22: real): real
  {
    m00 * (m11 * m22 - m12 * m21) - m01 * (m10 * m22 - m12 * m20) + m02 * (m10 * m21 - m11 * m20)
  }

  /** The 24-term expansion `determinant()` writes out for 4 x 4. */
  function Det4(g: Grid): real
    requires IsGrid(g, 4, 4)
  {
    Det4Terms(g[0][0], g[0][1], g[0][2], g[0][3], g[1][0], g[1][1], g[1][2], g[1][3],
      g[2][0], g[2][1], g[2][2], g[2][3], g[3][0], g[3][1], g[3][2], g[3][3])
  }

  function Det4Terms(a00: real, a01: real, a02: real, a03: real, a10: real, a11: real, a12: real, a13: real,
    a20: real, a21: real, a22: real, a23: real, a30: real, a31: real, a32: real, a33: real): real
  {
    a03 * a12 * a21 * a30 - a02 * a13 * a21 * a30 - a03 * a11 * a22 * a30
    + a01 * a13 * a22 * a30 + a02 * a11 * a23 * a30 - a01 * a12 * a23 * a30
    - a03 * a12 * a20 * a31 + a02 * a13 * a20 * a31 + a03 * a10 * a22 * a31
    - a00 * a13 * a22 * a31 - a02 * a10 * a23 * a31 + a00 * a12 * a23 * a31
    + a03 * a11 * a20 * a32 - a01 * a13 * a20 * a32 - a03 * a10 * a21 * a32
    + a00 * a13 * a21 * a32 + a01 * a10 * a23 * a32 - a00 * a11 * a23 * a32
    - a02 * a11 * a20 * a33 + a01 * a12 * a20 * a33 + a02 * a10 * a21 * a33
    - a00 * a12 * a21 * a33 - a01 * a10 * a22 * a33 + a00 * a11 * a22 * a33
  }

  /** The 2 x 2 case of `determinant()`: [[1, 2], [3, 4]] has determinant -2. */
  lemma Det2Example()
    ensures Det2([[1.0, 2.0], [3.0, 4.0]]) == -2.0
  {
  }

  // ---------------------------------------------------------------- adjugates

  function Adjugate2(g: Grid): (a: Grid)
    requires IsGrid(g, 2, 2)
    ensures IsGrid(a, 2, 2)
  {
    [[g[1][1], -g[0][1]], [-g[1][0], g[0][0]]]
  }

  /** The cofactors `c00` .. `c22` of `inverse_3`, arranged as the adjugate. */
  function Adjugate3(g: Grid): (a: Grid)
    requires IsGrid(g, 3, 3)
    ensures IsGrid(a, 3, 3)
  {
    Adjugate3Terms(g[0][0], g[0][1], g[0][2], g[1][0], g[1][1], g[1][2], g[2][0], g[2][1], g[2][2])
  }

  function Adjugate3Terms(m00: real, m01: real, m02: real, m10: real, m11: real, m12: real, m20: real, m21: real, m22: real): (a: Grid)
    ensures IsGrid(a, 3, 3)
  {
    var c00, c01, c02 := m11 * m22 - m12 * m21, m10 * m22 - m12 * m20, m10 * m21 - m11 * m20;
    var c10, c11, c12 := m01 * m22 - m02 * m21, m00 * m22 - m02 * m20, m00 * m21 - m01 * m20;
    var c20, c21, c22 := m01 * m12 - m02 * m11, m00 * m12 - m02 * m10, m00 * m11 - m01 * m10;
    [[c00, -c10, c20], [-c01, c11, -c21], [c02, -c12, c22]]
  }

  /** The determinant `inverse_4` computes from the 2 x 2 minors `s0..s5` and `c0..c5`. */
  function Det4Minors(g: Grid): real
    requires IsGrid(g, 4, 4)
  {
    Det4MinorTerms(g[0][0], g[0][1], g[0][2], g[0][3], g[1][0], g[1][1], g[1][2], g[1][3],
      g[2][0], g[2][1], g[2][2], g[2][3], g[3][0], g[3][1], g[3][2], g[3][3])
  }

  function Det4MinorTerms(m00: real, m01: real, m02: real, m03: real, m10: real, m11: real, m12: real, m13: real,
    m20: real, m21: real, m22: real, m23: real, m30: real, m31: real, m32: real, m33: real): real
  {
    var s0, s1, s2 := m00 * m11 - m01 * m10, m00 * m12 - m02 * m10, m00 * m13 - m03 * m10;
    var s3, s4, s5 := m01 * m12 - m02 * m11, m01 * m13 - m03 * m11, m02 * m13 - m03 * m12;
    var c5, c4, c3 := m22 * m33 - m23 * m32, m21 * m33 - m23 * m31, m21 * m32 - m22 * m31;
    var c2, c1, c0 := m20 * m33 - m23 * m30, m20 * m32 - m22 * m30, m20 * m31 - m21 * m30;
    s0 * c5 - s1 * c4 + s2 * c3 + s3 * c2 - s4 * c1 + s5 * c0
  }

  /** The sixteen bracketed entries of `inverse_4`, before the scaling by `1 / det`. */
  function Adjugate4(g: Grid): (a: Grid)
    requires IsGrid(g, 4, 4)
    ensures IsGrid(a, 4, 4)
  {
    Adjugate4Terms(g[0][0], g[0][1], g[0][2], g[0][3], g[1][0], g[1][1], g[1][2], g[1][3],
      g[2][0], g[2][1], g[2][2], g[2][3], g[3][0], g[3][1], g[3][2], g[3][3])
  }

  function Adjugate4Terms(m00: real, m01: real, m02: real, m03: real, m10: real, m11: real, m12: real, m13: real,
    m20: real, m21: real, m22: real, m23: real, m30: real, m31: real, m32: real, m33: real): (a: Grid)
    ensures IsGrid(a, 4, 4)
  {
    seq(4, r requires 0 <= r < 4 => seq(4, c requires 0 <= c < 4 =>
      Adjugate4Entry(r, c, m00, m01, m02, m03, m10, m11, m12, m13, m20, m21, m22, m23, m30, m31, m32, m33)))
  }

  function Adjugate4Entry(r: nat, c: nat, m00: real, m01: real, m02: real, m03: real, m10: real, m11: real, m12: real, m13: real,
    m20: real, m21: real, m22: real, m23: real, m30: real, m31: real, m32: real, m33: real): real
    requires r < 4 && c < 4
  {
    var s0, s1, s2 := m00 * m11 - m01 * m10, m00 * m12 - m02 * m10, m00 * m13 - m03 * m10;
    var s3, s4, s5 := m01 * m12 - m02 * m11, m01 * m13 - m03 * m11, m02 * m13 - m03 * m12;
    var c5, c4, c3 := m22 * m33 - m23 * m32, m21 * m33 - m23 * m31, m21 * m32 - m22 * m31;
    var c2, c1, c0 := m20 * m33 - m23 * m30, m20 * m32 - m22 * m30, m20 * m31 - m21 * m30;
    match (r, c)
    case (0, 0) => m11 * c5 - m12 * c4 + m13 * c3
    case (0, 1) => -m01 * c5 + m02 * c4 - m03 * c3
    case (0, 2) => m31 * s5 - m32 * s4 + m33 * s3
    case (0, 3) => -m21 * s5 + m22 * s4 - m23 * s3
    case (1, 0) => -m10 * c5 + m12 * c2 - m13 * c1
    case (1, 1) => m00 * c5 - m02 * c2 + m03 * c1
    case (1, 2) => -m30 * s5 + m32 * s2 - m33 * s1
    case (1, 3) => m20 * s5 - m22 * s2 + m23 * s1
    case (2, 0) => m10 * c4 - m11 * c2 + m13 * c0
    case (2, 1) => -m00 * c4 + m01 * c2 - m03 * c0
    case (2, 2) => m30 * s4 - m31 * s2 + m33 * s0
    case (2, 3) => -m20 * s4 + m21 * s2 - m23 * s0
    case (3, 0) => -m10 * c3 + m11 * c1 - m12 * c0
    case (3, 1) => m00 * c3 - m01 * c1 + m02 * c0
    case (3, 2) => -m30 * s3 + m31 * s1 - m32 * s0
    case (3, 3) => m20 * s3 - m21 * s1 + m22 * s0
  }

  /** The minor-based determinant of `inverse_4` is the determinant of `determinant()`. */
  lemma Det4MinorsAgree(g: Grid)
    requires IsGrid(g, 4, 4)
    ensures Det4Minors(g) == Det4(g)
  {
    Det4TermsAgree(g[0][0], g[0][1], g[0][2], g[0][3], g[1][0], g[1][1], g[1][2], g[1][3],
      g[2][0], g[2][1], g[2][2], g[2][3], g[3][0], g[3][1], g[3][2], g[3][3]);
  }

  lemma Det4TermsAgree(m00: real, m01: real, m02: real, m03: real, m10: real, m11: real, m12: real, m13: real,
    m20: real, m21: real, m22: real, m23: real, m30: real, m31: real, m32: real, m33: real)
    ensures Det4MinorTerms(m00, m01, m02, m03, m10, m11, m12, m13, m20, m21, m22, m23, m30, m31, m32, m33) == Det4Terms(m00, m01, m02, m03, m10, m11, m12, m13, m20, m21, m22, m23, m30, m31, m32, m33)
  {
  }

  // ---------------------------------------------------------------- M x adj(M) = det I

  lemma DotPrefix2(a: Grid, b: Grid, i: nat, j: nat)
    requires IsGrid(a, 2, 2) && IsGrid(b, 2, 2) && i < 2 && j < 2
    ensures DotPrefix(a, b, i, j, 2) == a[i][0] * b[0][j] + a[i][1] * b[1][j]
  {
    assert DotPrefix(a, b, i, j, 1) == a[i][0] * b[0][j];
  }

  lemma DotPrefix3(a: Grid, b: Grid, i: nat, j: nat)
    requires IsGrid(a, 3, 3) && IsGrid(b, 3, 3) && i < 3 && j < 3
    ensures DotPrefix(a, b, i, j, 3) == a[i][0] * b[0][j] + a[i][1] * b[1][j] + a[i][2] * b[2][j]
  {
    assert DotPrefix(a, b, i, j, 1) == a[i][0] * b[0][j];
  }

  lemma DotPrefix4(a: Grid, b: Grid, i: nat, j: nat)
    requires IsGrid(a, 4, 4) && IsGrid(b, 4, 4) && i < 4 && j < 4
    ensures DotPrefix(a, b, i, j, 4)
      == a[i][0] * b[0][j] + a[i][1] * b[1][j] + a[i][2] * b[2][j] + a[i][3] * b[3][j]
  {
    assert DotPrefix(a, b, i, j, 1) == a[i][0] * b[0][j];
    assert DotPrefix(a, b, i, j, 2) == a[i][0] * b[0][j] + a[i][1] * b[1][j];
  }

  lemma AdjugateProduct2(g: Grid)
    requires IsGrid(g, 2, 2)
    ensures Product(g, Adjugate2(g), 2, 2, 2) == Diagonal(2, Det2(g))
  {
    var a := Adjugate2(g);
    forall i, j | 0 <= i < 2 && 0 <= j < 2
      ensures Product(g, a, 2, 2, 2)[i][j] == Diagonal(2, Det2(g))[i][j]
    {
      DotPrefix2(g, a, i, j);
    }
    GridExtensionality(Product(g, a, 2, 2, 2), Diagonal(2, Det2(g)), 2, 2);
  }

  /** The 3 x 3 grid with the given cells. */
  function Grid3(m00: real, m01: real, m02: real, m10: real, m11: real, m12: real, m20: real, m21: real, m22: real): (g: Grid)
    ensures IsGrid(g, 3, 3)
  {
    [[m00, m01, m02], [m10, m11, m12], [m20, m21, m22]]
  }

  lemma Grid3Cells(g: Grid)
    requires IsGrid(g, 3, 3)
    ensures g == Grid3(g[0][0], g[0][1], g[0][2], g[1][0], g[1][1], g[1][2], g[2][0], g[2][1], g[2][2])
  {
    GridExtensionality(g, Grid3(g[0][0], g[0][1], g[0][2], g[1][0], g[1][1], g[1][2], g[2][0], g[2][1], g[2][2]), 3, 3);
  }

  /** Row 0 of M against column 0 of its adjugate, over plain reals. */
  lemma AdjugateTerm3_00(m00: real, m01: real, m02: real, m10: real, m11: real, m12: real, m20: real, m21: real, m22: real, a0: real, a1: real, a2: real)
    requires a0 == m11 * m22 - m12 * m21 && a1 == -(m10 * m22 - m12 * m20) && a2 == m10 * m21 - m11 * m20
    ensures m00 * a0 + m01 * a1 + m02 * a2 == Det3Terms(m00, m01, m02, m10, m11, m12, m20, m21, m22)
  {
    assert Det3Terms(m00, m01, m02, m10, m11, m12, m20, m21, m22)
      == m00 * m11 * m22 - m00 * m12 * m21 - m01 * m10 * m22 + m01 * m12 * m20 + m02 * m10 * m21 - m02 * m11 * m20;
  }

  lemma AdjugateDot3_00(m00: real, m01: real, m02: real, m10: real, m11: real, m12: real, m20: real, m21: real, m22: real)
    ensures DotPrefix(Grid3(m00, m01, m02, m10, m11, m12, m20, m21, m22), Adjugate3Terms(m00, m01, m02, m10, m11, m12, m20, m21, m22), 0, 0, 3) == Det3Terms(m00, m01, m02, m10, m11, m12, m20, m21, m22)
  {
    var g, a := Grid3(m00, m01, m02, m10, m11, m12, m20, m21, m22), Adjugate3Terms(m00, m01, m02, m10, m11, m12, m20, m21, m22);
    DotPrefix3(g, a, 0, 0);
    AdjugateTerm3_00(m00, m01, m02, m10, m11, m12, m20, m21, m22, a[0][0], a[1][0], a[2][0]);
  }

  /** Row 0 of M against column 1 of its adjugate, over plain reals. */
  lemma AdjugateTerm3_01(m00: real, m01: real, m02: real, m10: real, m11: real, m12: real, m20: real, m21: real, m22: real, a0: real, a1: real, a2: real)
    requires a0 == -(m01 * m22 - m02 * m21) && a1 == m00 * m22 - m02 * m20 && a2 == -(m00 * m21 - m01 * m20)
    ensures m00 * a0 + m01 * a1 + m02 * a2 == 0.0
  {
  }

  lemma AdjugateDot3_01(m00: real, m01: real, m02: real, m10: real, m11: real, m12: real, m20: real, m21: real, m22: real)
    ensures DotPrefix(Grid3(m00, m01, m02, m10, m11, m12, m20, m21, m22), Adjugate3Terms(m00, m01, m02, m10, m11, m12, m20, m21, m22), 0, 1, 3) == 0.0
  {
    var g, a := Grid3(m00, m01, m02, m10, m11, m12, m20, m21, m22), Adjugate3Terms(m00, m01, m02, m10, m11, m12, m20, m21, m22);
    DotPrefix3(g, a, 0, 1);
    AdjugateTerm3_01(m00, m01, m02, m10, m11, m12, m20, m21, m22, a[0][1], a[1][1], a[2][1]);
  }

  /** Row 0 of M against column 2 of its adjugate, over plain reals. */
  lemma AdjugateTerm3_02(m00: real, m01: real, m02: real, m10: real, m11: real, m12: real, m20: real, m21: real, m22: real, a0: real, a1: real, a2: real)
    requires a0 == m01 * m12 - m02 * m11 && a1 == -(m00 * m12 - m02 * m10) && a2 == m00 * m11 - m01 * m10
    ensures m00 * a0 + m01 * a1 + m02 * a2 == 0.0
  {
  }

  lemma AdjugateDot3_02(m00: real, m01: real, m02: real, m10: real, m11: real, m12: real, m20: real, m21: real, m22: real)
    ensures DotPrefix(Grid3(m00, m01, m02, m10, m11, m12, m20, m21, m22), Adjugate3Terms(m00, m01, m02, m10, m11, m12, m20, m21, m22), 0, 2, 3) == 0.0
  {
    var g, a := Grid3(m00, m01, m02, m10, m11, m12, m20, m21, m22), Adjugate3Terms(m00, m01, m02, m10, m11, m12, m20, m21, m22);
    DotPrefix3(g, a, 0, 2);
    AdjugateTerm3_02(m00, m01, m02, m10, m11, m12, m20, m21, m22, a[0][2], a[1][2], a[2][2]);
  }

  /** Row 1 of M against column 0 of its adjugate, over plain reals. */
  lemma AdjugateTerm3_10(m00: real, m01: real, m02: real, m10: real, m11: real, m12: real, m20: real, m21: real, m22: real, a0: real, a1: real, a2: real)
    requires a0 == m11 * m22 - m12 * m21 && a1 == -(m10 * m22 - m12 * m20) && a2 == m10 * m21 - m11 * m20
    ensures m10 * a0 + m11 * a1 + m12 * a2 == 0.0
  {
  }

  lemma AdjugateDot3_10(m00: real, m01: real, m02: real, m10: real, m11: real, m12: real, m20: real, m21: real, m22: real)
    ensures DotPrefix(Grid3(m00, m01, m02, m10, m11, m12, m20, m21, m22), Adjugate3Terms(m00, m01, m02, m10, m11, m12, m20, m21, m22), 1, 0, 3) == 0.0
  {
    var g, a := Grid3(m00, m01, m02, m10, m11, m12, m20, m21, m22), Adjugate3Terms(m00, m01, m02, m10, m11, m12, m20, m21, m22);
    DotPrefix3(g, a, 1, 0);
    AdjugateTerm3_10(m00, m01, m02, m10, m11, m12, m20, m21, m22, a[0][0], a[1][0], a[2][0]);
  }

  /** Row 1 of M against column 1 of its adjugate, over plain reals. */
  lemma AdjugateTerm3_11(m00: real, m01: real, m02: real, m10: real, m11: real, m12: real, m20: real, m21: real, m22: real, a0: real, a1: real, a2: real)
    requires a0 == -(m01 * m22 - m02 * m21) && a1 == m00 * m22 - m02 * m20 && a2 == -(m00 * m21 - m01 * m20)
    ensures m10 * a0 + m11 * a1 + m12 * a2 == Det3Terms(m00, m01, m02, m10, m11, m12, m20, m21, m22)
  {
    assert Det3Terms(m00, m01, m02, m10, m11, m12, m20, m21, m22)
      == m00 * m11 * m22 - m00 * m12 * m21 - m01 * m10 * m22 + m01 * m12 * m20 + m02 * m10 * m21 - m02 * m11 * m20;
  }

  lemma AdjugateDot3_11(m00: real, m01: real, m02: real, m10: real, m11: real, m12: real, m20: real, m21: real, m22: real)
    ensures DotPrefix(Grid3(m00, m01, m02, m10, m11, m12, m20, m21, m22), Adjugate3Terms(m00, m01, m02, m10, m11, m12, m20, m21, m22), 1, 1, 3) == Det3Terms(m00, m01, m02, m10, m11, m12, m20, m21, m22)
  {
    var g, a := Grid3(m00, m01, m02, m10, m11, m12, m20, m21, m22), Adjugate3Terms(m00, m01, m02, m10, m11, m12, m20, m21, m22);
    DotPrefix3(g, a, 1, 1);
    AdjugateTerm3_11(m00, m01, m02, m10, m11, m12, m20, m21, m22, a[0][1], a[1][1], a[2][1]);
  }

  /** Row 1 of M against column 2 of its adjugate, over plain reals. */
  lemma AdjugateTerm3_12(m00: real, m01: real, m02: real, m10: real, m11: real, m12: real, m20: real, m21: real, m22: real, a0: real, a1: real, a2: real)
    requires a0 == m01 * m12 - m02 * m11 && a1 == -(m00 * m12 - m02 * m10) && a2 == m00 * m11 - m01 * m10
    ensures m10 * a0 + m11 * a1 + m12 * a2 == 0.0
  {
  }

  lemma AdjugateDot3_12(m00: real, m01: real, m02: real, m10: real, m11: real, m12: real, m20: real, m21: real, m22: real)
    ensures DotPrefix(Grid3(m00, m01, m02, m10, m11, m12, m20, m21, m22), Adjugate3Terms(m00, m01, m02, m10, m11, m12, m20, m21, m22), 1, 2, 3) == 0.0
  {
    var g, a := Grid3(m00, m01, m02, m10, m11, m12, m20, m21, m22), Adjugate3Terms(m00, m01, m02, m10, m11, m12, m20, m21, m22);
    DotPrefix3(g, a, 1, 2);
    AdjugateTerm3_12(m00, m01, m02, m10, m11, m12, m20, m21, m22, a[0][2], a[1][2], a[2][2]);
  }

  /** Row 2 of M against column 0 of its adjugate, over plain reals. */
  lemma AdjugateTerm3_20(m00: real, m01: real, m02: real, m10: real, m11: real, m12: real, m20: real, m21: real, m22: real, a0: real, a1: real, a2: real)
    requires a0 == m11 * m22 - m12 * m21 && a1 == -(m10 * m22 - m12 * m20) && a2 == m10 * m21 - m11 * m20
    ensures m20 * a0 + m21 * a1 + m22 * a2 == 0.0
  {
  }

  lemma AdjugateDot3_20(m00: real, m01: real, m02: real, m10: real, m11: real, m12: real, m20: real, m21: real, m22: real)
    ensures DotPrefix(Grid3(m00, m01, m02, m10, m11, m12, m20, m21, m22), Adjugate3Terms(m00, m01, m02, m10, m11, m12, m20, m21, m22), 2, 0, 3) == 0.0
  {
    var g, a := Grid3(m00, m01, m02, m10, m11, m12, m20, m21, m22), Adjugate3Terms(m00, m01, m02, m10, m11, m12, m20, m21, m22);
    DotPrefix3(g, a, 2, 0);
    AdjugateTerm3_20(m00, m01, m02, m10, m11, m12, m20, m21, m22, a[0][0], a[1][0], a[2][0]);
  }

  /** Row 2 of M against column 1 of its adjugate, over plain reals. */
  lemma AdjugateTerm3_21(m00: real, m01: real, m02: real, m10: real, m11: real, m12: real, m20: real, m21: real, m22: real, a0: real, a1: real, a2: real)
    requires a0 == -(m01 * m22 - m02 * m21) && a1 == m00 * m22 - m02 * m20 && a2 == -(m00 * m21 - m01 * m20)
    ensures m20 * a0 + m21 * a1 + m22 * a2 == 0.0
  {
  }

  lemma AdjugateDot3_21(m00: real, m01: real, m02: real, m10: real, m11: real, m12: real, m20: real, m21: real, m22: real)
    ensures DotPrefix(Grid3(m00, m01, m02, m10, m11, m12, m20, m21, m22), Adjugate3Terms(m00, m01, m02, m10, m11, m12, m20, m21, m22), 2, 1, 3) == 0.0
  {
    var g, a := Grid3(m00, m01, m02, m10, m11, m12, m20, m21, m22), Adjugate3Terms(m00, m01, m02, m10, m11, m12, m20, m21, m22);
    DotPrefix3(g, a, 2, 1);
    AdjugateTerm3_21(m00, m01, m02, m10, m11, m12, m20, m21, m22, a[0][1], a[1][1], a[2][1]);
  }

  /** Row 2 of M against column 2 of its adjugate, over plain reals. */
  lemma AdjugateTerm3_22(m00: real, m01: real, m02: real, m10: real, m11: real, m12: real, m20: real, m21: real, m22: real, a0: real, a1: real, a2: real)
    requires a0 == m01 * m12 - m02 * m11 && a1 == -(m00 * m12 - m02 * m10) && a2 == m00 * m11 - m01 * m10
    ensures m20 * a0 + m21 * a1 + m22 * a2 == Det3Terms(m00, m01, m02, m10, m11, m12, m20, m21, m22)
  {
    assert Det3Terms(m00, m01, m02, m10, m11, m12, m20, m21, m22)
      == m00 * m11 * m22 - m00 * m12 * m21 - m01 * m10 * m22 + m01 * m12 * m20 + m02 * m10 * m21 - m02 * m11 * m20;
  }

  lemma AdjugateDot3_22(m00: real, m01: real, m02: real, m10: real, m11: real, m12: real, m20: real, m21: real, m22: real)
    ensures DotPrefix(Grid3(m00, m01, m02, m10, m11, m12, m20, m21, m22), Adjugate3Terms(m00, m01, m02, m10, m11, m12, m20, m21, m22), 2, 2, 3) == Det3Terms(m00, m01, m02, m10, m11, m12, m20, m21, m22)
  {
    var g, a := Grid3(m00, m01, m02, m10, m11, m12, m20, m21, m22), Adjugate3Terms(m00, m01, m02, m10, m11, m12, m20, m21, m22);
    DotPrefix3(g, a, 2, 2);
    AdjugateTerm3_22(m00, m01, m02, m10, m11, m12, m20, m21, m22, a[0][2], a[1][2], a[2][2]);
  }

  /** Cell (i, j) of M x adj(M). */
  lemma AdjugateCell3(g: Grid, i: nat, j: nat)
    requires IsGrid(g, 3, 3) && i < 3 && j < 3
    ensures DotPrefix(g, Adjugate3(g), i, j, 3) == if i == j then Det3(g) else 0.0
  {
    Grid3Cells(g);
    if i == 0 && j == 0 {
      AdjugateDot3_00(g[0][0], g[0][1], g[0][2], g[1][0], g[1][1], g[1][2], g[2][0], g[2][1], g[2][2]);
    } else if i == 0 && j == 1 {
      AdjugateDot3_01(g[0][0], g[0][1], g[0][2], g[1][0], g[1][1], g[1][2], g[2][0], g[2][1], g[2][2]);
    } else if i == 0 && j == 2 {
      AdjugateDot3_02(g[0][0], g[0][1], g[0][2], g[1][0], g[1][1], g[1][2], g[2][0], g[2][1], g[2][2]);
    } else if i == 1 && j == 0 {
      AdjugateDot3_10(g[0][0], g[0][1], g[0][2], g[1][0], g[1][1], g[1][2], g[2][0], g[2][1], g[2][2]);
    } else if i == 1 && j == 1 {
      AdjugateDot3_11(g[0][0], g[0][1], g[0][2], g[1][0], g[1][1], g[1][2], g[2][0], g[2][1], g[2][2]);
    } else if i == 1 && j == 2 {
      AdjugateDot3_12(g[0][0], g[0][1], g[0][2], g[1][0], g[1][1], g[1][2], g[2][0], g[2][1], g[2][2]);
    } else if i == 2 && j == 0 {
      AdjugateDot3_20(g[0][0], g[0][1], g[0][2], g[1][0], g[1][1], g[1][2], g[2][0], g[2][1], g[2][2]);
    } else if i == 2 && j == 1 {
      AdjugateDot3_21(g[0][0], g[0][1], g[0][2], g[1][0], g[1][1], g[1][2], g[2][0], g[2][1], g[2][2]);
    } else {
      AdjugateDot3_22(g[0][0], g[0][1], g[0][2], g[1][0], g[1][1], g[1][2], g[2][0], g[2][1], g[2][2]);
    }
  }

  lemma AdjugateProduct3(g: Grid)
    requires IsGrid(g, 3, 3)
    ensures Product(g, Adjugate3(g), 3, 3, 3) == Diagonal(3, Det3(g))
  {
    var a := Adjugate3(g);
    forall i, j | 0 <= i < 3 && 0 <= j < 3
      ensures Product(g, a, 3, 3, 3)[i][j] == Diagonal(3, Det3(g))[i][j]
    {
      AdjugateCell3(g, i, j);
    }
    GridExtensionality(Product(g, a, 3, 3, 3), Diagonal(3, Det3(g)), 3, 3);
  }

  /** Row 0 of M against column 0 of adj(M). */
  lemma AdjugateEntry4_00(m00: real, m01: real, m02: real, m03: real, m10: real, m11: real, m12: real, m13: real,
    m20: real, m21: real, m22: real, m23: real, m30: real, m31: real, m32: real, m33: real)
    ensures m00 * Adjugate4Entry(0, 0, m00, m01, m02, m03, m10, m11, m12, m13, m20, m21, m22, m23, m30, m31, m32, m33) + m01 * Adjugate4Entry(1, 0, m00, m01, m02, m03, m10, m11, m12, m13, m20, m21, m22, m23, m30, m31, m32, m33) + m02 * Adjugate4Entry(2, 0, m00, m01, m02, m03, m10, m11, m12, m13, m20, m21, m22, m23, m30, m31, m32, m33) + m03 * Adjugate4Entry(3, 0, m00, m01, m02, m03, m10, m11, m12, m13, m20, m21, m22, m23, m30, m31, m32, m33)
      == Det4MinorTerms(m00, m01, m02, m03, m10, m11, m12, m13, m20, m21, m22, m23, m30, m31, m32, m33)
  {
  }

  /** Row 0 of M against column 1 of adj(M). */
  lemma AdjugateEntry4_01(m00: real, m01: real, m02: real, m03: real, m10: real, m11: real, m12: real, m13: real,
    m20: real, m21: real, m22: real, m23: real, m30: real, m31: real, m32: real, m33: real)
    ensures m00 * Adjugate4Entry(0, 1, m00, m01, m02, m03, m10, m11, m12, m13, m20, m21, m22, m23, m30, m31, m32, m33) + m01 * Adjugate4Entry(1, 1, m00, m01, m02, m03, m10, m11, m12, m13, m20, m21, m22, m23, m30, m31, m32, m33) + m02 * Adjugate4Entry(2, 1, m00, m01, m02, m03, m10, m11, m12, m13, m20, m21, m22, m23, m30, m31, m32, m33) + m03 * Adjugate4Entry(3, 1, m00, m01, m02, m03, m10, m11, m12, m13, m20, m21, m22, m23, m30, m31, m32, m33)
      == 0.0
  {
  }

  /** Row 0 of M against column 2 of adj(M). */
  lemma AdjugateEntry4_02(m00: real, m01: real, m02: real, m03: real, m10: real, m11: real, m12: real, m13: real,
    m20: real, m21: real, m22: real, m23: real, m30: real, m31: real, m32: real, m33: real)
    ensures m00 * Adjugate4Entry(0, 2, m00, m01, m02, m03, m10, m11, m12, m13, m20, m21, m22, m23, m30, m31, m32, m33) + m01 * Adjugate4Entry(1, 2, m00, m01, m02, m03, m10, m11, m12, m13, m20, m21, m22, m23, m30, m31, m32, m33) + m02 * Adjugate4Entry(2, 2, m00, m01, m02, m03, m10, m11, m12, m13, m20, m21, m22, m23, m30, m31, m32, m33) + m03 * Adjugate4Entry(3, 2, m00, m01, m02, m03, m10, m11, m12, m13, m20, m21, m22, m23, m30, m31, m32, m33)
      == 0.0
  {
  }

  /** Row 0 of M against column 3 of adj(M). */
  lemma AdjugateEntry4_03(m00: real, m01: real, m02: real, m03: real, m10: real, m11: real, m12: real, m13: real,
    m20: real, m21: real, m22: real, m23: real, m30: real, m31: real, m32: real, m33: real)
    ensures m00 * Adjugate4Entry(0, 3, m00, m01, m02, m03, m10, m11, m12, m13, m20, m21, m22, m23, m30, m31, m32, m33) + m01 * Adjugate4Entry(1, 3, m00, m01, m02, m03, m10, m11, m12, m13, m20, m21, m22, m23, m30, m31, m32, m33) + m02 * Adjugate4Entry(2, 3, m00, m01, m02, m03, m10, m11, m12, m13, m20, m21, m22, m23, m30, m31, m32, m33) + m03 * Adjugate4Entry(3, 3, m00, m01, m02, m03, m10, m11, m12, m13, m20, m21, m22, m23, m30, m31, m32, m33)
      == 0.0
  {
  }

  /** Row 1 of M against column 0 of adj(M). */
  lemma AdjugateEntry4_10(m00: real, m01: real, m02: real, m03: real, m10: real, m11: real, m12: real, m13: real,
    m20: real, m21: real, m22: real, m23: real, m30: real, m31: real, m32: real, m33: real)
    ensures m10 * Adjugate4Entry(0, 0, m00, m01, m02, m03, m10, m11, m12, m13, m20, m21, m22, m23, m30, m31, m32, m33) + m11 * Adjugate4Entry(1, 0, m00, m01, m02, m03, m10, m11, m12, m13, m20, m21, m22, m23, m30, m31, m32, m33) + m12 * Adjugate4Entry(2, 0, m00, m01, m02, m03, m10, m11, m12, m13, m20, m21, m22, m23, m30, m31, m32, m33) + m13 * Adjugate4Entry(3, 0, m00, m01, m02, m03, m10, m11, m12, m13, m20, m21, m22, m23, m30, m31, m32, m33)
      == 0.0
  {
  }

  /** Row 1 of M against column 1 of adj(M). */
  lemma AdjugateEntry4_11(m00: real, m01: real, m02: real, m03: real, m10: real, m11: real, m12: real, m13: real,
    m20: real, m21: real, m22: real, m23: real, m30: real, m31: real, m32: real, m33: real)
    ensures m10 * Adjugate4Entry(0, 1, m00, m01, m02, m03, m10, m11, m12, m13, m20, m21, m22, m23, m30, m31, m32, m33) + m11 * Adjugate4Entry(1, 1, m00, m01, m02, m03, m10, m11, m12, m13, m20, m21, m22, m23, m30, m31, m32, m33) + m12 * Adjugate4Entry(2, 1, m00, m01, m02, m03, m10, m11, m12, m13, m20, m21, m22, m23, m30, m31, m32, m33) + m13 * Adjugate4Entry(3, 1, m00, m01, m02, m03, m10, m11, m12, m13, m20, m21, m22, m23, m30, m31, m32, m33)
      == Det4MinorTerms(m00, m01, m02, m03, m10, m11, m12, m13, m20, m21, m22, m23, m30, m31, m32, m33)
  {
  }

  /** Row 1 of M against column 2 of adj(M). */
  lemma AdjugateEntry4_12(m00: real, m01: real, m02: real, m03: real, m10: real, m11: real, m12: real, m13: real,
    m20: real, m21: real, m22: real, m23: real, m30: real, m31: real, m32: real, m33: real)
    ensures m10 * Adjugate4Entry(0, 2, m00, m01, m02, m03, m10, m11, m12, m13, m20, m21, m22, m23, m30, m31, m32, m33) + m11 * Adjugate4Entry(1, 2, m00, m01, m02, m03, m10, m11, m12, m13, m20, m21, m22, m23, m30, m31, m32, m33) + m12 * Adjugate4Entry(2, 2, m00, m01, m02, m03, m10, m11, m12, m13, m20, m21, m22, m23, m30, m31, m32, m33) + m13 * Adjugate4Entry(3, 2, m00, m01, m02, m03, m10, m11, m12, m13, m20, m21, m22, m23, m30, m31, m32, m33)
      == 0.0
  {
  }

  /** Row 1 of M against column 3 of adj(M). */
  lemma AdjugateEntry4_13(m00: real, m01: real, m02: real, m03: real, m10: real, m11: real, m12: real, m13: real,
    m20: real, m21: real, m22: real, m23: real, m30: real, m31: real, m32: real, m33: real)
    ensures m10 * Adjugate4Entry(0, 3, m00, m01, m02, m03, m10, m11, m12, m13, m20, m21, m22, m23, m30, m31, m32, m33) + m11 * Adjugate4Entry(1, 3, m00, m01, m02, m03, m10, m11, m12, m13, m20, m21, m22, m23, m30, m31, m32, m33) + m12 * Adjugate4Entry(2, 3, m00, m01, m02, m03, m10, m11, m12, m13, m20, m21, m22, m23, m30, m31, m32, m33) + m13 * Adjugate4Entry(3, 3, m00, m01, m02, m03, m10, m11, m12, m13, m20, m21, m22, m23, m30, m31, m32, m33)
      == 0.0
  {
  }

  /** Row 2 of M against column 0 of adj(M). */
  lemma AdjugateEntry4_20(m00: real, m01: real, m02: real, m03: real, m10: real, m11: real, m12: real, m13: real,
    m20: real, m21: real, m22: real, m23: real, m30: real, m31: real, m32: real, m33: real)
    ensures m20 * Adjugate4Entry(0, 0, m00, m01, m02, m03, m10, m11, m12, m13, m20, m21, m22, m23, m30, m31, m32, m33) + m21 * Adjugate4Entry(1, 0, m00, m01, m02, m03, m10, m11, m12, m13, m20, m21, m22, m23, m30, m31, m32, m33) + m22 * Adjugate4Entry(2, 0, m00, m01, m02, m03, m10, m11, m12, m13, m20, m21, m22, m23, m30, m31, m32, m33) + m23 * Adjugate4Entry(3, 0, m00, m01, m02, m03, m10, m11, m12, m13, m20, m21, m22, m23, m30, m31, m32, m33)
      == 0.0
  {
  }

  /** Row 2 of M against column 1 of adj(M). */
  lemma AdjugateEntry4_21(m00: real, m01: real, m02: real, m03: real, m10: real, m11: real, m12: real, m13: real,
    m20: real, m21: real, m22: real, m23: real, m30: real, m31: real, m32: real, m33: real)
    ensures m20 * Adjugate4Entry(0, 1, m00, m01, m02, m03, m10, m11, m12, m13, m20, m21, m22, m23, m30, m31, m32, m33) + m21 * Adjugate4Entry(1, 1, m00, m01, m02, m03, m10, m11, m12, m13, m20, m21, m22, m23, m30, m31, m32, m33) + m22 * Adjugate4Entry(2, 1, m00, m01, m02, m03, m10, m11, m12, m13, m20, m21, m22, m23, m30, m31, m32, m33) + m23 * Adjugate4Entry(3, 1, m00, m01, m02, m03, m10, m11, m12, m13, m20, m21, m22, m23, m30, m31, m32, m33)
      == 0.0
  {
  }

  /** Row 2 of M against column 2 of adj(M). */
  lemma AdjugateEntry4_22(m00: real, m01: real, m02: real, m03: real, m10: real, m11: real, m12: real, m13: real,
    m20: real, m21: real, m22: real, m23: real, m30: real, m31: real, m32: real, m33: real)
    ensures m20 * Adjugate4Entry(0, 2, m00, m01, m02, m03, m10, m11, m12, m13, m20, m21, m22, m23, m30, m31, m32, m33) + m21 * Adjugate4Entry(1, 2, m00, m01, m02, m03, m10, m11, m12, m13, m20, m21, m22, m23, m30, m31, m32, m33) + m22 * Adjugate4Entry(2, 2, m00, m01, m02, m03, m10, m11, m12, m13, m20, m21, m22, m23, m30, m31, m32, m33) + m23 * Adjugate4Entry(3, 2, m00, m01, m02, m03, m10, m11, m12, m13, m20, m21, m22, m23, m30, m31, m32, m33)
      == Det4MinorTerms(m00, m01, m02, m03, m10, m11, m12, m13, m20, m21, m22, m23, m30, m31, m32, m33)
  {
  }

  /** Row 2 of M against column 3 of adj(M). */
  lemma AdjugateEntry4_23(m00: real, m01: real, m02: real, m03: real, m10: real, m11: real, m12: real, m13: real,
    m20: real, m21: real, m22: real, m23: real, m30: real, m31: real, m32: real, m33: real)
    ensures m20 * Adjugate4Entry(0, 3, m00, m01, m02, m03, m10, m11, m12, m13, m20, m21, m22, m23, m30, m31, m32, m33) + m21 * Adjugate4Entry(1, 3, m00, m01, m02, m03, m10, m11, m12, m13, m20, m21, m22, m23, m30, m31, m32, m33) + m22 * Adjugate4Entry(2, 3, m00, m01, m02, m03, m10, m11, m12, m13, m20, m21, m22, m23, m30, m31, m32, m33) + m23 * Adjugate4Entry(3, 3, m00, m01, m02, m03, m10, m11, m12, m13, m20, m21, m22, m23, m30, m31, m32, m33)
      == 0.0
  {
  }

  /** Row 3 of M against column 0 of adj(M). */
  lemma AdjugateEntry4_30(m00: real, m01: real, m02: real, m03: real, m10: real, m11: real, m12: real, m13: real,
    m20: real, m21: real, m22: real, m23: real, m30: real, m31: real, m32: real, m33: real)
    ensures m30 * Adjugate4Entry(0, 0, m00, m01, m02, m03, m10, m11, m12, m13, m20, m21, m22, m23, m30, m31, m32, m33) + m31 * Adjugate4Entry(1, 0, m00, m01, m02, m03, m10, m11, m12, m13, m20, m21, m22, m23, m30, m31, m32, m33) + m32 * Adjugate4Entry(2, 0, m00, m01, m02, m03, m10, m11, m12, m13, m20, m21, m22, m23, m30, m31, m32, m33) + m33 * Adjugate4Entry(3, 0, m00, m01, m02, m03, m10, m11, m12, m13, m20, m21, m22, m23, m30, m31, m32, m33)
      == 0.0
  {
  }

  /** Row 3 of M against column 1 of adj(M). */
  lemma AdjugateEntry4_31(m00: real, m01: real, m02: real, m03: real, m10: real, m11: real, m12: real, m13: real,
    m20: real, m21: real, m22: real, m23: real, m30: real, m31: real, m32: real, m33: real)
    ensures m30 * Adjugate4Entry(0, 1, m00, m01, m02, m03, m10, m11, m12, m13, m20, m21, m22, m23, m30, m31, m32, m33) + m31 * Adjugate4Entry(1, 1, m00, m01, m02, m03, m10, m11, m12, m13, m20, m21, m22, m23, m30, m31, m32, m33) + m32 * Adjugate4Entry(2, 1, m00, m01, m02, m03, m10, m11, m12, m13, m20, m21, m22, m23, m30, m31, m32, m33) + m33 * Adjugate4Entry(3, 1, m00, m01, m02, m03, m10, m11, m12, m13, m20, m21, m22, m23, m30, m31, m32, m33)
      == 0.0
  {
  }

  /** Row 3 of M against column 2 of adj(M). */
  lemma AdjugateEntry4_32(m00: real, m01: real, m02: real, m03: real, m10: real, m11: real, m12: real, m13: real,
    m20: real, m21: real, m22: real, m23: real, m30: real, m31: real, m32: real, m33: real)
    ensures m30 * Adjugate4Entry(0, 2, m00, m01, m02, m03, m10, m11, m12, m13, m20, m21, m22, m23, m30, m31, m32, m33) + m31 * Adjugate4Entry(1, 2, m00, m01, m02, m03, m10, m11, m12, m13, m20, m21, m22, m23, m30, m31, m32, m33) + m32 * Adjugate4Entry(2, 2, m00, m01, m02, m03, m10, m11, m12, m13, m20, m21, m22, m23, m30, m31, m32, m33) + m33 * Adjugate4Entry(3, 2, m00, m01, m02, m03, m10, m11, m12, m13, m20, m21, m22, m23, m30, m31, m32, m33)
      == 0.0
  {
  }

  /** Row 3 of M against column 3 of adj(M). */
  lemma AdjugateEntry4_33(m00: real, m01: real, m02: real, m03: real, m10: real, m11: real, m12: real, m13: real,
    m20: real, m21: real, m22: real, m23: real, m30: real, m31: real, m32: real, m33: real)
    ensures m30 * Adjugate4Entry(0, 3, m00, m01, m02, m03, m10, m11, m12, m13, m20, m21, m22, m23, m30, m31, m32, m33) + m31 * Adjugate4Entry(1, 3, m00, m01, m02, m03, m10, m11, m12, m13, m20, m21, m22, m23, m30, m31, m32, m33) + m32 * Adjugate4Entry(2, 3, m00, m01, m02, m03, m10, m11, m12, m13, m20, m21, m22, m23, m30, m31, m32, m33) + m33 * Adjugate4Entry(3, 3, m00, m01, m02, m03, m10, m11, m12, m13, m20, m21, m22, m23, m30, m31, m32, m33)
      == Det4MinorTerms(m00, m01, m02, m03, m10, m11, m12, m13, m20, m21, m22, m23, m30, m31, m32, m33)
  {
  }

  /** The 4 x 4 grid with the given cells. */
  function Grid4(m00: real, m01: real, m02: real, m03: real, m10: real, m11: real, m12: real, m13: real,
    m20: real, m21: real, m22: real, m23: real, m30: real, m31: real, m32: real, m33: real): (g: Grid)
    ensures IsGrid(g, 4, 4)
  {
    [[m00, m01, m02, m03], [m10, m11, m12, m13], [m20, m21, m22, m23], [m30, m31, m32, m33]]
  }

  lemma Grid4Cells(g: Grid)
    requires IsGrid(g, 4, 4)
    ensures g == Grid4(g[0][0], g[0][1], g[0][2], g[0][3], g[1][0], g[1][1], g[1][2], g[1][3],
      g[2][0], g[2][1], g[2][2], g[2][3], g[3][0], g[3][1], g[3][2], g[3][3])
  {
    GridExtensionality(g, Grid4(g[0][0], g[0][1], g[0][2], g[0][3], g[1][0], g[1][1], g[1][2], g[1][3],
      g[2][0], g[2][1], g[2][2], g[2][3], g[3][0], g[3][1], g[3][2], g[3][3]), 4, 4);
  }

  lemma AdjugateDot4_00(m00: real, m01: real, m02: real, m03: real, m10: real, m11: real, m12: real, m13: real,
    m20: real, m21: real, m22: real, m23: real, m30: real, m31: real, m32: real, m33: real)
    ensures DotPrefix(Grid4(m00, m01, m02, m03, m10, m11, m12, m13, m20, m21, m22, m23, m30, m31, m32, m33), Adjugate4Terms(m00, m01, m02, m03, m10, m11, m12, m13, m20, m21, m22, m23, m30, m31, m32, m33), 0, 0, 4)
      == Det4MinorTerms(m00, m01, m02, m03, m10, m11, m12, m13, m20, m21, m22, m23, m30, m31, m32, m33)
  {
    DotPrefix4(Grid4(m00, m01, m02, m03, m10, m11, m12, m13, m20, m21, m22, m23, m30, m31, m32, m33), Adjugate4Terms(m00, m01, m02, m03, m10, m11, m12, m13, m20, m21, m22, m23, m30, m31, m32, m33), 0, 0);
    AdjugateEntry4_00(m00, m01, m02, m03, m10, m11, m12, m13, m20, m21, m22, m23, m30, m31, m32, m33);
  }

  lemma AdjugateDot4_01(m00: real, m01: real, m02: real, m03: real, m10: real, m11: real, m12: real, m13: real,
    m20: real, m21: real, m22: real, m23: real, m30: real, m31: real, m32: real, m33: real)
    ensures DotPrefix(Grid4(m00, m01, m02, m03, m10, m11, m12, m13, m20, m21, m22, m23, m30, m31, m32, m33), Adjugate4Terms(m00, m01, m02, m03, m10, m11, m12, m13, m20, m21, m22, m23, m30, m31, m32, m33), 0, 1, 4)
      == 0.0
  {
    DotPrefix4(Grid4(m00, m01, m02, m03, m10, m11, m12, m13, m20, m21, m22, m23, m30, m31, m32, m33), Adjugate4Terms(m00, m01, m02, m03, m10, m11, m12, m13, m20, m21, m22, m23, m30, m31, m32, m33), 0, 1);
    AdjugateEntry4_01(m00, m01, m02, m03, m10, m11, m12, m13, m20, m21, m22, m23, m30, m31, m32, m33);
  }

  lemma AdjugateDot4_02(m00: real, m01: real, m02: real, m03: real, m10: real, m11: real, m12: real, m13: real,
    m20: real, m21: real, m22: real, m23: real, m30: real, m31: real, m32: real, m33: real)
    ensures DotPrefix(Grid4(m00, m01, m02, m03, m10, m11, m12, m13, m20, m21, m22, m23, m30, m31, m32, m33), Adjugate4Terms(m00, m01, m02, m03, m10, m11, m12, m13, m20, m21, m22, m23, m30, m31, m32, m33), 0, 2, 4)
      == 0.0
  {
    DotPrefix4(Grid4(m00, m01, m02, m03, m10, m11, m12, m13, m20, m21, m22, m23, m30, m31, m32, m33), Adjugate4Terms(m00, m01, m02, m03, m10, m11, m12, m13, m20, m21, m22, m23, m30, m31, m32, m33), 0, 2);
    AdjugateEntry4_02(m00, m01, m02, m03, m10, m11, m12, m13, m20, m21, m22, m23, m30, m31, m32, m33);
  }

  lemma AdjugateDot4_03(m00: real, m01: real, m02: real, m03: real, m10: real, m11: real, m12: real, m13: real,
    m20: real, m21: real, m22: real, m23: real, m30: real, m31: real, m32: real, m33: real)
    ensures DotPrefix(Grid4(m00, m01, m02, m03, m10, m11, m12, m13, m20, m21, m22, m23, m30, m31, m32, m33), Adjugate4Terms(m00, m01, m02, m03, m10, m11, m12, m13, m20, m21, m22, m23, m30, m31, m32, m33), 0, 3, 4)
      == 0.0
  {
    DotPrefix4(Grid4(m00, m01, m02, m03, m10, m11, m12, m13, m20, m21, m22, m23, m30, m31, m32, m33), Adjugate4Terms(m00, m01, m02, m03, m10, m11, m12, m13, m20, m21, m22, m23, m30, m31, m32, m33), 0, 3);
    AdjugateEntry4_03(m00, m01, m02, m03, m10, m11, m12, m13, m20, m21, m22, m23, m30, m31, m32, m33);
  }

  lemma AdjugateDot4_10(m00: real, m01: real, m02: real, m03: real, m10: real, m11: real, m12: real, m13: real,
    m20: real, m21: real, m22: real, m23: real, m30: real, m31: real, m32: real, m33: real)
    ensures DotPrefix(Grid4(m00, m01, m02, m03, m10, m11, m12, m13, m20, m21, m22, m23, m30, m31, m32, m33), Adjugate4Terms(m00, m01, m02, m03, m10, m11, m12, m13, m20, m21, m22, m23, m30, m31, m32, m33), 1, 0, 4)
      == 0.0
  {
    DotPrefix4(Grid4(m00, m01, m02, m03, m10, m11, m12, m13, m20, m21, m22, m23, m30, m31, m32, m33), Adjugate4Terms(m00, m01, m02, m03, m10, m11, m12, m13, m20, m21, m22, m23, m30, m31, m32, m33), 1, 0);
    AdjugateEntry4_10(m00, m01, m02, m03, m10, m11, m12, m13, m20, m21, m22, m23, m30, m31, m32, m33);
  }

  lemma AdjugateDot4_11(m00: real, m01: real, m02: real, m03: real, m10: real, m11: real, m12: real, m13: real,
    m20: real, m21: real, m22: real, m23: real, m30: real, m31: real, m32: real, m33: real)
    ensures DotPrefix(Grid4(m00, m01, m02, m03, m10, m11, m12, m13, m20, m21, m22, m23, m30, m31, m32, m33), Adjugate4Terms(m00, m01, m02, m03, m10, m11, m12, m13, m20, m21, m22, m23, m30, m31, m32, m33), 1, 1, 4)
      == Det4MinorTerms(m00, m01, m02, m03, m10, m11, m12, m13, m20, m21, m22, m23, m30, m31, m32, m33)
  {
    DotPrefix4(Grid4(m00, m01, m02, m03, m10, m11, m12, m13, m20, m21, m22, m23, m30, m31, m32, m33), Adjugate4Terms(m00, m01, m02, m03, m10, m11, m12, m13, m20, m21, m22, m23, m30, m31, m32, m33), 1, 1);
    AdjugateEntry4_11(m00, m01, m02, m03, m10, m11, m12, m13, m20, m21, m22, m23, m30, m31, m32, m33);
  }

  lemma AdjugateDot4_12(m00: real, m01: real, m02: real, m03: real, m10: real, m11: real, m12: real, m13: real,
    m20: real, m21: real, m22: real, m23: real, m30: real, m31: real, m32: real, m33: real)
    ensures DotPrefix(Grid4(m00, m01, m02, m03, m10, m11, m12, m13, m20, m21, m22, m23, m30, m31, m32, m33), Adjugate4Terms(m00, m01, m02, m03, m10, m11, m12, m13, m20, m21, m22, m23, m30, m31, m32, m33), 1, 2, 4)
      == 0.0
  {
    DotPrefix4(Grid4(m00, m01, m02, m03, m10, m11, m12, m13, m20, m21, m22, m23, m30, m31, m32, m33), Adjugate4Terms(m00, m01, m02, m03, m10, m11, m12, m13, m20, m21, m22, m23, m30, m31, m32, m33), 1, 2);
    AdjugateEntry4_12(m00, m01, m02, m03, m10, m11, m12, m13, m20, m21, m22, m23, m30, m31, m32, m33);
  }

  lemma AdjugateDot4_13(m00: real, m01: real, m02: real, m03: real, m10: real, m11: real, m12: real, m13: real,
    m20: real, m21: real, m22: real, m23: real, m30: real, m31: real, m32: real, m33: real)
    ensures DotPrefix(Grid4(m00, m01, m02, m03, m10, m11, m12, m13, m20, m21, m22, m23, m30, m31, m32, m33), Adjugate4Terms(m00, m01, m02, m03, m10, m11, m12, m13, m20, m21, m22, m23, m30, m31, m32, m33), 1, 3, 4)
      == 0.0
  {
    DotPrefix4(Grid4(m00, m01, m02, m03, m10, m11, m12, m13, m20, m21, m22, m23, m30, m31, m32, m33), Adjugate4Terms(m00, m01, m02, m03, m10, m11, m12, m13, m20, m21, m22, m23, m30, m31, m32, m33), 1, 3);
    AdjugateEntry4_13(m00, m01, m02, m03, m10, m11, m12, m13, m20, m21, m22, m23, m30, m31, m32, m33);
  }

  lemma AdjugateDot4_20(m00: real, m01: real, m02: real, m03: real, m10: real, m11: real, m12: real, m13: real,
    m20: real, m21: real, m22: real, m23: real, m30: real, m31: real, m32: real, m33: real)
    ensures DotPrefix(Grid4(m00, m01, m02, m03, m10, m11, m12, m13, m20, m21, m22, m23, m30, m31, m32, m33), Adjugate4Terms(m00, m01, m02, m03, m10, m11, m12, m13, m20, m21, m22, m23, m30, m31, m32, m33), 2, 0, 4)
      == 0.0
  {
    DotPrefix4(Grid4(m00, m01, m02, m03, m10, m11, m12, m13, m20, m21, m22, m23, m30, m31, m32, m33), Adjugate4Terms(m00, m01, m02, m03, m10, m11, m12, m13, m20, m21, m22, m23, m30, m31, m32, m33), 2, 0);
    AdjugateEntry4_20(m00, m01, m02, m03, m10, m11, m12, m13, m20, m21, m22, m23, m30, m31, m32, m33);
  }

  lemma AdjugateDot4_21(m00: real, m01: real, m02: real, m03: real, m10: real, m11: real, m12: real, m13: real,
    m20: real, m21: real, m22: real, m23: real, m30: real, m31: real, m32: real, m33: real)
    ensures DotPrefix(Grid4(m00, m01, m02, m03, m10, m11, m12, m13, m20, m21, m22, m23, m30, m31, m32, m33), Adjugate4Terms(m00, m01, m02, m03, m10, m11, m12, m13, m20, m21, m22, m23, m30, m31, m32, m33), 2, 1, 4)
      == 0.0
  {
    DotPrefix4(Grid4(m00, m01, m02, m03, m10, m11, m12, m13, m20, m21, m22, m23, m30, m31, m32, m33), Adjugate4Terms(m00, m01, m02, m03, m10, m11, m12, m13, m20, m21, m22, m23, m30, m31, m32, m33), 2, 1);
    AdjugateEntry4_21(m00, m01, m02, m03, m10, m11, m12, m13, m20, m21, m22, m23, m30, m31, m32, m33);
  }

  lemma AdjugateDot4_22(m00: real, m01: real, m02: real, m03: real, m10: real, m11: real, m12: real, m13: real,
    m20: real, m21: real, m22: real, m23: real, m30: real, m31: real, m32: real, m33: real)
    ensures DotPrefix(Grid4(m00, m01, m02, m03, m10, m11, m12, m13, m20, m21, m22, m23, m30, m31, m32, m33), Adjugate4Terms(m00, m01, m02, m03, m10, m11, m12, m13, m20, m21, m22, m23, m30, m31, m32, m33), 2, 2, 4)
      == Det4MinorTerms(m00, m01, m02, m03, m10, m11, m12, m13, m20, m21, m22, m23, m30, m31, m32, m33)
  {
    DotPrefix4(Grid4(m00, m01, m02, m03, m10, m11, m12, m13, m20, m21, m22, m23, m30, m31, m32, m33), Adjugate4Terms(m00, m01, m02, m03, m10, m11, m12, m13, m20, m21, m22, m23, m30, m31, m32, m33), 2, 2);
    AdjugateEntry4_22(m00, m01, m02, m03, m10, m11, m12, m13, m20, m21, m22, m23, m30, m31, m32, m33);
  }

  lemma AdjugateDot4_23(m00: real, m01: real, m02: real, m03: real, m10: real, m11: real, m12: real, m13: real,
    m20: real, m21: real, m22: real, m23: real, m30: real, m31: real, m32: real, m33: real)
    ensures DotPrefix(Grid4(m00, m01, m02, m03, m10, m11, m12, m13, m20, m21, m22, m23, m30, m31, m32, m33), Adjugate4Terms(m00, m01, m02, m03, m10, m11, m12, m13, m20, m21, m22, m23, m30, m31, m32, m33), 2, 3, 4)
      == 0.0
  {
    DotPrefix4(Grid4(m00, m01, m02, m03, m10, m11, m12, m13, m20, m21, m22, m23, m30, m31, m32, m33), Adjugate4Terms(m00, m01, m02, m03, m10, m11, m12, m13, m20, m21, m22, m23, m30, m31, m32, m33), 2, 3);
    AdjugateEntry4_23(m00, m01, m02, m03, m10, m11, m12, m13, m20, m21, m22, m23, m30, m31, m32, m33);
  }

  lemma AdjugateDot4_30(m00: real, m01: real, m02: real, m03: real, m10: real, m11: real, m12: real, m13: real,
    m20: real, m21: real, m22: real, m23: real, m30: real, m31: real, m32: real, m33: real)
    ensures DotPrefix(Grid4(m00, m01, m02, m03, m10, m11, m12, m13, m20, m21, m22, m23, m30, m31, m32, m33), Adjugate4Terms(m00, m01, m02, m03, m10, m11, m12, m13, m20, m21, m22, m23, m30, m31, m32, m33), 3, 0, 4)
      == 0.0
  {
    DotPrefix4(Grid4(m00, m01, m02, m03, m10, m11, m12, m13, m20, m21, m22, m23, m30, m31, m32, m33), Adjugate4Terms(m00, m01, m02, m03, m10, m11, m12, m13, m20, m21, m22, m23, m30, m31, m32, m33), 3, 0);
    AdjugateEntry4_30(m00, m01, m02, m03, m10, m11, m12, m13, m20, m21, m22, m23, m30, m31, m32, m33);
  }

  lemma AdjugateDot4_31(m00: real, m01: real, m02: real, m03: real, m10: real, m11: real, m12: real, m13: real,
    m20: real, m21: real, m22: real, m23: real, m30: real, m31: real, m32: real, m33: real)
    ensures DotPrefix(Grid4(m00, m01, m02, m03, m10, m11, m12, m13, m20, m21, m22, m23, m30, m31, m32, m33), Adjugate4Terms(m00, m01, m02, m03, m10, m11, m12, m13, m20, m21, m22, m23, m30, m31, m32, m33), 3, 1, 4)
      == 0.0
  {
    DotPrefix4(Grid4(m00, m01, m02, m03, m10, m11, m12, m13, m20, m21, m22, m23, m30, m31, m32, m33), Adjugate4Terms(m00, m01, m02, m03, m10, m11, m12, m13, m20, m21, m22, m23, m30, m31, m32, m33), 3, 1);
    AdjugateEntry4_31(m00, m01, m02, m03, m10, m11, m12, m13, m20, m21, m22, m23, m30, m31, m32, m33);
  }

  lemma AdjugateDot4_32(m00: real, m01: real, m02: real, m03: real, m10: real, m11: real, m12: real, m13: real,
    m20: real, m21: real, m22: real, m23: real, m30: real, m31: real, m32: real, m33: real)
    ensures DotPrefix(Grid4(m00, m01, m02, m03, m10, m11, m12, m13, m20, m21, m22, m23, m30, m31, m32, m33), Adjugate4Terms(m00, m01, m02, m03, m10, m11, m12, m13, m20, m21, m22, m23, m30, m31, m32, m33), 3, 2, 4)
      == 0.0
  {
    DotPrefix4(Grid4(m00, m01, m02, m03, m10, m11, m12, m13, m20, m21, m22, m23, m30, m31, m32, m33), Adjugate4Terms(m00, m01, m02, m03, m10, m11, m12, m13, m20, m21, m22, m23, m30, m31, m32, m33), 3, 2);
    AdjugateEntry4_32(m00, m01, m02, m03, m10, m11, m12, m13, m20, m21, m22, m23, m30, m31, m32, m33);
  }

  lemma AdjugateDot4_33(m00: real, m01: real, m02: real, m03: real, m10: real, m11: real, m12: real, m13: real,
    m20: real, m21: real, m22: real, m23: real, m30: real, m31: real, m32: real, m33: real)
    ensures DotPrefix(Grid4(m00, m01, m02, m03, m10, m11, m12, m13, m20, m21, m22, m23, m30, m31, m32, m33), Adjugate4Terms(m00, m01, m02, m03, m10, m11, m12, m13, m20, m21, m22, m23, m30, m31, m32, m33), 3, 3, 4)
      == Det4MinorTerms(m00, m01, m02, m03, m10, m11, m12, m13, m20, m21, m22, m23, m30, m31, m32, m33)
  {
    DotPrefix4(Grid4(m00, m01, m02, m03, m10, m11, m12, m13, m20, m21, m22, m23, m30, m31, m32, m33), Adjugate4Terms(m00, m01, m02, m03, m10, m11, m12, m13, m20, m21, m22, m23, m30, m31, m32, m33), 3, 3);
    AdjugateEntry4_33(m00, m01, m02, m03, m10, m11, m12, m13, m20, m21, m22, m23, m30, m31, m32, m33);
  }

  /** Cell (i, j) of M x adj(M). */
  lemma AdjugateCell4(g: Grid, i: nat, j: nat)
    requires IsGrid(g, 4, 4) && i < 4 && j < 4
    ensures DotPrefix(g, Adjugate4(g), i, j, 4) == if i == j then Det4Minors(g) else 0.0
  {
    Grid4Cells(g);
    if i == 0 && j == 0 {
      AdjugateDot4_00(g[0][0], g[0][1], g[0][2], g[0][3], g[1][0], g[1][1], g[1][2], g[1][3], g[2][0], g[2][1], g[2][2], g[2][3], g[3][0], g[3][1], g[3][2], g[3][3]);
    } else if i == 0 && j == 1 {
      AdjugateDot4_01(g[0][0], g[0][1], g[0][2], g[0][3], g[1][0], g[1][1], g[1][2], g[1][3], g[2][0], g[2][1], g[2][2], g[2][3], g[3][0], g[3][1], g[3][2], g[3][3]);
    } else if i == 0 && j == 2 {
      AdjugateDot4_02(g[0][0], g[0][1], g[0][2], g[0][3], g[1][0], g[1][1], g[1][2], g[1][3], g[2][0], g[2][1], g[2][2], g[2][3], g[3][0], g[3][1], g[3][2], g[3][3]);
    } else if i == 0 && j == 3 {
      AdjugateDot4_03(g[0][0], g[0][1], g[0][2], g[0][3], g[1][0], g[1][1], g[1][2], g[1][3], g[2][0], g[2][1], g[2][2], g[2][3], g[3][0], g[3][1], g[3][2], g[3][3]);
    } else if i == 1 && j == 0 {
      AdjugateDot4_10(g[0][0], g[0][1], g[0][2], g[0][3], g[1][0], g[1][1], g[1][2], g[1][3], g[2][0], g[2][1], g[2][2], g[2][3], g[3][0], g[3][1], g[3][2], g[3][3]);
    } else if i == 1 && j == 1 {
      AdjugateDot4_11(g[0][0], g[0][1], g[0][2], g[0][3], g[1][0], g[1][1], g[1][2], g[1][3], g[2][0], g[2][1], g[2][2], g[2][3], g[3][0], g[3][1], g[3][2], g[3][3]);
    } else if i == 1 && j == 2 {
      AdjugateDot4_12(g[0][0], g[0][1], g[0][2], g[0][3], g[1][0], g[1][1], g[1][2], g[1][3], g[2][0], g[2][1], g[2][2], g[2][3], g[3][0], g[3][1], g[3][2], g[3][3]);
    } else if i == 1 && j == 3 {
      AdjugateDot4_13(g[0][0], g[0][1], g[0][2], g[0][3], g[1][0], g[1][1], g[1][2], g[1][3], g[2][0], g[2][1], g[2][2], g[2][3], g[3][0], g[3][1], g[3][2], g[3][3]);
    } else if i == 2 && j == 0 {
      AdjugateDot4_20(g[0][0], g[0][1], g[0][2], g[0][3], g[1][0], g[1][1], g[1][2], g[1][3], g[2][0], g[2][1], g[2][2], g[2][3], g[3][0], g[3][1], g[3][2], g[3][3]);
    } else if i == 2 && j == 1 {
      AdjugateDot4_21(g[0][0], g[0][1], g[0][2], g[0][3], g[1][0], g[1][1], g[1][2], g[1][3], g[2][0], g[2][1], g[2][2], g[2][3], g[3][0], g[3][1], g[3][2], g[3][3]);
    } else if i == 2 && j == 2 {
      AdjugateDot4_22(g[0][0], g[0][1], g[0][2], g[0][3], g[1][0], g[1][1], g[1][2], g[1][3], g[2][0], g[2][1], g[2][2], g[2][3], g[3][0], g[3][1], g[3][2], g[3][3]);
    } else if i == 2 && j == 3 {
      AdjugateDot4_23(g[0][0], g[0][1], g[0][2], g[0][3], g[1][0], g[1][1], g[1][2], g[1][3], g[2][0], g[2][1], g[2][2], g[2][3], g[3][0], g[3][1], g[3][2], g[3][3]);
    } else if i == 3 && j == 0 {
      AdjugateDot4_30(g[0][0], g[0][1], g[0][2], g[0][3], g[1][0], g[1][1], g[1][2], g[1][3], g[2][0], g[2][1], g[2][2], g[2][3], g[3][0], g[3][1], g[3][2], g[3][3]);
    } else if i == 3 && j == 1 {
      AdjugateDot4_31(g[0][0], g[0][1], g[0][2], g[0][3], g[1][0], g[1][1], g[1][2], g[1][3], g[2][0], g[2][1], g[2][2], g[2][3], g[3][0], g[3][1], g[3][2], g[3][3]);
    } else if i == 3 && j == 2 {
      AdjugateDot4_32(g[0][0], g[0][1], g[0][2], g[0][3], g[1][0], g[1][1], g[1][2], g[1][3], g[2][0], g[2][1], g[2][2], g[2][3], g[3][0], g[3][1], g[3][2], g[3][3]);
    } else {
      AdjugateDot4_33(g[0][0], g[0][1], g[0][2], g[0][3], g[1][0], g[1][1], g[1][2], g[1][3], g[2][0], g[2][1], g[2][2], g[2][3], g[3][0], g[3][1], g[3][2], g[3][3]);
    }
  }

  lemma AdjugateProduct4(g: Grid)
    requires IsGrid(g, 4, 4)
    ensures Product(g, Adjugate4(g), 4, 4, 4) == Diagonal(4, Det4Minors(g))
  {
    var a := Adjugate4(g);
    forall i, j | 0 <= i < 4 && 0 <= j < 4
      ensures Product(g, a, 4, 4, 4)[i][j] == Diagonal(4, Det4Minors(g))[i][j]
    {
      AdjugateCell4(g, i, j);
    }
    GridExtensionality(Product(g, a, 4, 4, 4), Diagonal(4, Det4Minors(g)), 4, 4);
  }

  // ---------------------------------------------------------------- inverses

  /**
   * The guard every closed-form inverse shares: the zero matrix when `|det| <= eps`,
   * otherwise the adjugate scaled by `1 / det`.
   */
  function Guarded(adj: Grid, det: real, n: nat, eps: real): (r: Grid)
    requires IsGrid(adj, n, n) && 0.0 < eps
    ensures IsGrid(r, n, n)
    ensures Abs(det) <= eps ==> r == Zero(n, n)
    ensures Abs(det) > eps ==> forall i, j :: 0 <= i < n && 0 <= j < n ==> r[i][j] == adj[i][j] * (1.0 / det)
  {
    if Abs(det) <= eps then Zero(n, n) else ScaleGrid(adj, 1.0 / det)
  }

  /** A guarded inverse built from an adjugate is a right inverse once `|det| > eps > 0`. */
  lemma GuardedIsRightInverse(g: Grid, adj: Grid, det: real, n: nat, eps: real)
    requires IsGrid(g, n, n) && IsGrid(adj, n, n)
    requires Product(g, adj, n, n, n) == Diagonal(n, det)
    requires 0.0 < eps < Abs(det)
    ensures Product(g, Guarded(adj, det, n, eps), n, n, n) == Identity(n)
  {
    ProductScaleRight(g, adj, n, n, n, 1.0 / det);
    ScaleDiagonalInverse(n, det);
  }

  function Adjugate1(g: Grid): (a: Grid)
    requires IsGrid(g, 1, 1)
    ensures IsGrid(a, 1, 1)
  {
    [[1.0]]
  }

  lemma AdjugateProduct1(g: Grid)
    requires IsGrid(g, 1, 1)
    ensures Product(g, Adjugate1(g), 1, 1, 1) == Diagonal(1, Det1(g))
  {
    var a := Adjugate1(g);
    assert DotPrefix(g, a, 0, 0, 1) == g[0][0] * a[0][0];
    GridExtensionality(Product(g, a, 1, 1, 1), Diagonal(1, Det1(g)), 1, 1);
  }

  function Inverse1(g: Grid, eps: real): (r: Grid)
    requires IsGrid(g, 1, 1) && 0.0 < eps
    ensures IsGrid(r, 1, 1)
  {
    Guarded(Adjugate1(g), Det1(g), 1, eps)
  }

  function Inverse2(g: Grid, eps: real): (r: Grid)
    requires IsGrid(g, 2, 2) && 0.0 < eps
    ensures IsGrid(r, 2, 2)
  {
    Guarded(Adjugate2(g), Det2(g), 2, eps)
  }

  /** `inverse_3` with its determinant taken along the first row, as `determinant()` does. */
  function Inverse3(g: Grid, eps: real): (r: Grid)
    requires IsGrid(g, 3, 3) && 0.0 < eps
    ensures IsGrid(r, 3, 3)
  {
    Guarded(Adjugate3(g), Det3(g), 3, eps)
  }

  function Inverse4(g: Grid, eps: real): (r: Grid)
    requires IsGrid(g, 4, 4) && 0.0 < eps
    ensures IsGrid(r, 4, 4)
  {
    Guarded(Adjugate4(g), Det4Minors(g), 4, eps)
  }

  lemma Inverse1Correct(g: Grid, eps: real)
    requires IsGrid(g, 1, 1) && 0.0 < eps
    ensures Abs(Det1(g)) <= eps ==> Inverse1(g, eps) == Zero(1, 1)
    ensures eps < Abs(Det1(g)) ==> Product(g, Inverse1(g, eps), 1, 1, 1) == Identity(1)
  {
    if eps < Abs(Det1(g)) {
      AdjugateProduct1(g);
      GuardedIsRightInverse(g, Adjugate1(g), Det1(g), 1, eps);
    }
  }

  lemma Inverse2Correct(g: Grid, eps: real)
    requires IsGrid(g, 2, 2) && 0.0 < eps
    ensures Abs(Det2(g)) <= eps ==> Inverse2(g, eps) == Zero(2, 2)
    ensures eps < Abs(Det2(g)) ==> Product(g, Inverse2(g, eps), 2, 2, 2) == Identity(2)
  {
    if eps < Abs(Det2(g)) {
      AdjugateProduct2(g);
      GuardedIsRightInverse(g, Adjugate2(g), Det2(g), 2, eps);
    }
  }

  lemma Inverse3Correct(g: Grid, eps: real)
    requires IsGrid(g, 3, 3) && 0.0 < eps
    ensures Abs(Det3(g)) <= eps ==> Inverse3(g, eps) == Zero(3, 3)
    ensures eps < Abs(Det3(g)) ==> Product(g, Inverse3(g, eps), 3, 3, 3) == Identity(3)
  {
    if eps < Abs(Det3(g)) {
      AdjugateProduct3(g);
      GuardedIsRightInverse(g, Adjugate3(g), Det3(g), 3, eps);
    }
  }

  /** The guard of `inverse_4` uses the minor-based determinant, which is the 24-term one. */
  lemma Inverse4Correct(g: Grid, eps: real)
    requires IsGrid(g, 4, 4) && 0.0 < eps
    ensures Abs(Det4(g)) <= eps ==> Inverse4(g, eps) == Zero(4, 4)
    ensures eps < Abs(Det4(g)) ==> Product(g, Inverse4(g, eps), 4, 4, 4) == Identity(4)
  {
    Det4MinorsAgree(g);
    if eps < Abs(Det4(g)) {
      AdjugateProduct4(g);
      GuardedIsRightInverse(g, Adjugate4(g), Det4Minors(g), 4, eps);
    }
  }

  /** [[1, 2], [2, 4]] is singular: its closed-form inverse is the zero matrix. */
  lemma Inverse2SingularExample(eps: real)
    requires 0.0 < eps
    ensures Inverse2([[1.0, 2.0], [2.0, 4.0]], eps) == Zero(2, 2)
  {
    assert Det2([[1.0, 2.0], [2.0, 4.0]]) == 0.0;
  }

  // ---------------------------------------------------------------- inverse_3 as written

  /**
   * The determinant `inverse_3` computes: the first-row entries are paired with the
   * cofactors `c10` and `c20` of the first column instead of `c01` and `c02`.
   */
  function Det3AsWritten(g: Grid): real
    requires IsGrid(g, 3, 3)
  {
    var m00, m01, m02 := g[0][0], g[0][1], g[0][2];
    var m11, m12 := g[1][1], g[1][2];
    var m21, m22 := g[2][1], g[2][2];
    var c00, c10, c20 := m11 * m22 - m12 * m21, m01 * m22 - m02 * m21, m01 * m12 - m02 * m11;
    m00 * c00 - m01 * c10 + m02 * c20
  }

  function Inverse3AsWritten(g: Grid, eps: real): (r: Grid)
    requires IsGrid(g, 3, 3) && 0.0 < eps
    ensures IsGrid(r, 3, 3)
  {
    Guarded(Adjugate3(g), Det3AsWritten(g), 3, eps)
  }

  /**
   * The shear [[1, 1, 0], [0, 1, 0], [0, 0, 1]] has determinant 1 and an inverse, but the
   * determinant `inverse_3` computes is 0, so it returns the zero matrix.
   */
  lemma Inverse3AsWrittenRejectsShear(eps: real)
    requires 0.0 < eps < 1.0
    ensures var g := [[1.0, 1.0, 0.0], [0.0, 1.0, 0.0], [0.0, 0.0, 1.0]];
      Det3(g) == 1.0 && Det3AsWritten(g) == 0.0
      && Inverse3AsWritten(g, eps) == Zero(3, 3)
      && Product(g, Inverse3(g, eps), 3, 3, 3) == Identity(3)
  {
    var g := [[1.0, 1.0, 0.0], [0.0, 1.0, 0.0], [0.0, 0.0, 1.0]];
    assert Det3(g) == 1.0;
    assert Det3AsWritten(g) == 0.0;
    Inverse3Correct(g, eps);
  }
}
