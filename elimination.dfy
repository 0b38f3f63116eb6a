// The two elimination algorithms of include/pbrt/math/matrix.hpp, stated step by step on
// values: the determinant by LU elimination with partial pivoting (sizes above 4) and the
// Gauss-Jordan inverse on the augmented block [A | I] (`inverse_n`). The Matrix class runs
// both in place on a flat buffer and is proved to compute exactly these functions.
module Elimination {
  import opened Scalar
  import opened Wrappers
  import opened Grids

  // ---------------------------------------------------------------- partial pivoting

  /**
   * The pivot search of both algorithms over column `i`, rows `k..n-1`: a row replaces the
   * current best only when its magnitude is strictly larger.
   */
  function PivotScan(g: Grid, n: nat, w: nat, i: nat, k: nat, best: nat): (p: nat)
    requires IsGrid(g, n, w) && i < w && i <= best < k <= n
    requires forall t :: i <= t < k ==> Abs(g[t][i]) <= Abs(g[best][i])
    requires forall t :: i <= t < best ==> Abs(g[t][i]) < Abs(g[best][i])
    ensures i <= p < n
    ensures forall t :: i <= t < n ==> Abs(g[t][i]) <= Abs(g[p][i])
    ensures forall t :: i <= t < p ==> Abs(g[t][i]) < Abs(g[p][i])
    decreases n - k
  {
    if k == n then best
    else if Abs(g[k][i]) > Abs(g[best][i]) then PivotScan(g, n, w, i, k + 1, k)
    else PivotScan(g, n, w, i, k + 1, best)
  }

  /** One comparison of the pivot scan: row `k` replaces the best so far only when strictly
   * larger, so `next` is a first row of largest magnitude among rows `i..k`. */
  lemma PivotScanNextBest(g: Grid, n: nat, w: nat, i: nat, k: nat, best: nat, next: nat)
    requires IsGrid(g, n, w) && i < w && i <= best < k < n
    requires forall t :: i <= t < k ==> Abs(g[t][i]) <= Abs(g[best][i])
    requires forall t :: i <= t < best ==> Abs(g[t][i]) < Abs(g[best][i])
    requires next == if Abs(g[k][i]) > Abs(g[best][i]) then k else best
    ensures forall t :: i <= t < k + 1 ==> Abs(g[t][i]) <= Abs(g[next][i])
    ensures forall t :: i <= t < next ==> Abs(g[t][i]) < Abs(g[next][i])
  {
  }

  /** Continuing the scan from `next` ends where the scan from `best` ends. */
  lemma PivotScanNextSame(g: Grid, n: nat, w: nat, i: nat, k: nat, best: nat, next: nat)
    requires IsGrid(g, n, w) && i < w && i <= best < k < n
    requires forall t :: i <= t < k ==> Abs(g[t][i]) <= Abs(g[best][i])
    requires forall t :: i <= t < best ==> Abs(g[t][i]) < Abs(g[best][i])
    requires next == if Abs(g[k][i]) > Abs(g[best][i]) then k else best
    ensures PivotScan(g, n, w, i, k + 1, next) == PivotScan(g, n, w, i, k, best)
  {
  }

  /** The pivot row of step `i`: the first row at or below `i` of largest magnitude in column `i`. */
  function Pivot(g: Grid, n: nat, w: nat, i: nat): (p: nat)
    requires IsGrid(g, n, w) && i < n && i < w
    ensures i <= p < n
    ensures forall t :: i <= t < n ==> Abs(g[t][i]) <= Abs(g[p][i])
    ensures forall t :: i <= t < p ==> Abs(g[t][i]) < Abs(g[p][i])
  {
    PivotScan(g, n, w, i, i + 1, i)
  }

  /** Rows `i` and `p` exchanged, every other row kept. */
  function SwapRows(g: Grid, i: nat, p: nat): (h: Grid)
    requires i < |g| && p < |g|
    ensures |h| == |g|
    ensures forall k :: 0 <= k < |g| ==> h[k] == if k == i then g[p] else if k == p then g[i] else g[k]
  {
    g[i := g[p]][p := g[i]]
  }

  lemma SwapRowsIsGrid(g: Grid, n: nat, w: nat, i: nat, p: nat)
    requires IsGrid(g, n, w) && i < n && p < n
    ensures IsGrid(SwapRows(g, i, p), n, w)
  {
  }

  // ---------------------------------------------------------------- LU determinant

  /** The update `x -= factor * y` of both elimination loops. */
  function Reduce(x: real, factor: real, y: real): real
  {
    x - factor * y
  }

  /**
   * One elimination step of `determinant()`: every row below `i` loses `factor` times row
   * `i` in the columns right of `i`, with `factor = g[k][i] / g[i][i]`. Column `i` itself
   * is left as it was; later steps never read it again.
   */
  function EliminateBelow(g: Grid, n: nat, i: nat): (h: Grid)
    requires IsGrid(g, n, n) && i < n && g[i][i] != 0.0
    ensures IsGrid(h, n, n)
  {
    seq(n, k requires 0 <= k < n => seq(n, j requires 0 <= j < n =>
      if k > i && j > i then g[k][j] - (g[k][i] / g[i][i]) * g[i][j] else g[k][j]))
  }

  /** A cell of `EliminateBelow`, written with `Reduce`. */
  lemma EliminateBelowCell(g: Grid, n: nat, i: nat, k: nat, j: nat)
    requires IsGrid(g, n, n) && i < n && g[i][i] != 0.0 && k < n && j < n
    ensures EliminateBelow(g, n, i)[k][j]
         == if k > i && j > i then Reduce(g[k][j], g[k][i] / g[i][i], g[i][j]) else g[k][j]
  {
  }

  /** One LU step with pivot row `p`: exchange rows `i` and `p` when they differ, then eliminate. */
  function LuStep(g: Grid, n: nat, i: nat, p: nat): (h: Grid)
    requires IsGrid(g, n, n) && i <= p < n && g[p][i] != 0.0
    ensures IsGrid(h, n, n)
  {
    var s := if p != i then SwapRows(g, i, p) else g;
    EliminateBelow(s, n, i)
  }

  /** The running determinant after a step: negated by a row exchange, then times the pivot. */
  function NextDet(det: real, pivot: real, swapped: bool): real
  {
    (if swapped then -det else det) * pivot
  }

  /**
   * The LU loop from step `i` on with running determinant `det`: zero as soon as the pivot's
   * magnitude is below `eps`; otherwise a row exchange negates `det`, the pivot (which the
   * exchange moves to row `i`) multiplies it, and the rows below are eliminated.
   */
  function LuFrom(g: Grid, n: nat, i: nat, det: real, eps: real): real
    requires IsGrid(g, n, n) && i <= n && 0.0 < eps
    decreases n - i
  {
    if i == n then det
    else
      var p := Pivot(g, n, n, i);
      if Abs(g[p][i]) < eps then 0.0
      else LuFrom(LuStep(g, n, i, p), n, i + 1, NextDet(det, g[p][i], p != i), eps)
  }

  function LuDeterminant(g: Grid, n: nat, eps: real): real
    requires IsGrid(g, n, n) && 0.0 < eps
  {
    LuFrom(g, n, 0, 1.0, eps)
  }

  /** A row exchange negates the running determinant before the pivot multiplies it. */
  lemma NextDetNegates(det: real, pivot: real, swapped: bool)
    ensures NextDet(-det, pivot, swapped) == -NextDet(det, pivot, swapped)
    ensures NextDet(det, pivot, true) == -NextDet(det, pivot, false)
  {
  }

  /** The product of the diagonal entries from `i` on, accumulated into `acc` left to right. */
  function DiagonalProduct(g: Grid, n: nat, i: nat, acc: real): real
    requires IsGrid(g, n, n) && i <= n
    decreases n - i
  {
    if i == n then acc else DiagonalProduct(g, n, i + 1, acc * g[i][i])
  }

  /** Zero below the diagonal in every column from `i` on. */
  predicate UpperFrom(g: Grid, n: nat, i: nat)
    requires IsGrid(g, n, n)
  {
    forall k, j :: i <= j < k < n ==> g[k][j] == 0.0
  }

  /** A column whose only nonzero entry at or below row `i` is the diagonal one pivots on row `i`. */
  lemma PivotOnDiagonal(g: Grid, n: nat, w: nat, i: nat)
    requires IsGrid(g, n, w) && i < n && i < w && g[i][i] != 0.0
    requires forall k :: i < k < n ==> g[k][i] == 0.0
    ensures Pivot(g, n, w, i) == i
  {
    assert Abs(g[i][i]) > 0.0;
    assert forall t :: i < t < n ==> Abs(g[t][i]) == 0.0;
  }

  /** Elimination below a column that is already zero below the diagonal changes nothing. */
  lemma EliminateBelowCleared(g: Grid, n: nat, i: nat)
    requires IsGrid(g, n, n) && i < n && g[i][i] != 0.0
    requires forall k :: i < k < n ==> g[k][i] == 0.0
    ensures EliminateBelow(g, n, i) == g
  {
    var e := EliminateBelow(g, n, i);
    forall k, j | 0 <= k < n && 0 <= j < n
      ensures e[k][j] == g[k][j]
    {
      if k > i && j > i {
        assert g[k][i] / g[i][i] == 0.0;
      }
    }
    GridExtensionality(e, g, n, n);
  }

  /**
   * On an upper-triangular matrix whose diagonal entries all reach `eps`, no row is exchanged,
   * no row changes, and the determinant is the product of the diagonal.
   */
  lemma {:induction false} LuTriangular(g: Grid, n: nat, i: nat, det: real, eps: real)
    requires IsGrid(g, n, n) && i <= n && 0.0 < eps
    requires UpperFrom(g, n, i)
    requires forall d :: i <= d < n ==> eps <= Abs(g[d][d])
    ensures LuFrom(g, n, i, det, eps) == DiagonalProduct(g, n, i, det)
    decreases n - i
  {
    if i < n {
      assert eps <= Abs(g[i][i]);
      PivotOnDiagonal(g, n, n, i);
      EliminateBelowCleared(g, n, i);
      assert LuStep(g, n, i, i) == g;
      assert NextDet(det, g[i][i], false) == det * g[i][i];
      LuTriangular(g, n, i + 1, det * g[i][i], eps);
    }
  }

  function Pow(v: real, k: nat): real
  {
    if k == 0 then 1.0 else v * Pow(v, k - 1)
  }

  lemma MulCongruent(a: real, x: real, y: real)
    requires x == y
    ensures a * x == a * y
  {
  }

  lemma MulAssociates(a: real, b: real, c: real)
    ensures (a * b) * c == a * (b * c)
  {
  }

  lemma PowUnfold(v: real, k: nat)
    requires 0 < k
    ensures Pow(v, k) == v * Pow(v, k - 1)
  {
  }

  /** A diagonal that is `v` from `i` on contributes `v^(n-i)`. */
  lemma {:induction false} DiagonalProductConstant(g: Grid, n: nat, v: real, i: nat, acc: real)
    requires IsGrid(g, n, n) && i <= n
    requires forall d :: i <= d < n ==> g[d][d] == v
    ensures DiagonalProduct(g, n, i, acc) == acc * Pow(v, n - i)
    decreases n - i
  {
    if i < n {
      var rest := Pow(v, n - (i + 1));
      calc {
        DiagonalProduct(g, n, i, acc);
        DiagonalProduct(g, n, i + 1, acc * g[i][i]);
        { DiagonalProductConstant(g, n, v, i + 1, acc * g[i][i]); }
        (acc * g[i][i]) * rest;
        { MulAssociates(acc, g[i][i], rest); }
        acc * (g[i][i] * rest);
        { MulCongruent(rest, g[i][i], v); MulCongruent(acc, g[i][i] * rest, v * rest); }
        acc * (v * rest);
        { PowUnfold(v, n - i); MulCongruent(acc, v * rest, Pow(v, n - i)); }
        acc * Pow(v, n - i);
      }
    }
  }

  /** det(diagonal(v)) = v^n once `|v|` reaches `eps`. */
  lemma LuDiagonal(n: nat, v: real, eps: real)
    requires 0.0 < eps <= Abs(v)
    ensures LuDeterminant(Diagonal(n, v), n, eps) == Pow(v, n)
  {
    LuTriangular(Diagonal(n, v), n, 0, 1.0, eps);
    DiagonalProductConstant(Diagonal(n, v), n, v, 0, 1.0);
  }

  /** det(I5) = 1 and det(diagonal(2)) = 64 for 6 x 6. */
  lemma LuExamples(eps: real)
    requires 0.0 < eps <= 1.0
    ensures LuDeterminant(Identity(5), 5, eps) == 1.0
    ensures LuDeterminant(Diagonal(6, 2.0), 6, eps) == 64.0
  {
    LuDiagonal(5, 1.0, eps);
    LuDiagonal(6, 2.0, eps);
    assert Pow(1.0, 5) == 1.0;
    assert Pow(2.0, 6) == 64.0;
  }

  /** A step keeps a column that is zero in rows `i..` zero in rows `i+1..`. */
  lemma LuStepZeroColumn(g: Grid, n: nat, i: nat, p: nat, c: nat)
    requires IsGrid(g, n, n) && i <= p < n && g[p][i] != 0.0 && c < n
    requires forall k :: i <= k < n ==> g[k][c] == 0.0
    ensures forall k :: i + 1 <= k < n ==> LuStep(g, n, i, p)[k][c] == 0.0
  {
    var s := if p != i then SwapRows(g, i, p) else g;
    forall k | i <= k < n
      ensures s[k][c] == 0.0
    {
    }
    var e := LuStep(g, n, i, p);
    forall k | i + 1 <= k < n
      ensures e[k][c] == 0.0
    {
      assert s[k][c] == 0.0 && s[i][c] == 0.0;
    }
  }

  /** A column that is zero in every remaining row makes the determinant 0. */
  lemma {:induction false} LuZeroColumn(g: Grid, n: nat, i: nat, c: nat, det: real, eps: real)
    requires IsGrid(g, n, n) && i <= c < n && 0.0 < eps
    requires forall k :: i <= k < n ==> g[k][c] == 0.0
    ensures LuFrom(g, n, i, det, eps) == 0.0
    decreases n - i
  {
    var p := Pivot(g, n, n, i);
    if Abs(g[p][i]) >= eps {
      assert i < c;
      LuStepZeroColumn(g, n, i, p, c);
      LuZeroColumn(LuStep(g, n, i, p), n, i + 1, c, NextDet(det, g[p][i], p != i), eps);
    }
  }

  /** Exchanging rows 0 and 1 of the identity gives determinant -1: the swap negates. */
  lemma LuSwapNegates(n: nat, eps: real)
    requires 2 <= n && 0.0 < eps <= 1.0
    ensures LuDeterminant(SwapRows(Identity(n), 0, 1), n, eps) == -1.0
  {
    LuSwapFirstStep(n, eps);
    LuIdentityFrom(n, 1, -1.0, eps);
  }

  /** The first step on the swapped identity exchanges the rows back and negates. */
  lemma LuSwapFirstStep(n: nat, eps: real)
    requires 2 <= n && 0.0 < eps <= 1.0
    ensures LuDeterminant(SwapRows(Identity(n), 0, 1), n, eps) == LuFrom(Identity(n), n, 1, -1.0, eps)
  {
    var id := Identity(n);
    var g := SwapRows(id, 0, 1);
    SwapRowsIsGrid(id, n, n, 0, 1);
    var p := Pivot(g, n, n, 0);
    assert g[1][0] == 1.0 && g[0][0] == 0.0;
    assert forall k :: 1 < k < n ==> g[k][0] == 0.0;
    assert p == 1;
    var h := SwapRows(g, 0, 1);
    GridExtensionality(h, id, n, n);
    EliminateBelowCleared(id, n, 0);
    assert LuStep(g, n, 0, 1) == id;
  }

  /** From step `i` on, the identity leaves the running determinant as it is. */
  lemma LuIdentityFrom(n: nat, i: nat, det: real, eps: real)
    requires i <= n && 0.0 < eps <= 1.0
    ensures LuFrom(Identity(n), n, i, det, eps) == det
  {
    var id := Identity(n);
    LuTriangular(id, n, i, det, eps);
    DiagonalProductConstant(id, n, 1.0, i, det);
    PowOne(n - i);
  }

  lemma {:induction false} PowOne(k: nat)
    ensures Pow(1.0, k) == 1.0
  {
    if k > 0 {
      PowOne(k - 1);
    }
  }

  // ---------------------------------------------------------------- Gauss-Jordan inverse

  /** The block [A | I] that `inverse_n` starts from: `n` rows of width `2n`. */
  function Augment(g: Grid, n: nat): (a: Grid)
    requires IsGrid(g, n, n)
    ensures IsGrid(a, n, 2 * n)
    ensures forall i, j :: 0 <= i < n && 0 <= j < n ==> a[i][j] == g[i][j]
    ensures forall i, j :: 0 <= i < n && n <= j < 2 * n ==> a[i][j] == if j - n == i then 1.0 else 0.0
  {
    seq(n, i requires 0 <= i < n => seq(2 * n, j requires 0 <= j < 2 * n =>
      if j < n then g[i][j] else if j - n == i then 1.0 else 0.0))
  }

  /** Row `i` divided by its pivot, the pivot read once before the division loop. */
  function NormalizeRow(a: Grid, n: nat, w: nat, i: nat): (h: Grid)
    requires IsGrid(a, n, w) && i < n && i < w && a[i][i] != 0.0
    ensures IsGrid(h, n, w)
  {
    a[i := seq(w, j requires 0 <= j < w => a[i][j] / a[i][i])]
  }

  /** Every row but `i` loses `a[k][i]` times row `i`, the factor read before the row loop. */
  function EliminateOthers(a: Grid, n: nat, w: nat, i: nat): (h: Grid)
    requires IsGrid(a, n, w) && i < n && i < w
    ensures IsGrid(h, n, w)
  {
    seq(n, k requires 0 <= k < n => seq(w, j requires 0 <= j < w =>
      if k == i then a[k][j] else a[k][j] - a[k][i] * a[i][j]))
  }

  /** A cell of `EliminateOthers`, written with `Reduce`. */
  lemma EliminateOthersCell(a: Grid, n: nat, w: nat, i: nat, k: nat, j: nat)
    requires IsGrid(a, n, w) && i < n && i < w && k < n && j < w
    ensures EliminateOthers(a, n, w, i)[k][j] == if k == i then a[k][j] else Reduce(a[k][j], a[k][i], a[i][j])
  {
  }

  /** One Gauss-Jordan step on the augmented block: pivot, exchange, normalise, eliminate. */
  function GjStep(a: Grid, n: nat, i: nat, p: nat): (h: Grid)
    requires IsGrid(a, n, 2 * n) && i <= p < n && a[p][i] != 0.0
    ensures IsGrid(h, n, 2 * n)
  {
    var s := if p != i then SwapRows(a, i, p) else a;
    EliminateOthers(NormalizeRow(s, n, 2 * n, i), n, 2 * n, i)
  }

  /** The Gauss-Jordan loop from step `i` on: `None` as soon as a pivot is at or below `eps`. */
  function GjFrom(a: Grid, n: nat, i: nat, eps: real): (r: Option<Grid>)
    requires IsGrid(a, n, 2 * n) && i <= n && 0.0 < eps
    ensures r.Some? ==> IsGrid(r.value, n, 2 * n)
    decreases n - i
  {
    if i == n then Some(a)
    else
      var p := Pivot(a, n, 2 * n, i);
      if Abs(a[p][i]) <= eps then None
      else GjFrom(GjStep(a, n, i, p), n, i + 1, eps)
  }

  /** The right `n` columns of the augmented block. */
  function RightHalf(a: Grid, n: nat): (r: Grid)
    requires IsGrid(a, n, 2 * n)
    ensures IsGrid(r, n, n)
    ensures forall i, j :: 0 <= i < n && 0 <= j < n ==> r[i][j] == a[i][j + n]
  {
    seq(n, i requires 0 <= i < n => seq(n, j requires 0 <= j < n => a[i][j + n]))
  }

  /** `inverse_n`: the right half after elimination, or the zero matrix without a pivot. */
  function InverseN(g: Grid, n: nat, eps: real): (r: Grid)
    requires IsGrid(g, n, n) && 0.0 < eps
    ensures IsGrid(r, n, n)
  {
    match GjFrom(Augment(g, n), n, 0, eps)
    case None => Zero(n, n)
    case Some(a) => RightHalf(a, n)
  }

  /** A Gauss-Jordan step keeps a column that is zero in rows `i..` zero in rows `i+1..`. */
  lemma GjStepZeroColumn(a: Grid, n: nat, i: nat, p: nat, c: nat)
    requires IsGrid(a, n, 2 * n) && i <= p < n && a[p][i] != 0.0 && c < n
    requires forall k :: i <= k < n ==> a[k][c] == 0.0
    ensures forall k :: i + 1 <= k < n ==> GjStep(a, n, i, p)[k][c] == 0.0
  {
    var s := if p != i then SwapRows(a, i, p) else a;
    var b := NormalizeRow(s, n, 2 * n, i);
    var e := GjStep(a, n, i, p);
    forall k | i + 1 <= k < n
      ensures e[k][c] == 0.0
    {
      assert s[k][c] == 0.0 && s[i][c] == 0.0;
      assert b[k][c] == 0.0 && b[i][c] == 0.0;
    }
  }

  /** A column of the left block that is zero in every remaining row stops the elimination. */
  lemma {:induction false} GjZeroColumn(a: Grid, n: nat, i: nat, c: nat, eps: real)
    requires IsGrid(a, n, 2 * n) && i <= c < n && 0.0 < eps
    requires forall k :: i <= k < n ==> a[k][c] == 0.0
    ensures GjFrom(a, n, i, eps) == None
    decreases n - i
  {
    var p := Pivot(a, n, 2 * n, i);
    if Abs(a[p][i]) > eps {
      GjStepZeroColumn(a, n, i, p, c);
      GjZeroColumn(GjStep(a, n, i, p), n, i + 1, c, eps);
    }
  }

  /** A matrix with a zero column has the zero matrix as its `inverse_n`. */
  lemma InverseNZeroColumn(g: Grid, n: nat, c: nat, eps: real)
    requires IsGrid(g, n, n) && c < n && 0.0 < eps
    requires forall k :: 0 <= k < n ==> g[k][c] == 0.0
    ensures InverseN(g, n, eps) == Zero(n, n)
  {
    GjZeroColumn(Augment(g, n), n, 0, c, eps);
  }

  /**
   * The augmented block of diagonal(v) after `i` steps: rows above `i` are normalised to
   * [e_k | e_k / v], the others are still [v e_k | e_k].
   */
  function DiagonalBlock(n: nat, v: real, i: nat): (a: Grid)
    requires v != 0.0
    ensures IsGrid(a, n, 2 * n)
  {
    seq(n, k requires 0 <= k < n => seq(2 * n, j requires 0 <= j < 2 * n =>
      if j == k then (if k < i then 1.0 else v)
      else if j == k + n then (if k < i then 1.0 / v else 1.0)
      else 0.0))
  }

  /** Step `i` on the diagonal block normalises row `i` and changes nothing else. */
  lemma GjDiagonalStep(n: nat, v: real, i: nat)
    requires v != 0.0 && i < n
    ensures DiagonalBlock(n, v, i)[i][i] == v
    ensures GjStep(DiagonalBlock(n, v, i), n, i, i) == DiagonalBlock(n, v, i + 1)
  {
    var a := DiagonalBlock(n, v, i);
    var b := NormalizeRow(a, n, 2 * n, i);
    var e := EliminateOthers(b, n, 2 * n, i);
    var next := DiagonalBlock(n, v, i + 1);
    forall k, j | 0 <= k < n && 0 <= j < 2 * n
      ensures e[k][j] == next[k][j]
    {
      if k != i {
        assert b[k][i] == 0.0;
      } else {
        assert b[i][j] == a[i][j] / v;
      }
    }
    GridExtensionality(e, next, n, 2 * n);
  }

  lemma {:induction false} GjDiagonalFrom(n: nat, v: real, i: nat, eps: real)
    requires 0.0 < eps < Abs(v) && i <= n
    ensures GjFrom(DiagonalBlock(n, v, i), n, i, eps) == Some(DiagonalBlock(n, v, n))
    decreases n - i
  {
    if i < n {
      GjDiagonalStep(n, v, i);
      PivotOnDiagonal(DiagonalBlock(n, v, i), n, 2 * n, i);
      GjDiagonalFrom(n, v, i + 1, eps);
    }
  }

  /** inverse_n(diagonal(v)) = diagonal(1 / v) when `|v| > eps`; the identity is its own inverse. */
  lemma InverseNDiagonal(n: nat, v: real, eps: real)
    requires 0.0 < eps < Abs(v)
    ensures InverseN(Diagonal(n, v), n, eps) == Diagonal(n, 1.0 / v)
  {
    AugmentDiagonal(n, v);
    GjDiagonalFrom(n, v, 0, eps);
    RightHalfDiagonal(n, v);
  }

  /** [diagonal(v) | I] is the diagonal block before any step. */
  lemma AugmentDiagonal(n: nat, v: real)
    requires v != 0.0
    ensures Augment(Diagonal(n, v), n) == DiagonalBlock(n, v, 0)
  {
    GridExtensionality(Augment(Diagonal(n, v), n), DiagonalBlock(n, v, 0), n, 2 * n);
  }

  /** After all `n` steps the right half of the diagonal block is diagonal(1 / v). */
  lemma RightHalfDiagonal(n: nat, v: real)
    requires v != 0.0
    ensures RightHalf(DiagonalBlock(n, v, n), n) == Diagonal(n, 1.0 / v)
  {
    GridExtensionality(RightHalf(DiagonalBlock(n, v, n), n), Diagonal(n, 1.0 / v), n, n);
  }

  lemma InverseNIdentity(n: nat, eps: real)
    requires 0.0 < eps < 1.0
    ensures InverseN(Identity(n), n, eps) == Identity(n)
  {
    InverseNDiagonal(n, 1.0, eps);
  }
}
