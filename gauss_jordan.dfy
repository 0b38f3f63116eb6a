// Why the Gauss-Jordan elimination of `Elimination` (`inverse_n` of include/pbrt/math/matrix.hpp)
// inverts. Each row of the augmented block [L | R] starts as a row of [A | I] and every step
// only exchanges rows, divides a row by a number or subtracts a multiple of one row from
// another. Those three operations keep two facts row by row: the left half of a row is its
// right half times A, and the left half of a row sends any null vector of A to zero. When the
// loop completes, the left block is the identity, so R·A = I, and A can have no null vector.
module GaussJordan {
  import opened Scalar
  import opened Wrappers
  import opened Grids
  import opened Elimination

  // ---------------------------------------------------------------- a row slice times a column

  /** The slice `r[off .. off + m]` times column `j` of `b`, summed left to right. */
  function RowTimes(r: seq<real>, off: nat, b: Grid, j: nat, m: nat): real
    requires off + m <= |r| && m <= |b|
    requires forall t :: 0 <= t < m ==> j < |b[t]|
    decreases m
  {
    if m == 0 then 0.0 else RowTimes(r, off, b, j, m - 1) + r[off + m - 1] * b[m - 1][j]
  }

  lemma CombineStep(x: real, y: real, xv: real, yv: real, bv: real, c: real)
    ensures (x - c * y) + (xv - c * yv) * bv == (x + xv * bv) - c * (y + yv * bv)
  {
  }

  lemma DivideStep(x: real, xv: real, bv: real, d: real)
    requires d != 0.0
    ensures x / d + (xv / d) * bv == (x + xv * bv) / d
  {
  }

  /** A slice that is `x - c·y` cell by cell sends every column to `x·b - c·(y·b)`. */
  lemma {:induction false} RowTimesCombine(r: seq<real>, x: seq<real>, y: seq<real>, c: real,
                                           off: nat, b: Grid, j: nat, m: nat)
    requires off + m <= |r| && off + m <= |x| && off + m <= |y| && m <= |b|
    requires forall t :: 0 <= t < m ==> j < |b[t]|
    requires forall t :: off <= t < off + m ==> r[t] == x[t] - c * y[t]
    ensures RowTimes(r, off, b, j, m) == RowTimes(x, off, b, j, m) - c * RowTimes(y, off, b, j, m)
    decreases m
  {
    if m > 0 {
      RowTimesCombine(r, x, y, c, off, b, j, m - 1);
      var t := off + m - 1;
      assert r[t] == x[t] - c * y[t];
      CombineStep(RowTimes(x, off, b, j, m - 1), RowTimes(y, off, b, j, m - 1), x[t], y[t], b[m - 1][j], c);
    }
  }

  /** A slice that is `x / d` cell by cell sends every column to `(x·b) / d`. */
  lemma {:induction false} RowTimesDivide(r: seq<real>, x: seq<real>, d: real,
                                          off: nat, b: Grid, j: nat, m: nat)
    requires off + m <= |r| && off + m <= |x| && m <= |b| && d != 0.0
    requires forall t :: 0 <= t < m ==> j < |b[t]|
    requires forall t :: off <= t < off + m ==> r[t] == x[t] / d
    ensures RowTimes(r, off, b, j, m) == RowTimes(x, off, b, j, m) / d
    decreases m
  {
    if m > 0 {
      RowTimesDivide(r, x, d, off, b, j, m - 1);
      var t := off + m - 1;
      assert r[t] == x[t] / d;
      DivideStep(RowTimes(x, off, b, j, m - 1), x[t], b[m - 1][j], d);
    }
  }

  /** A slice zero everywhere but at `axis` picks out row `axis` of `b`. */
  lemma {:induction false} RowTimesSparse(r: seq<real>, off: nat, b: Grid, j: nat, m: nat, axis: nat)
    requires off + m <= |r| && m <= |b|
    requires forall t :: 0 <= t < m ==> j < |b[t]|
    requires forall t :: off <= t < off + m && t != off + axis ==> r[t] == 0.0
    ensures RowTimes(r, off, b, j, m) == if axis < m then r[off + axis] * b[axis][j] else 0.0
    decreases m
  {
    if m > 0 {
      RowTimesSparse(r, off, b, j, m - 1, axis);
      if m - 1 != axis {
        assert r[off + m - 1] == 0.0;
      }
    }
  }

  /** A slice equal to row `i` of `a` times `b` is the `DotPrefix` of that row. */
  lemma {:induction false} RowTimesIsDotPrefix(r: seq<real>, off: nat, a: Grid, i: nat, b: Grid, j: nat, m: nat)
    requires off + m <= |r| && i < |a| && m <= |a[i]| && m <= |b|
    requires forall t :: 0 <= t < m ==> j < |b[t]|
    requires forall t :: 0 <= t < m ==> r[off + t] == a[i][t]
    ensures RowTimes(r, off, b, j, m) == DotPrefix(a, b, i, j, m)
    decreases m
  {
    if m > 0 {
      RowTimesIsDotPrefix(r, off, a, i, b, j, m - 1);
      assert r[off + (m - 1)] == a[i][m - 1];
    }
  }

  // ---------------------------------------------------------------- the invariants

  /** Row by row, the left block is the right block times `g`: `L = R·g`. */
  predicate Tracks(a: Grid, g: Grid, n: nat)
    requires IsGrid(a, n, 2 * n) && IsGrid(g, n, n)
  {
    forall k, j {:trigger RowTimes(a[k], n, g, j, n)} :: 0 <= k < n && 0 <= j < n ==> a[k][j] == RowTimes(a[k], n, g, j, n)
  }

  /** Every row of the left block sends the column `x` to zero: `L·x = 0`. */
  predicate Annihilates(a: Grid, x: Grid, n: nat)
    requires IsGrid(a, n, 2 * n) && IsGrid(x, n, 1)
  {
    forall k :: 0 <= k < n ==> RowTimes(a[k], 0, x, 0, n) == 0.0
  }

  /** Columns `0 .. i-1` of the left block are those of the identity. */
  predicate UnitColumns(a: Grid, n: nat, i: nat)
    requires IsGrid(a, n, 2 * n) && i <= n
  {
    forall k, c :: 0 <= k < n && 0 <= c < i ==> a[k][c] == if k == c then 1.0 else 0.0
  }

  /** The row exchange of a step, written as the grid it yields. */
  function Exchanged(a: Grid, n: nat, i: nat, p: nat): (s: Grid)
    requires IsGrid(a, n, 2 * n) && i <= p < n
    ensures IsGrid(s, n, 2 * n)
    ensures forall k :: 0 <= k < n ==> s[k] == if k == i then a[p] else if k == p then a[i] else a[k]
  {
    SwapRowsIsGrid(a, n, 2 * n, i, p);
    if p != i then SwapRows(a, i, p) else a
  }

  lemma GjStepUnfold(a: Grid, n: nat, i: nat, p: nat)
    requires IsGrid(a, n, 2 * n) && i <= p < n && a[p][i] != 0.0
    ensures GjStep(a, n, i, p) == EliminateOthers(NormalizeRow(Exchanged(a, n, i, p), n, 2 * n, i), n, 2 * n, i)
  {
  }

  // ---------------------------------------------------------------- one step keeps them

  /** Dividing row `i` by its pivot keeps `L = R·g`. */
  lemma NormalizeTracks(s: Grid, g: Grid, n: nat, i: nat)
    requires IsGrid(s, n, 2 * n) && IsGrid(g, n, n) && i < n && s[i][i] != 0.0
    requires Tracks(s, g, n)
    ensures Tracks(NormalizeRow(s, n, 2 * n, i), g, n)
  {
    var b := NormalizeRow(s, n, 2 * n, i);
    forall k, j | 0 <= k < n && 0 <= j < n
      ensures b[k][j] == RowTimes(b[k], n, g, j, n)
    {
      if k == i {
        RowTimesDivide(b[i], s[i], s[i][i], n, g, j, n);
      } else {
        assert b[k] == s[k];
      }
    }
  }

  /** Subtracting multiples of row `i` from the others keeps `L = R·g`. */
  lemma EliminateTracks(b: Grid, g: Grid, n: nat, i: nat)
    requires IsGrid(b, n, 2 * n) && IsGrid(g, n, n) && i < n
    requires Tracks(b, g, n)
    ensures Tracks(EliminateOthers(b, n, 2 * n, i), g, n)
  {
    var e := EliminateOthers(b, n, 2 * n, i);
    forall k, j | 0 <= k < n && 0 <= j < n
      ensures e[k][j] == RowTimes(e[k], n, g, j, n)
    {
      if k == i {
        assert e[i] == b[i];
      } else {
        EliminateTracksCell(b, e[k], g, n, i, k, j, RowTimes(b[k], n, g, j, n), RowTimes(b[i], n, g, j, n));
      }
    }
  }

  /** One cell of a row other than `i` after the elimination. */
  lemma EliminateTracksCell(b: Grid, row: seq<real>, g: Grid, n: nat, i: nat, k: nat, j: nat, tk: real, ti: real)
    requires IsGrid(b, n, 2 * n) && IsGrid(g, n, n) && i < n && k < n && j < n && |row| == 2 * n
    requires forall t :: 0 <= t < 2 * n ==> row[t] == b[k][t] - b[k][i] * b[i][t]
    requires tk == RowTimes(b[k], n, g, j, n) && ti == RowTimes(b[i], n, g, j, n)
    requires b[k][j] == tk && b[i][j] == ti
    ensures row[j] == RowTimes(row, n, g, j, n)
  {
    var f := b[k][i];
    RowTimesCombine(row, b[k], b[i], f, n, g, j, n);
    MulCongruent(f, ti, b[i][j]);
  }

  /** A whole Gauss-Jordan step keeps `L = R·g`. */
  lemma GjStepTracks(a: Grid, g: Grid, n: nat, i: nat, p: nat)
    requires IsGrid(a, n, 2 * n) && IsGrid(g, n, n) && i <= p < n && a[p][i] != 0.0
    requires Tracks(a, g, n)
    ensures Tracks(GjStep(a, n, i, p), g, n)
  {
    var s := Exchanged(a, n, i, p);
    forall k, j | 0 <= k < n && 0 <= j < n
      ensures s[k][j] == RowTimes(s[k], n, g, j, n)
    {
      var q := if k == i then p else if k == p then i else k;
      assert s[k] == a[q];
    }
    NormalizeTracks(s, g, n, i);
    EliminateTracks(NormalizeRow(s, n, 2 * n, i), g, n, i);
    GjStepUnfold(a, n, i, p);
  }

  /** Dividing row `i` by its pivot keeps `L·x = 0`. */
  lemma NormalizeAnnihilates(s: Grid, x: Grid, n: nat, i: nat)
    requires IsGrid(s, n, 2 * n) && IsGrid(x, n, 1) && i < n && s[i][i] != 0.0
    requires Annihilates(s, x, n)
    ensures Annihilates(NormalizeRow(s, n, 2 * n, i), x, n)
  {
    var b := NormalizeRow(s, n, 2 * n, i);
    forall k | 0 <= k < n
      ensures RowTimes(b[k], 0, x, 0, n) == 0.0
    {
      if k == i {
        RowTimesDivide(b[i], s[i], s[i][i], 0, x, 0, n);
      } else {
        assert b[k] == s[k];
      }
    }
  }

  /** Subtracting multiples of row `i` from the others keeps `L·x = 0`. */
  lemma EliminateAnnihilates(b: Grid, x: Grid, n: nat, i: nat)
    requires IsGrid(b, n, 2 * n) && IsGrid(x, n, 1) && i < n
    requires Annihilates(b, x, n)
    ensures Annihilates(EliminateOthers(b, n, 2 * n, i), x, n)
  {
    var e := EliminateOthers(b, n, 2 * n, i);
    forall k | 0 <= k < n
      ensures RowTimes(e[k], 0, x, 0, n) == 0.0
    {
      if k == i {
        assert e[i] == b[i];
      } else {
        var f := b[k][i];
        RowTimesCombine(e[k], b[k], b[i], f, 0, x, 0, n);
        MulCongruent(f, RowTimes(b[i], 0, x, 0, n), 0.0);
      }
    }
  }

  /** A whole Gauss-Jordan step keeps `L·x = 0`. */
  lemma GjStepAnnihilates(a: Grid, x: Grid, n: nat, i: nat, p: nat)
    requires IsGrid(a, n, 2 * n) && IsGrid(x, n, 1) && i <= p < n && a[p][i] != 0.0
    requires Annihilates(a, x, n)
    ensures Annihilates(GjStep(a, n, i, p), x, n)
  {
    var s := Exchanged(a, n, i, p);
    forall k | 0 <= k < n
      ensures RowTimes(s[k], 0, x, 0, n) == 0.0
    {
      var q := if k == i then p else if k == p then i else k;
      assert s[k] == a[q];
    }
    NormalizeAnnihilates(s, x, n, i);
    EliminateAnnihilates(NormalizeRow(s, n, 2 * n, i), x, n, i);
    GjStepUnfold(a, n, i, p);
  }

  /** Step `i`, pivoting on a row at or below `i`, turns column `i` into a unit column too. */
  lemma GjStepUnitColumns(a: Grid, n: nat, i: nat, p: nat)
    requires IsGrid(a, n, 2 * n) && i <= p < n && a[p][i] != 0.0
    requires UnitColumns(a, n, i)
    ensures UnitColumns(GjStep(a, n, i, p), n, i + 1)
  {
    var s := Exchanged(a, n, i, p);
    var b := NormalizeRow(s, n, 2 * n, i);
    var e := EliminateOthers(b, n, 2 * n, i);
    assert s[i][i] == a[p][i];
    assert b[i][i] == 1.0;
    forall k, c | 0 <= k < n && 0 <= c < i
      ensures b[k][c] == if k == c then 1.0 else 0.0
    {
      var q := if k == i then p else if k == p then i else k;
      assert s[k] == a[q];
      assert s[k][c] == if k == c then 1.0 else 0.0;
      if k == i {
        assert b[i][c] == s[i][c] / s[i][i];
      } else {
        assert b[k] == s[k];
      }
    }
    forall k, c | 0 <= k < n && 0 <= c < i + 1
      ensures e[k][c] == if k == c then 1.0 else 0.0
    {
      if k != i {
        assert e[k][c] == b[k][c] - b[k][i] * b[i][c];
        if c == i {
          MulCongruent(b[k][i], b[i][i], 1.0);
        } else {
          MulCongruent(b[k][i], b[i][c], 0.0);
        }
      }
    }
    GjStepUnfold(a, n, i, p);
  }

  // ---------------------------------------------------------------- the whole loop keeps them

  /** A loop that completes from step `i < n` on passes its pivot and completes from step `i + 1`. */
  lemma GjFromNext(a: Grid, n: nat, i: nat, eps: real, b: Grid)
    requires IsGrid(a, n, 2 * n) && i < n && 0.0 < eps
    requires GjFrom(a, n, i, eps) == Some(b)
    ensures eps < Abs(a[Pivot(a, n, 2 * n, i)][i])
    ensures GjFrom(GjStep(a, n, i, Pivot(a, n, 2 * n, i)), n, i + 1, eps) == Some(b)
  {
  }

  /** The loop from step `i` on keeps `L = R·g` and, when it completes with `b`, leaves `L = I`. */
  lemma {:induction false} GjFromTracks(a: Grid, g: Grid, n: nat, i: nat, eps: real, b: Grid)
    requires IsGrid(a, n, 2 * n) && IsGrid(g, n, n) && i <= n && 0.0 < eps
    requires UnitColumns(a, n, i) && Tracks(a, g, n)
    requires GjFrom(a, n, i, eps) == Some(b)
    ensures IsGrid(b, n, 2 * n) && UnitColumns(b, n, n) && Tracks(b, g, n)
    decreases n - i, 1
  {
    if i < n {
      GjStepThenTracks(a, g, n, i, eps, b);
    }
  }

  /** Step `i` of a completing loop keeps both invariants for the rest of the loop. */
  lemma {:induction false} GjStepThenTracks(a: Grid, g: Grid, n: nat, i: nat, eps: real, b: Grid)
    requires IsGrid(a, n, 2 * n) && IsGrid(g, n, n) && i < n && 0.0 < eps
    requires UnitColumns(a, n, i) && Tracks(a, g, n)
    requires GjFrom(a, n, i, eps) == Some(b)
    ensures IsGrid(b, n, 2 * n) && UnitColumns(b, n, n) && Tracks(b, g, n)
    decreases n - i, 0
  {
    var p := Pivot(a, n, 2 * n, i);
    GjFromNext(a, n, i, eps, b);
    GjStepUnitColumns(a, n, i, p);
    GjStepTracks(a, g, n, i, p);
    GjFromTracks(GjStep(a, n, i, p), g, n, i + 1, eps, b);
  }

  /** The loop from step `i` on keeps `L·x = 0` and, when it completes with `b`, leaves `L = I`. */
  lemma {:induction false} GjFromAnnihilates(a: Grid, x: Grid, n: nat, i: nat, eps: real, b: Grid)
    requires IsGrid(a, n, 2 * n) && IsGrid(x, n, 1) && i <= n && 0.0 < eps
    requires UnitColumns(a, n, i) && Annihilates(a, x, n)
    requires GjFrom(a, n, i, eps) == Some(b)
    ensures IsGrid(b, n, 2 * n) && UnitColumns(b, n, n) && Annihilates(b, x, n)
    decreases n - i, 1
  {
    if i < n {
      GjStepThenAnnihilates(a, x, n, i, eps, b);
    }
  }

  /** Step `i` of a completing loop keeps `L·x = 0` and the unit columns for the rest of the loop. */
  lemma {:induction false} GjStepThenAnnihilates(a: Grid, x: Grid, n: nat, i: nat, eps: real, b: Grid)
    requires IsGrid(a, n, 2 * n) && IsGrid(x, n, 1) && i < n && 0.0 < eps
    requires UnitColumns(a, n, i) && Annihilates(a, x, n)
    requires GjFrom(a, n, i, eps) == Some(b)
    ensures IsGrid(b, n, 2 * n) && UnitColumns(b, n, n) && Annihilates(b, x, n)
    decreases n - i, 0
  {
    var p := Pivot(a, n, 2 * n, i);
    GjFromNext(a, n, i, eps, b);
    GjStepUnitColumns(a, n, i, p);
    GjStepAnnihilates(a, x, n, i, p);
    GjFromAnnihilates(GjStep(a, n, i, p), x, n, i + 1, eps, b);
  }

  /** [A | I] satisfies `L = R·A`: its left half is A, its right half the identity. */
  lemma AugmentTracks(g: Grid, n: nat)
    requires IsGrid(g, n, n)
    ensures Tracks(Augment(g, n), g, n)
  {
    var a := Augment(g, n);
    forall k, j | 0 <= k < n && 0 <= j < n
      ensures a[k][j] == RowTimes(a[k], n, g, j, n)
    {
      RowTimesSparse(a[k], n, g, j, n, k);
    }
  }

  // ---------------------------------------------------------------- what `inverse_n` returns

  /**
   * `inverse_n` returns either the zero matrix, when a pivot falls to `eps`, or a left
   * inverse of `g`: the right block it leaves times `g` is the identity.
   */
  lemma InverseNLeftInverse(g: Grid, n: nat, eps: real)
    requires IsGrid(g, n, n) && 0.0 < eps
    ensures GjFrom(Augment(g, n), n, 0, eps).None? ==> InverseN(g, n, eps) == Zero(n, n)
    ensures GjFrom(Augment(g, n), n, 0, eps).Some? ==> Product(InverseN(g, n, eps), g, n, n, n) == Identity(n)
  {
    var a := Augment(g, n);
    if GjFrom(a, n, 0, eps).Some? {
      var b := GjFrom(a, n, 0, eps).value;
      AugmentTracks(g, n);
      GjFromTracks(a, g, n, 0, eps, b);
      var r := RightHalf(b, n);
      var lhs := Product(r, g, n, n, n);
      forall k, j | 0 <= k < n && 0 <= j < n
        ensures lhs[k][j] == Identity(n)[k][j]
      {
        RowTimesIsDotPrefix(b[k], n, r, k, g, j, n);
      }
      GridExtensionality(lhs, Identity(n), n, n);
    }
  }

  /** Should the elimination complete, every null vector of `g` is zero. */
  lemma NullVectorVanishes(g: Grid, x: Grid, n: nat, eps: real)
    requires IsGrid(g, n, n) && IsGrid(x, n, 1) && 0.0 < eps
    requires Product(g, x, n, n, 1) == Zero(n, 1)
    ensures GjFrom(Augment(g, n), n, 0, eps).Some? ==> x == Zero(n, 1)
  {
    var a := Augment(g, n);
    if GjFrom(a, n, 0, eps).Some? {
      forall k | 0 <= k < n
        ensures RowTimes(a[k], 0, x, 0, n) == 0.0
      {
        RowTimesIsDotPrefix(a[k], 0, g, k, x, 0, n);
        assert Product(g, x, n, n, 1)[k][0] == 0.0;
      }
      var b := GjFrom(a, n, 0, eps).value;
      GjFromAnnihilates(a, x, n, 0, eps, b);
      forall k, c | 0 <= k < n && 0 <= c < 1
        ensures x[k][c] == Zero(n, 1)[k][c]
      {
        RowTimesSparse(b[k], 0, x, 0, n, k);
      }
      GridExtensionality(x, Zero(n, 1), n, 1);
    }
  }

  /**
   * A singular matrix, one with a non-zero null vector `x`, never completes the elimination:
   * some pivot falls to `eps` and `inverse_n` returns the zero matrix.
   */
  lemma InverseNSingular(g: Grid, x: Grid, n: nat, eps: real)
    requires IsGrid(g, n, n) && IsGrid(x, n, 1) && 0.0 < eps
    requires Product(g, x, n, n, 1) == Zero(n, 1) && x != Zero(n, 1)
    ensures GjFrom(Augment(g, n), n, 0, eps) == None
    ensures InverseN(g, n, eps) == Zero(n, n)
  {
    NullVectorVanishes(g, x, n, eps);
  }
}
