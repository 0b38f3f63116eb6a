// Value-level matrices for include/pbrt/math/matrix.hpp. A `rows` x `cols` matrix is a
// sequence of `rows` rows of `cols` reals; the class `Matrices.Matrix` stores the same
// numbers row-major in a flat buffer, and `ToGrid` reads the buffer back as a grid.
module Grids {
  import Vectors
  import opened Scalar

  type Grid = seq<seq<real>>

  predicate IsGrid(g: Grid, rows: nat, cols: nat)
  {
    |g| == rows && forall r :: 0 <= r < rows ==> |g[r]| == cols
  }

  /** Grids of one shape that agree cell for cell are equal. */
  lemma GridExtensionality(g: Grid, h: Grid, rows: nat, cols: nat)
    requires IsGrid(g, rows, cols) && IsGrid(h, rows, cols)
    requires forall r, c :: 0 <= r < rows && 0 <= c < cols ==> g[r][c] == h[r][c]
    ensures g == h
  {
    forall r | 0 <= r < rows ensures g[r] == h[r] {
      assert forall c :: 0 <= c < cols ==> g[r][c] == h[r][c];
    }
  }

  // ---------------------------------------------------------------- flat layout

  /** `index(row, col)`: cell (r, c) of a row-major buffer lives at `r * cols + c`. */
  function Index(cols: nat, r: nat, c: nat): nat
  {
    r * cols + c
  }

  lemma MulMonotone(a: nat, b: nat, k: nat)
    requires a <= b
    ensures a * k <= b * k
  {
    var d := b - a;
    assert b * k == a * k + d * k;
  }

  /** Inside the shape, the index is inside the buffer. */
  lemma IndexInBounds(rows: nat, cols: nat, r: nat, c: nat)
    requires r < rows && c < cols
    ensures Index(cols, r, c) < rows * cols
  {
    RowInBounds(rows, cols, r);
  }

  /** Row `r` of the shape is a slice of the buffer. */
  lemma RowInBounds(rows: nat, cols: nat, r: nat)
    requires r < rows
    ensures r * cols + cols <= rows * cols
  {
    MulMonotone(r + 1, rows, cols);
  }

  /** Different cells of the shape have different indices. */
  lemma IndexInjective(cols: nat, r: nat, c: nat, r': nat, c': nat)
    requires c < cols && c' < cols
    requires Index(cols, r, c) == Index(cols, r', c')
    ensures r == r' && c == c'
  {
    if r < r' {
      MulMonotone(r + 1, r', cols);
    } else if r' < r {
      MulMonotone(r' + 1, r, cols);
    }
  }

  /** Every buffer position is the index of exactly one cell: row `x / cols`, column `x % cols`. */
  lemma SplitIndex(rows: nat, cols: nat, x: nat)
    requires x < rows * cols
    ensures cols > 0 && 0 <= x / cols < rows && 0 <= x % cols < cols
    ensures Index(cols, x / cols, x % cols) == x
  {
    assert cols > 0;
    if x / cols >= rows {
      MulMonotone(rows, x / cols, cols);
    }
  }

  function Cell(s: seq<real>, rows: nat, cols: nat, r: nat, c: nat): real
    requires |s| == rows * cols && r < rows && c < cols
  {
    IndexInBounds(rows, cols, r, c);
    s[Index(cols, r, c)]
  }

  function RowSlice(s: seq<real>, rows: nat, cols: nat, r: nat): (row: seq<real>)
    requires |s| == rows * cols && r < rows
    ensures |row| == cols
    ensures forall c :: 0 <= c < cols ==> row[c] == Cell(s, rows, cols, r, c)
  {
    RowInBounds(rows, cols, r);
    s[r * cols .. r * cols + cols]
  }

  /** A row-major buffer read back as a grid. */
  function ToGrid(s: seq<real>, rows: nat, cols: nat): (g: Grid)
    requires |s| == rows * cols
    ensures IsGrid(g, rows, cols)
    ensures forall r, c :: 0 <= r < rows && 0 <= c < cols ==> g[r][c] == Cell(s, rows, cols, r, c)
  {
    seq(rows, r requires 0 <= r < rows => RowSlice(s, rows, cols, r))
  }

  /** No cell of `g` differs from the same cell of `h` by more than `eps`. */
  predicate Within(g: Grid, h: Grid, rows: nat, cols: nat, eps: real)
    requires IsGrid(g, rows, cols) && IsGrid(h, rows, cols)
  {
    forall r, c :: 0 <= r < rows && 0 <= c < cols ==> Abs(g[r][c] - h[r][c]) <= eps
  }

  /** Two buffers are within `eps` cell by cell exactly when their grids are. */
  lemma WithinOfFlat(s: seq<real>, t: seq<real>, rows: nat, cols: nat, eps: real)
    requires |s| == rows * cols && |t| == rows * cols
    ensures Within(ToGrid(s, rows, cols), ToGrid(t, rows, cols), rows, cols, eps)
        <==> forall x :: 0 <= x < |s| ==> Abs(s[x] - t[x]) <= eps
  {
    var g, h := ToGrid(s, rows, cols), ToGrid(t, rows, cols);
    if forall x :: 0 <= x < |s| ==> Abs(s[x] - t[x]) <= eps {
      forall r, c | 0 <= r < rows && 0 <= c < cols ensures Abs(g[r][c] - h[r][c]) <= eps {
        IndexInBounds(rows, cols, r, c);
      }
    }
    if Within(g, h, rows, cols, eps) {
      forall x | 0 <= x < |s| ensures Abs(s[x] - t[x]) <= eps {
        SplitIndex(rows, cols, x);
        assert Abs(g[x / cols][x % cols] - h[x / cols][x % cols]) <= eps;
      }
    }
  }

  /** Writing one buffer cell changes exactly that cell of the grid. */
  lemma ToGridUpdate(s: seq<real>, rows: nat, cols: nat, r: nat, c: nat, x: real)
    requires |s| == rows * cols && r < rows && c < cols
    ensures Index(cols, r, c) < |s|
    ensures var g := ToGrid(s, rows, cols);
      ToGrid(s[Index(cols, r, c) := x], rows, cols) == g[r := g[r][c := x]]
  {
    IndexInBounds(rows, cols, r, c);
    var g := ToGrid(s, rows, cols);
    var s' := s[Index(cols, r, c) := x];
    var h := g[r := g[r][c := x]];
    forall r', c' | 0 <= r' < rows && 0 <= c' < cols
      ensures ToGrid(s', rows, cols)[r'][c'] == h[r'][c']
    {
      IndexInBounds(rows, cols, r', c');
      if Index(cols, r', c') == Index(cols, r, c) {
        IndexInjective(cols, r', c', r, c);
      }
    }
    GridExtensionality(ToGrid(s', rows, cols), h, rows, cols);
  }

  /** A buffer whose grid is `g`. */
  lemma ToGridOfCells(s: seq<real>, rows: nat, cols: nat, g: Grid)
    requires |s| == rows * cols && IsGrid(g, rows, cols)
    requires forall r, c :: 0 <= r < rows && 0 <= c < cols ==> Cell(s, rows, cols, r, c) == g[r][c]
    ensures ToGrid(s, rows, cols) == g
  {
    GridExtensionality(ToGrid(s, rows, cols), g, rows, cols);
  }

  /** A buffer transformed element by element is its grid transformed cell by cell. */
  lemma ToGridMap(s: seq<real>, t: seq<real>, rows: nat, cols: nat, f: real -> real)
    requires |s| == rows * cols && |t| == rows * cols
    requires forall k :: 0 <= k < |s| ==> t[k] == f(s[k])
    ensures forall r, c :: 0 <= r < rows && 0 <= c < cols ==>
      ToGrid(t, rows, cols)[r][c] == f(ToGrid(s, rows, cols)[r][c])
  {
    forall r, c | 0 <= r < rows && 0 <= c < cols
      ensures ToGrid(t, rows, cols)[r][c] == f(ToGrid(s, rows, cols)[r][c])
    {
      IndexInBounds(rows, cols, r, c);
    }
  }

  /** Two buffers combined element by element are their grids combined cell by cell. */
  lemma ToGridZip(s: seq<real>, u: seq<real>, t: seq<real>, rows: nat, cols: nat, f: (real, real) -> real)
    requires |s| == rows * cols && |u| == rows * cols && |t| == rows * cols
    requires forall k :: 0 <= k < |s| ==> t[k] == f(s[k], u[k])
    ensures forall r, c :: 0 <= r < rows && 0 <= c < cols ==>
      ToGrid(t, rows, cols)[r][c] == f(ToGrid(s, rows, cols)[r][c], ToGrid(u, rows, cols)[r][c])
  {
    forall r, c | 0 <= r < rows && 0 <= c < cols
      ensures ToGrid(t, rows, cols)[r][c] == f(ToGrid(s, rows, cols)[r][c], ToGrid(u, rows, cols)[r][c])
    {
      IndexInBounds(rows, cols, r, c);
    }
  }

  /** A buffer of one value throughout is the constant grid. */
  lemma ToGridConstant(s: seq<real>, rows: nat, cols: nat, v: real)
    requires |s| == rows * cols
    requires forall k :: 0 <= k < |s| ==> s[k] == v
    ensures ToGrid(s, rows, cols) == Constant(rows, cols, v)
  {
    forall r, c | 0 <= r < rows && 0 <= c < cols
      ensures Cell(s, rows, cols, r, c) == Constant(rows, cols, v)[r][c]
    {
      IndexInBounds(rows, cols, r, c);
    }
    ToGridOfCells(s, rows, cols, Constant(rows, cols, v));
  }

  /** Cell (r, c) is the only one whose index is `r * cols + c`. */
  lemma SplitOfIndex(rows: nat, cols: nat, r: nat, c: nat)
    requires r < rows && c < cols
    ensures Index(cols, r, c) < rows * cols
    ensures Index(cols, r, c) / cols == r && Index(cols, r, c) % cols == c
  {
    IndexInBounds(rows, cols, r, c);
    SplitIndex(rows, cols, Index(cols, r, c));
    IndexInjective(cols, r, c, Index(cols, r, c) / cols, Index(cols, r, c) % cols);
  }

  /** A grid laid out row-major in a buffer. */
  function Flatten(g: Grid, rows: nat, cols: nat): (s: seq<real>)
    requires IsGrid(g, rows, cols)
    ensures |s| == rows * cols
  {
    seq(rows * cols, x requires 0 <= x < rows * cols => SplitIndex(rows, cols, x); g[x / cols][x % cols])
  }

  /** Reading a laid-out grid back gives the grid. */
  lemma ToGridFlatten(g: Grid, rows: nat, cols: nat)
    requires IsGrid(g, rows, cols)
    ensures ToGrid(Flatten(g, rows, cols), rows, cols) == g
  {
    forall r, c | 0 <= r < rows && 0 <= c < cols
      ensures Cell(Flatten(g, rows, cols), rows, cols, r, c) == g[r][c]
    {
      SplitOfIndex(rows, cols, r, c);
    }
    ToGridOfCells(Flatten(g, rows, cols), rows, cols, g);
  }

  /** Laying out the grid a buffer reads as gives the buffer. */
  lemma FlattenToGrid(s: seq<real>, rows: nat, cols: nat)
    requires |s| == rows * cols
    ensures Flatten(ToGrid(s, rows, cols), rows, cols) == s
  {
    forall x | 0 <= x < rows * cols ensures Flatten(ToGrid(s, rows, cols), rows, cols)[x] == s[x] {
      SplitIndex(rows, cols, x);
    }
  }

  /** Writing one cell of a grid writes one element of its layout. */
  lemma FlattenUpdate(g: Grid, rows: nat, cols: nat, r: nat, c: nat, v: real)
    requires IsGrid(g, rows, cols) && r < rows && c < cols
    ensures Index(cols, r, c) < rows * cols
    ensures Flatten(g[r := g[r][c := v]], rows, cols) == Flatten(g, rows, cols)[Index(cols, r, c) := v]
  {
    IndexInBounds(rows, cols, r, c);
    var h := Flatten(g[r := g[r][c := v]], rows, cols);
    var f := Flatten(g, rows, cols)[Index(cols, r, c) := v];
    forall x | 0 <= x < |f| ensures h[x] == f[x] {
      FlattenUpdateAt(g, rows, cols, r, c, v, x);
    }
  }

  lemma FlattenUpdateAt(g: Grid, rows: nat, cols: nat, r: nat, c: nat, v: real, x: nat)
    requires IsGrid(g, rows, cols) && r < rows && c < cols && x < rows * cols
    ensures Flatten(g[r := g[r][c := v]], rows, cols)[x] ==
      if x == Index(cols, r, c) then v else Flatten(g, rows, cols)[x]
  {
    SplitIndex(rows, cols, x);
    SplitOfIndex(rows, cols, r, c);
    var q, m := x / cols, x % cols;
    if x != Index(cols, r, c) {
      assert q != r || m != c;
    }
  }

  // ---------------------------------------------------------------- constants

  /** Every cell `v`: the fill constructor, and `zero()` for `v == 0`. */
  function Constant(rows: nat, cols: nat, v: real): (g: Grid)
    ensures IsGrid(g, rows, cols)
  {
    seq(rows, _ => seq(cols, _ => v))
  }

  function Zero(rows: nat, cols: nat): (g: Grid)
    ensures IsGrid(g, rows, cols)
  {
    Constant(rows, cols, 0.0)
  }

  /** `diagonal(v)`: `v` on the diagonal and 0 elsewhere. */
  function Diagonal(n: nat, v: real): (g: Grid)
    ensures IsGrid(g, n, n)
  {
    seq(n, r => seq(n, c => if r == c then v else 0.0))
  }

  /** `identity()`, which the source defines as `diagonal(1)`. */
  function Identity(n: nat): (g: Grid)
    ensures IsGrid(g, n, n)
  {
    Diagonal(n, 1.0)
  }

  /** Every cell multiplied by `s`. */
  function ScaleGrid(g: Grid, s: real): (h: Grid)
    ensures |h| == |g| && forall r :: 0 <= r < |g| ==> |h[r]| == |g[r]|
  {
    seq(|g|, r requires 0 <= r < |g| => seq(|g[r]|, c requires 0 <= c < |g[r]| => g[r][c] * s))
  }

  // ---------------------------------------------------------------- transpose

  /** `transpose()`: cell (j, i) of the result is cell (i, j) of `g`. */
  function Transposed(g: Grid, rows: nat, cols: nat): (t: Grid)
    requires IsGrid(g, rows, cols)
    ensures IsGrid(t, cols, rows)
  {
    seq(cols, j requires 0 <= j < cols => seq(rows, i requires 0 <= i < rows => g[i][j]))
  }

  /** Transposing twice gives back the original exactly. */
  lemma TransposeTwice(g: Grid, rows: nat, cols: nat)
    requires IsGrid(g, rows, cols)
    ensures Transposed(Transposed(g, rows, cols), cols, rows) == g
  {
    GridExtensionality(Transposed(Transposed(g, rows, cols), cols, rows), g, rows, cols);
  }

  /** The transpose of a diagonal matrix is itself. */
  lemma TransposeDiagonal(n: nat, v: real)
    ensures Transposed(Diagonal(n, v), n, n) == Diagonal(n, v)
  {
    GridExtensionality(Transposed(Diagonal(n, v), n, n), Diagonal(n, v), n, n);
  }

  // ---------------------------------------------------------------- products

  /**
   * The running sum `a(i, 0) * b(0, j) + ... + a(i, k-1) * b(k-1, j)`, added left to right
   * from 0, in the order both `multiply_naive` and `multiply_blocked` add the terms.
   */
  function DotPrefix(a: Grid, b: Grid, i: nat, j: nat, k: nat): real
    requires i < |a| && k <= |a[i]| && k <= |b|
    requires forall t :: 0 <= t < k ==> j < |b[t]|
    decreases k
  {
    if k == 0 then 0.0 else DotPrefix(a, b, i, j, k - 1) + a[i][k - 1] * b[k - 1][j]
  }

  /** The matrix product of an `n x m` and an `m x p` matrix. */
  function Product(a: Grid, b: Grid, n: nat, m: nat, p: nat): (r: Grid)
    requires IsGrid(a, n, m) && IsGrid(b, m, p)
    ensures IsGrid(r, n, p)
  {
    seq(n, i requires 0 <= i < n => seq(p, j requires 0 <= j < p => DotPrefix(a, b, i, j, m)))
  }

  /**
   * `acc + a(i, lo) * b(lo, j) + ... + a(i, hi-1) * b(hi-1, j)`, added left to right: what one
   * call of `multiply_block` adds to a cell it starts from `acc`.
   */
  function DotRange(a: Grid, b: Grid, i: nat, j: nat, lo: nat, hi: nat, acc: real): real
    requires i < |a| && lo <= hi <= |a[i]| && hi <= |b|
    requires forall t :: 0 <= t < hi ==> j < |b[t]|
    decreases hi - lo
  {
    if hi == lo then acc else DotRange(a, b, i, j, lo, hi - 1, acc) + a[i][hi - 1] * b[hi - 1][j]
  }

  /** One more term of the running sum, given the two factors read from the buffers. */
  lemma DotPrefixNext(a: Grid, b: Grid, i: nat, j: nat, k: nat, sum: real, x: real, y: real)
    requires i < |a| && k < |a[i]| && k < |b|
    requires forall t :: 0 <= t <= k ==> j < |b[t]|
    requires sum == DotPrefix(a, b, i, j, k) && x == a[i][k] && y == b[k][j]
    ensures sum + x * y == DotPrefix(a, b, i, j, k + 1)
  {
  }

  /** One more term of a block's running sum. */
  lemma DotRangeNext(a: Grid, b: Grid, i: nat, j: nat, lo: nat, k: nat, acc: real, sum: real, x: real, y: real)
    requires i < |a| && lo <= k < |a[i]| && k < |b|
    requires forall t :: 0 <= t <= k ==> j < |b[t]|
    requires sum == DotRange(a, b, i, j, lo, k, acc) && x == a[i][k] && y == b[k][j]
    ensures sum + x * y == DotRange(a, b, i, j, lo, k + 1, acc)
  {
  }

  /** Continuing the sum from the prefix up to `lo` gives the prefix up to `hi`: same terms, same order. */
  lemma {:induction false} DotRangeExtendsPrefix(a: Grid, b: Grid, i: nat, j: nat, lo: nat, hi: nat)
    requires i < |a| && lo <= hi <= |a[i]| && hi <= |b|
    requires forall t :: 0 <= t < hi ==> j < |b[t]|
    ensures DotRange(a, b, i, j, lo, hi, DotPrefix(a, b, i, j, lo)) == DotPrefix(a, b, i, j, hi)
    decreases hi - lo
  {
    if hi > lo {
      DotRangeExtendsPrefix(a, b, i, j, lo, hi - 1);
    }
  }

  /** A row with one non-zero entry, at `axis`, picks out one row of `b`. */
  lemma {:induction false} DotPrefixSparseRow(a: Grid, b: Grid, i: nat, j: nat, k: nat, axis: nat, m: nat, p: nat)
    requires i < |a| && |a[i]| == m && k <= m && IsGrid(b, m, p) && j < p && axis < m
    requires forall t :: 0 <= t < m && t != axis ==> a[i][t] == 0.0
    ensures DotPrefix(a, b, i, j, k) == if axis < k then a[i][axis] * b[axis][j] else 0.0
  {
    if k > 0 {
      DotPrefixSparseRow(a, b, i, j, k - 1, axis, m, p);
    }
  }

  /** A column with one non-zero entry, at `axis`, picks out one column of `a`. */
  lemma {:induction false} DotPrefixSparseColumn(a: Grid, b: Grid, i: nat, j: nat, k: nat, axis: nat, m: nat, p: nat)
    requires IsGrid(b, m, p) && j < p && i < |a| && |a[i]| == m && k <= m && axis < m
    requires forall t :: 0 <= t < m && t != axis ==> b[t][j] == 0.0
    ensures DotPrefix(a, b, i, j, k) == if axis < k then a[i][axis] * b[axis][j] else 0.0
  {
    if k > 0 {
      DotPrefixSparseColumn(a, b, i, j, k - 1, axis, m, p);
    }
  }

  /** identity x M == M. */
  lemma IdentityProductLeft(g: Grid, n: nat, p: nat)
    requires IsGrid(g, n, p)
    ensures Product(Identity(n), g, n, n, p) == g
  {
    var e := Identity(n);
    forall i, j | 0 <= i < n && 0 <= j < p
      ensures Product(e, g, n, n, p)[i][j] == g[i][j]
    {
      DotPrefixSparseRow(e, g, i, j, n, i, n, p);
    }
    GridExtensionality(Product(e, g, n, n, p), g, n, p);
  }

  /** M x identity == M. */
  lemma IdentityProductRight(g: Grid, n: nat, m: nat)
    requires IsGrid(g, n, m)
    ensures Product(g, Identity(m), n, m, m) == g
  {
    var e := Identity(m);
    forall i, j | 0 <= i < n && 0 <= j < m
      ensures Product(g, e, n, m, m)[i][j] == g[i][j]
    {
      DotPrefixSparseColumn(g, e, i, j, m, j, m, m);
    }
    GridExtensionality(Product(g, e, n, m, m), g, n, m);
  }

  /** Scaling the right factor scales every running sum. */
  lemma {:induction false} DotPrefixScaleRight(a: Grid, b: Grid, i: nat, j: nat, k: nat, s: real)
    requires i < |a| && k <= |a[i]| && k <= |b|
    requires forall t :: 0 <= t < k ==> j < |b[t]|
    ensures DotPrefix(a, ScaleGrid(b, s), i, j, k) == DotPrefix(a, b, i, j, k) * s
  {
    if k > 0 {
      DotPrefixScaleRight(a, b, i, j, k - 1, s);
      var x, y := DotPrefix(a, b, i, j, k - 1), a[i][k - 1] * b[k - 1][j];
      assert a[i][k - 1] * (b[k - 1][j] * s) == y * s;
      assert x * s + y * s == (x + y) * s;
    }
  }

  lemma ProductScaleRight(a: Grid, b: Grid, n: nat, m: nat, p: nat, s: real)
    requires IsGrid(a, n, m) && IsGrid(b, m, p)
    ensures IsGrid(ScaleGrid(b, s), m, p)
    ensures Product(a, ScaleGrid(b, s), n, m, p) == ScaleGrid(Product(a, b, n, m, p), s)
  {
    var l, r := Product(a, ScaleGrid(b, s), n, m, p), ScaleGrid(Product(a, b, n, m, p), s);
    forall i, j | 0 <= i < n && 0 <= j < p ensures l[i][j] == r[i][j] {
      DotPrefixScaleRight(a, b, i, j, m, s);
    }
    GridExtensionality(l, r, n, p);
  }

  /** Scaling `det * I` by `1 / det` gives the identity. */
  lemma ScaleDiagonalInverse(n: nat, det: real)
    requires det != 0.0
    ensures ScaleGrid(Diagonal(n, det), 1.0 / det) == Identity(n)
  {
    var l := ScaleGrid(Diagonal(n, det), 1.0 / det);
    forall i, j | 0 <= i < n && 0 <= j < n ensures l[i][j] == Identity(n)[i][j] {
      if i == j {
        assert det * (1.0 / det) == 1.0;
      }
    }
    GridExtensionality(l, Identity(n), n, n);
  }

  /** Row `i` of the product of a square matrix and a vector: `operator*(Vector)`. */
  function MulVector(g: Grid, v: Vectors.Vec, rows: nat, cols: nat): (r: Vectors.Vec)
    requires IsGrid(g, rows, cols) && |v| == cols
    ensures |r| == rows
  {
    seq(rows, i requires 0 <= i < rows => Vectors.InnerProduct(g[i], v))
  }

  /** A vector holding each row's inner product with `v` is the product `g v`. */
  lemma MulVectorOfRows(g: Grid, v: Vectors.Vec, rows: nat, cols: nat, res: Vectors.Vec)
    requires IsGrid(g, rows, cols) && |v| == cols && |res| == rows
    requires forall i :: 0 <= i < rows ==> res[i] == Vectors.InnerProduct(g[i], v)
    ensures res == MulVector(g, v, rows, cols)
  {
  }

  /** identity x v == v. */
  lemma IdentityMulVector(v: Vectors.Vec)
    ensures MulVector(Identity(|v|), v, |v|, |v|) == v
  {
    var n := |v|;
    forall i | 0 <= i < n ensures MulVector(Identity(n), v, n, n)[i] == v[i] {
      assert Identity(n)[i] == Vectors.UnitAxis(n, i);
      Vectors.UnitAxisSelects(n, i, v);
    }
  }
}
