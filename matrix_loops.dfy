// The intermediate buffers of the loops in include/pbrt/math/matrix.hpp, stated on the flat
// row-major buffer itself: how far `multiply_naive`, `multiply_block`, `multiply_blocked` and
// `transpose` have got, and the lemmas that carry each loop one step and read the final
// buffer back as the grid the loop computes.
module MatrixLoops {
  import opened Grids
  import Elimination

  /** The block size `multiply_blocked` uses. */
  const BlockSize: nat := 32

  /** `std::min` on sizes: the second argument when it is smaller, else the first. */
  function MinNat(a: nat, b: nat): (r: nat)
    ensures r <= a && r <= b && (r == a || r == b)
  {
    if b < a then b else a
  }

  // ---------------------------------------------------------------- multiply_naive

  /** The result buffer of `multiply_naive` once its first `upto` cells, row-major, are written. */
  ghost function NaiveFlat(a: Grid, b: Grid, n: nat, m: nat, p: nat, upto: nat): (s: seq<real>)
    requires IsGrid(a, n, m) && IsGrid(b, m, p)
    ensures |s| == n * p
  {
    seq(n * p, x requires 0 <= x < n * p =>
      if x < upto then (SplitIndex(n, p, x); DotPrefix(a, b, x / p, x % p, m)) else 0.0)
  }

  /** Writing cell (i, j)'s sum extends the written prefix by one. */
  lemma NaiveFlatAdvance(a: Grid, b: Grid, n: nat, m: nat, p: nat, i: nat, j: nat)
    requires IsGrid(a, n, m) && IsGrid(b, m, p) && i < n && j < p
    ensures Index(p, i, j) < n * p && Index(p, i, j) + 1 == Index(p, i, j + 1)
    ensures NaiveFlat(a, b, n, m, p, Index(p, i, j))[Index(p, i, j) := DotPrefix(a, b, i, j, m)]
         == NaiveFlat(a, b, n, m, p, Index(p, i, j) + 1)
  {
    SplitOfIndex(n, p, i, j);
  }

  /** Nothing is written at first, and everything once all cells are. */
  lemma NaiveFlatEnds(a: Grid, b: Grid, n: nat, m: nat, p: nat, s: seq<real>)
    requires IsGrid(a, n, m) && IsGrid(b, m, p)
    ensures (|s| == n * p && forall x :: 0 <= x < |s| ==> s[x] == 0.0) ==> s == NaiveFlat(a, b, n, m, p, 0)
    ensures ToGrid(NaiveFlat(a, b, n, m, p, n * p), n, p) == Product(a, b, n, m, p)
  {
    var f := NaiveFlat(a, b, n, m, p, n * p);
    forall r, c | 0 <= r < n && 0 <= c < p ensures Cell(f, n, p, r, c) == Product(a, b, n, m, p)[r][c] {
      SplitOfIndex(n, p, r, c);
    }
    ToGridOfCells(f, n, p, Product(a, b, n, m, p));
  }

  /** The row after row `i` starts where row `i` ends. */
  lemma NextRow(p: nat, i: nat)
    ensures Index(p, i, p) == Index(p, i + 1, 0)
  {
  }

  // ---------------------------------------------------------------- multiply_block

  /**
   * The result buffer of one `multiply_block` call, started from `s0`, once the block cells
   * before (i, j) are written: those hold their range `lo..hi` added to the starting value,
   * every other cell its starting value.
   */
  ghost function BlockFlat(a: Grid, b: Grid, s0: seq<real>, n: nat, m: nat, p: nat,
                           ii: nat, iMax: nat, jj: nat, jMax: nat, lo: nat, hi: nat, i: nat, j: nat): (s: seq<real>)
    requires IsGrid(a, n, m) && IsGrid(b, m, p) && |s0| == n * p && lo <= hi <= m
    ensures |s| == n * p
  {
    seq(n * p, x requires 0 <= x < n * p =>
      SplitIndex(n, p, x);
      var r, c := x / p, x % p;
      if (ii <= r < i || (r == i && c < j)) && r < iMax && jj <= c < jMax
      then DotRange(a, b, r, c, lo, hi, s0[x]) else s0[x])
  }

  /** Writing block cell (i, j) extends the written part by that cell. */
  lemma BlockFlatAdvance(a: Grid, b: Grid, s0: seq<real>, n: nat, m: nat, p: nat,
                         ii: nat, iMax: nat, jj: nat, jMax: nat, lo: nat, hi: nat, i: nat, j: nat)
    requires IsGrid(a, n, m) && IsGrid(b, m, p) && |s0| == n * p && lo <= hi <= m
    requires ii <= i < iMax <= n && jj <= j < jMax <= p
    ensures Index(p, i, j) < n * p
    ensures BlockFlat(a, b, s0, n, m, p, ii, iMax, jj, jMax, lo, hi, i, j)[Index(p, i, j)] == s0[Index(p, i, j)]
    ensures BlockFlat(a, b, s0, n, m, p, ii, iMax, jj, jMax, lo, hi, i, j)
              [Index(p, i, j) := DotRange(a, b, i, j, lo, hi, s0[Index(p, i, j)])]
         == BlockFlat(a, b, s0, n, m, p, ii, iMax, jj, jMax, lo, hi, i, j + 1)
  {
    SplitOfIndex(n, p, i, j);
    var f := BlockFlat(a, b, s0, n, m, p, ii, iMax, jj, jMax, lo, hi, i, j);
    var f' := BlockFlat(a, b, s0, n, m, p, ii, iMax, jj, jMax, lo, hi, i, j + 1);
    var x0 := Index(p, i, j);
    forall x | 0 <= x < n * p ensures f[x0 := DotRange(a, b, i, j, lo, hi, s0[x0])][x] == f'[x] {
      SplitIndex(n, p, x);
      if x != x0 {
        assert x / p != i || x % p != j;
      }
    }
  }

  /** A finished row of the block hands over to the next row; nothing is written at first. */
  lemma BlockFlatRows(a: Grid, b: Grid, s0: seq<real>, n: nat, m: nat, p: nat,
                      ii: nat, iMax: nat, jj: nat, jMax: nat, lo: nat, hi: nat, i: nat, j: nat)
    requires IsGrid(a, n, m) && IsGrid(b, m, p) && |s0| == n * p && lo <= hi <= m
    requires ii <= i && jMax <= j
    ensures BlockFlat(a, b, s0, n, m, p, ii, iMax, jj, jMax, lo, hi, i, j)
         == BlockFlat(a, b, s0, n, m, p, ii, iMax, jj, jMax, lo, hi, i + 1, jj)
    ensures BlockFlat(a, b, s0, n, m, p, ii, iMax, jj, jMax, lo, hi, ii, jj) == s0
  {
    var f := BlockFlat(a, b, s0, n, m, p, ii, iMax, jj, jMax, lo, hi, i, j);
    var f' := BlockFlat(a, b, s0, n, m, p, ii, iMax, jj, jMax, lo, hi, i + 1, jj);
    forall x | 0 <= x < n * p ensures f[x] == f'[x] {
      SplitIndex(n, p, x);
    }
    var e := BlockFlat(a, b, s0, n, m, p, ii, iMax, jj, jMax, lo, hi, ii, jj);
    forall x | 0 <= x < n * p ensures e[x] == s0[x] {
      SplitIndex(n, p, x);
    }
  }

  /** When the row loop stops, at `iMax` or without starting, the block is written to `iMax`. */
  lemma BlockFlatFinished(a: Grid, b: Grid, s0: seq<real>, n: nat, m: nat, p: nat,
                          ii: nat, iMax: nat, jj: nat, jMax: nat, lo: nat, hi: nat, i: nat)
    requires IsGrid(a, n, m) && IsGrid(b, m, p) && |s0| == n * p && lo <= hi <= m
    requires iMax <= i && (i == iMax || i == ii)
    ensures BlockFlat(a, b, s0, n, m, p, ii, iMax, jj, jMax, lo, hi, i, jj)
         == BlockFlat(a, b, s0, n, m, p, ii, iMax, jj, jMax, lo, hi, iMax, jj)
  {
    var f := BlockFlat(a, b, s0, n, m, p, ii, iMax, jj, jMax, lo, hi, i, jj);
    var f' := BlockFlat(a, b, s0, n, m, p, ii, iMax, jj, jMax, lo, hi, iMax, jj);
    forall x | 0 <= x < n * p ensures f[x] == f'[x] {
      SplitIndex(n, p, x);
    }
  }

  // ---------------------------------------------------------------- multiply_blocked

  /**
   * How many terms of cell (r, c)'s sum `multiply_blocked` has added when it is about to run
   * block (ii, jj, kk): all `m` in finished block rows and in finished blocks of the current
   * block row, those below `kk` in the current block, none elsewhere.
   */
  function BlockedPrefix(r: nat, c: nat, ii: nat, jj: nat, kk: nat, m: nat): (k: nat)
    ensures k <= m
  {
    if r < ii then m
    else if r < ii + BlockSize && c < jj then m
    else if r < ii + BlockSize && c < jj + BlockSize then MinNat(kk, m)
    else 0
  }

  /** The result buffer of `multiply_blocked` when it is about to run block (ii, jj, kk). */
  ghost function BlockedFlat(a: Grid, b: Grid, n: nat, m: nat, p: nat, ii: nat, jj: nat, kk: nat): (s: seq<real>)
    requires IsGrid(a, n, m) && IsGrid(b, m, p)
    ensures |s| == n * p
  {
    seq(n * p, x requires 0 <= x < n * p =>
      SplitIndex(n, p, x);
      DotPrefix(a, b, x / p, x % p, BlockedPrefix(x / p, x % p, ii, jj, kk, m)))
  }

  /** One `multiply_block` call takes the current block from `kk` terms to the next `kk`. */
  lemma BlockedStep(a: Grid, b: Grid, n: nat, m: nat, p: nat, ii: nat, jj: nat, kk: nat)
    requires IsGrid(a, n, m) && IsGrid(b, m, p) && kk < m
    ensures BlockFlat(a, b, BlockedFlat(a, b, n, m, p, ii, jj, kk), n, m, p,
                      ii, MinNat(ii + BlockSize, n), jj, MinNat(jj + BlockSize, p),
                      MinNat(kk, MinNat(kk + BlockSize, m)), MinNat(kk + BlockSize, m), MinNat(ii + BlockSize, n), jj)
         == BlockedFlat(a, b, n, m, p, ii, jj, kk + BlockSize)
  {
    var s0 := BlockedFlat(a, b, n, m, p, ii, jj, kk);
    var f := BlockFlat(a, b, s0, n, m, p, ii, MinNat(ii + BlockSize, n), jj, MinNat(jj + BlockSize, p),
                       MinNat(kk, MinNat(kk + BlockSize, m)), MinNat(kk + BlockSize, m), MinNat(ii + BlockSize, n), jj);
    var f' := BlockedFlat(a, b, n, m, p, ii, jj, kk + BlockSize);
    forall x | 0 <= x < n * p ensures f[x] == f'[x] {
      SplitIndex(n, p, x);
      var r, c := x / p, x % p;
      if ii <= r < ii + BlockSize && jj <= c < jj + BlockSize {
        DotRangeExtendsPrefix(a, b, r, c, kk, MinNat(kk + BlockSize, m));
      }
    }
  }

  /** A finished block hands over to the next block of its row. */
  lemma BlockedBlockDone(a: Grid, b: Grid, n: nat, m: nat, p: nat, ii: nat, jj: nat, kk: nat)
    requires IsGrid(a, n, m) && IsGrid(b, m, p) && m <= kk
    ensures BlockedFlat(a, b, n, m, p, ii, jj, kk) == BlockedFlat(a, b, n, m, p, ii, jj + BlockSize, 0)
  {
    var f := BlockedFlat(a, b, n, m, p, ii, jj, kk);
    var f' := BlockedFlat(a, b, n, m, p, ii, jj + BlockSize, 0);
    forall x | 0 <= x < n * p ensures f[x] == f'[x] {
      SplitIndex(n, p, x);
    }
  }

  /** A finished block row hands over to the next block row. */
  lemma BlockedRowDone(a: Grid, b: Grid, n: nat, m: nat, p: nat, ii: nat, jj: nat)
    requires IsGrid(a, n, m) && IsGrid(b, m, p) && p <= jj
    ensures BlockedFlat(a, b, n, m, p, ii, jj, 0) == BlockedFlat(a, b, n, m, p, ii + BlockSize, 0, 0)
  {
    var f := BlockedFlat(a, b, n, m, p, ii, jj, 0);
    var f' := BlockedFlat(a, b, n, m, p, ii + BlockSize, 0, 0);
    forall x | 0 <= x < n * p ensures f[x] == f'[x] {
      SplitIndex(n, p, x);
    }
  }

  /** Nothing is added at first, and every sum is complete once all block rows are done. */
  lemma BlockedEnds(a: Grid, b: Grid, n: nat, m: nat, p: nat, s: seq<real>, ii: nat)
    requires IsGrid(a, n, m) && IsGrid(b, m, p) && n <= ii
    ensures (|s| == n * p && forall x :: 0 <= x < |s| ==> s[x] == 0.0) ==> s == BlockedFlat(a, b, n, m, p, 0, 0, 0)
    ensures ToGrid(BlockedFlat(a, b, n, m, p, ii, 0, 0), n, p) == Product(a, b, n, m, p)
  {
    if |s| == n * p && forall x :: 0 <= x < |s| ==> s[x] == 0.0 {
      var e := BlockedFlat(a, b, n, m, p, 0, 0, 0);
      forall x | 0 <= x < n * p ensures e[x] == 0.0 {
        SplitIndex(n, p, x);
      }
    }
    var f := BlockedFlat(a, b, n, m, p, ii, 0, 0);
    forall r, c | 0 <= r < n && 0 <= c < p ensures Cell(f, n, p, r, c) == Product(a, b, n, m, p)[r][c] {
      SplitOfIndex(n, p, r, c);
    }
    ToGridOfCells(f, n, p, Product(a, b, n, m, p));
  }

  // ---------------------------------------------------------------- transpose

  /**
   * The `cols x rows` result buffer of `transpose()` once the source cells before `upto`,
   * row-major, are copied: position y is cell (y / rows, y % rows) of the result, which comes
   * from source cell (y % rows, y / rows).
   */
  ghost function TransposeFlat(g: Grid, rows: nat, cols: nat, upto: nat): (s: seq<real>)
    requires IsGrid(g, rows, cols)
    ensures |s| == cols * rows
  {
    seq(cols * rows, y requires 0 <= y < cols * rows =>
      SplitIndex(cols, rows, y);
      var r, c := y % rows, y / rows;
      if Index(cols, r, c) < upto then g[r][c] else 0.0)
  }

  /** Copying source cell (i, j) to (j, i) extends the copied prefix by one. */
  lemma TransposeFlatAdvance(g: Grid, rows: nat, cols: nat, i: nat, j: nat)
    requires IsGrid(g, rows, cols) && i < rows && j < cols
    ensures Index(rows, j, i) < cols * rows && Index(cols, i, j) + 1 == Index(cols, i, j + 1)
    ensures TransposeFlat(g, rows, cols, Index(cols, i, j))[Index(rows, j, i) := g[i][j]]
         == TransposeFlat(g, rows, cols, Index(cols, i, j) + 1)
  {
    SplitOfIndex(cols, rows, j, i);
    var f := TransposeFlat(g, rows, cols, Index(cols, i, j));
    var f' := TransposeFlat(g, rows, cols, Index(cols, i, j) + 1);
    var y0 := Index(rows, j, i);
    forall y | 0 <= y < cols * rows ensures f[y0 := g[i][j]][y] == f'[y] {
      TransposeFlatAt(rows, cols, i, j, y);
    }
  }

  lemma TransposeFlatAt(rows: nat, cols: nat, i: nat, j: nat, y: nat)
    requires i < rows && j < cols && y < cols * rows
    ensures rows > 0 && cols > 0
    ensures y == Index(rows, j, i) <==> Index(cols, y % rows, y / rows) == Index(cols, i, j)
    ensures y % rows < rows && y / rows < cols
  {
    SplitIndex(cols, rows, y);
    SplitOfIndex(cols, rows, j, i);
    if Index(cols, y % rows, y / rows) == Index(cols, i, j) {
      IndexInjective(cols, y % rows, y / rows, i, j);
    }
  }

  /** Nothing is copied at first, and the transpose is complete once every cell is. */
  lemma TransposeFlatEnds(g: Grid, rows: nat, cols: nat, s: seq<real>)
    requires IsGrid(g, rows, cols)
    ensures (|s| == cols * rows && forall y :: 0 <= y < |s| ==> s[y] == 0.0) ==> s == TransposeFlat(g, rows, cols, 0)
    ensures ToGrid(TransposeFlat(g, rows, cols, rows * cols), cols, rows) == Transposed(g, rows, cols)
  {
    var f := TransposeFlat(g, rows, cols, rows * cols);
    forall c, r | 0 <= c < cols && 0 <= r < rows ensures Cell(f, cols, rows, c, r) == Transposed(g, rows, cols)[c][r] {
      SplitOfIndex(cols, rows, c, r);
      IndexInBounds(rows, cols, r, c);
    }
    ToGridOfCells(f, cols, rows, Transposed(g, rows, cols));
  }

  // ---------------------------------------------------------------- diagonal

  /** The buffer of `diagonal(value)` once the diagonal cells above row `upto` are written. */
  ghost function DiagonalFlat(n: nat, value: real, upto: nat): (s: seq<real>)
    ensures |s| == n * n
  {
    seq(n * n, x requires 0 <= x < n * n =>
      SplitIndex(n, n, x);
      if x / n == x % n && x / n < upto then value else 0.0)
  }

  /** Writing (i, i) extends the written diagonal by one. */
  lemma DiagonalFlatAdvance(n: nat, value: real, i: nat)
    requires i < n
    ensures Index(n, i, i) < n * n
    ensures DiagonalFlat(n, value, i)[Index(n, i, i) := value] == DiagonalFlat(n, value, i + 1)
  {
    SplitOfIndex(n, n, i, i);
    var f := DiagonalFlat(n, value, i);
    var f' := DiagonalFlat(n, value, i + 1);
    forall x | 0 <= x < n * n ensures f[Index(n, i, i) := value][x] == f'[x] {
      SplitIndex(n, n, x);
    }
  }

  /** Nothing is written at first, and the diagonal is complete once every row is. */
  lemma DiagonalFlatEnds(n: nat, value: real, s: seq<real>)
    ensures (|s| == n * n && forall x :: 0 <= x < |s| ==> s[x] == 0.0) ==> s == DiagonalFlat(n, value, 0)
    ensures ToGrid(DiagonalFlat(n, value, n), n, n) == Diagonal(n, value)
  {
    var f := DiagonalFlat(n, value, n);
    forall r, c | 0 <= r < n && 0 <= c < n ensures Cell(f, n, n, r, c) == Diagonal(n, value)[r][c] {
      SplitOfIndex(n, n, r, c);
    }
    ToGridOfCells(f, n, n, Diagonal(n, value));
  }

  // ---------------------------------------------------------------- row exchange

  /**
   * A `w`-wide buffer while rows `i` and `p` are exchanged with `std::swap`, columns below
   * `upto` already exchanged.
   */
  ghost function SwapFlat(s0: seq<real>, n: nat, w: nat, i: nat, p: nat, upto: nat): (s: seq<real>)
    requires |s0| == n * w && i < n && p < n
    ensures |s| == n * w
  {
    seq(n * w, x requires 0 <= x < n * w =>
      SplitIndex(n, w, x);
      var r, c := x / w, x % w;
      if c < upto && r == i then Cell(s0, n, w, p, c)
      else if c < upto && r == p then Cell(s0, n, w, i, c)
      else s0[x])
  }

  /** Exchanging column `j` of the two rows extends the exchanged prefix by one. */
  lemma SwapFlatAdvance(s0: seq<real>, n: nat, w: nat, i: nat, p: nat, j: nat)
    requires |s0| == n * w && i < n && p < n && j < w
    ensures Index(w, i, j) < n * w && Index(w, p, j) < n * w
    ensures SwapFlat(s0, n, w, i, p, j)[Index(w, i, j)] == s0[Index(w, i, j)]
    ensures SwapFlat(s0, n, w, i, p, j)[Index(w, p, j)] == s0[Index(w, p, j)]
    ensures SwapFlat(s0, n, w, i, p, j)[Index(w, i, j) := s0[Index(w, p, j)]][Index(w, p, j) := s0[Index(w, i, j)]]
         == SwapFlat(s0, n, w, i, p, j + 1)
  {
    SplitOfIndex(n, w, i, j);
    SplitOfIndex(n, w, p, j);
    var f := SwapFlat(s0, n, w, i, p, j);
    var f' := SwapFlat(s0, n, w, i, p, j + 1);
    var xi, xp := Index(w, i, j), Index(w, p, j);
    forall x | 0 <= x < n * w ensures f[xi := s0[xp]][xp := s0[xi]][x] == f'[x] {
      SplitIndex(n, w, x);
    }
  }

  /** Nothing is exchanged at first; once every column is, the rows are exchanged. */
  lemma SwapFlatEnds(s0: seq<real>, n: nat, w: nat, i: nat, p: nat)
    requires |s0| == n * w && i < n && p < n
    ensures SwapFlat(s0, n, w, i, p, 0) == s0
    ensures Elimination.SwapRows(ToGrid(s0, n, w), i, p) == ToGrid(SwapFlat(s0, n, w, i, p, w), n, w)
  {
    var e := SwapFlat(s0, n, w, i, p, 0);
    forall x | 0 <= x < n * w ensures e[x] == s0[x] {
      SplitIndex(n, w, x);
    }
    var f := SwapFlat(s0, n, w, i, p, w);
    var h := Elimination.SwapRows(ToGrid(s0, n, w), i, p);
    Elimination.SwapRowsIsGrid(ToGrid(s0, n, w), n, w, i, p);
    forall r, c | 0 <= r < n && 0 <= c < w ensures Cell(f, n, w, r, c) == h[r][c] {
      SplitOfIndex(n, w, r, c);
    }
    ToGridOfCells(f, n, w, h);
  }

  // ---------------------------------------------------------------- elimination below a pivot

  /**
   * The square buffer while `determinant()` eliminates below pivot `i`: the cells right of
   * column `i` in rows below `i`, up to (k, j) row-major, hold their reduced value.
   */
  ghost function ElimBelowFlat(s0: seq<real>, n: nat, i: nat, k: nat, j: nat): (s: seq<real>)
    requires |s0| == n * n && i < n && Cell(s0, n, n, i, i) != 0.0
    ensures |s| == n * n
  {
    seq(n * n, x requires 0 <= x < n * n =>
      SplitIndex(n, n, x);
      var r, c := x / n, x % n;
      if i < r && i < c && (r < k || (r == k && c < j))
      then Elimination.Reduce(s0[x], Cell(s0, n, n, r, i) / Cell(s0, n, n, i, i), Cell(s0, n, n, i, c))
      else s0[x])
  }

  /** Cell (r, c) of the partial elimination. */
  lemma ElimBelowFlatAt(s0: seq<real>, n: nat, i: nat, k: nat, j: nat, r: nat, c: nat)
    requires |s0| == n * n && i < n && Cell(s0, n, n, i, i) != 0.0 && r < n && c < n
    ensures Index(n, r, c) < n * n
    ensures !(i < r && i < c && (r < k || (r == k && c < j))) ==>
      ElimBelowFlat(s0, n, i, k, j)[Index(n, r, c)] == Cell(s0, n, n, r, c)
  {
    SplitOfIndex(n, n, r, c);
  }

  /** Reducing cell (k, j) extends the eliminated part by that cell. */
  lemma ElimBelowFlatAdvance(s0: seq<real>, n: nat, i: nat, k: nat, j: nat, x: real, factor: real, y: real)
    requires |s0| == n * n && i < k < n && i < j < n && Cell(s0, n, n, i, i) != 0.0
    requires x == Cell(s0, n, n, k, j) && y == Cell(s0, n, n, i, j)
    requires factor == Cell(s0, n, n, k, i) / Cell(s0, n, n, i, i)
    ensures Index(n, k, j) < n * n
    ensures ElimBelowFlat(s0, n, i, k, j)[Index(n, k, j) := Elimination.Reduce(x, factor, y)] == ElimBelowFlat(s0, n, i, k, j + 1)
  {
    SplitOfIndex(n, n, k, j);
    var f := ElimBelowFlat(s0, n, i, k, j);
    var f' := ElimBelowFlat(s0, n, i, k, j + 1);
    forall z | 0 <= z < n * n ensures f[Index(n, k, j) := Elimination.Reduce(x, factor, y)][z] == f'[z] {
      SplitIndex(n, n, z);
    }
  }

  /** A finished row hands over to the next; nothing is reduced at first. */
  lemma ElimBelowFlatRows(s0: seq<real>, n: nat, i: nat, k: nat)
    requires |s0| == n * n && i < n && Cell(s0, n, n, i, i) != 0.0
    ensures ElimBelowFlat(s0, n, i, k, n) == ElimBelowFlat(s0, n, i, k + 1, i + 1)
    ensures ElimBelowFlat(s0, n, i, i + 1, i + 1) == s0
  {
    var f := ElimBelowFlat(s0, n, i, k, n);
    var f' := ElimBelowFlat(s0, n, i, k + 1, i + 1);
    forall z | 0 <= z < n * n ensures f[z] == f'[z] {
      SplitIndex(n, n, z);
    }
    var e := ElimBelowFlat(s0, n, i, i + 1, i + 1);
    forall z | 0 <= z < n * n ensures e[z] == s0[z] {
      SplitIndex(n, n, z);
    }
  }

  /** Once every row below `i` is reduced, the buffer holds `EliminateBelow`. */
  lemma ElimBelowFlatEnds(s0: seq<real>, n: nat, i: nat)
    requires |s0| == n * n && i < n && Cell(s0, n, n, i, i) != 0.0
    ensures ToGrid(s0, n, n)[i][i] != 0.0
    ensures Elimination.EliminateBelow(ToGrid(s0, n, n), n, i) == ToGrid(ElimBelowFlat(s0, n, i, n, i + 1), n, n)
  {
    var g := ToGrid(s0, n, n);
    var f := ElimBelowFlat(s0, n, i, n, i + 1);
    var h := Elimination.EliminateBelow(g, n, i);
    forall r, c | 0 <= r < n && 0 <= c < n ensures Cell(f, n, n, r, c) == h[r][c] {
      ElimBelowFlatEndsAt(s0, n, i, r, c);
    }
    ToGridOfCells(f, n, n, h);
  }

  lemma ElimBelowFlatEndsAt(s0: seq<real>, n: nat, i: nat, r: nat, c: nat)
    requires |s0| == n * n && i < n && Cell(s0, n, n, i, i) != 0.0 && r < n && c < n
    ensures ToGrid(s0, n, n)[i][i] != 0.0
    ensures Cell(ElimBelowFlat(s0, n, i, n, i + 1), n, n, r, c)
         == Elimination.EliminateBelow(ToGrid(s0, n, n), n, i)[r][c]
  {
    SplitOfIndex(n, n, r, c);
    Elimination.EliminateBelowCell(ToGrid(s0, n, n), n, i, r, c);
  }

  // ---------------------------------------------------------------- the augmented block

  /**
   * The `n x w` block of `inverse_n`, `w == 2n`, while [A | I] is written: for the pairs
   * (r, col) before (i, j) row-major, column `col` holds `g[r][col]` and column `col + n`
   * the identity entry.
   */
  ghost function AugFlat(g: Grid, n: nat, w: nat, i: nat, j: nat): (s: seq<real>)
    requires IsGrid(g, n, n) && w == 2 * n
    ensures |s| == n * w
  {
    seq(n * w, x requires 0 <= x < n * w =>
      SplitIndex(n, w, x);
      var r, c := x / w, x % w;
      var col := if c < n then c else c - n;
      if !(r < i || (r == i && col < j)) then 0.0
      else if c < n then g[r][c]
      else if col == r then 1.0 else 0.0)
  }

  /** Writing the pair for (i, j) extends the written part by one pair. */
  lemma AugFlatAdvance(g: Grid, n: nat, w: nat, i: nat, j: nat)
    requires IsGrid(g, n, n) && w == 2 * n && i < n && j < n
    ensures Index(w, i, j) < n * w && Index(w, i, j + n) < n * w
    ensures AugFlat(g, n, w, i, j)[Index(w, i, j) := g[i][j]][Index(w, i, j + n) := if i == j then 1.0 else 0.0]
         == AugFlat(g, n, w, i, j + 1)
  {
    SplitOfIndex(n, w, i, j);
    SplitOfIndex(n, w, i, j + n);
    var f := AugFlat(g, n, w, i, j);
    var f' := AugFlat(g, n, w, i, j + 1);
    var x0, x1 := Index(w, i, j), Index(w, i, j + n);
    forall x | 0 <= x < n * w ensures f[x0 := g[i][j]][x1 := if i == j then 1.0 else 0.0][x] == f'[x] {
      SplitIndex(n, w, x);
    }
  }

  /** A finished row hands over to the next. */
  lemma AugFlatRows(g: Grid, n: nat, w: nat, i: nat)
    requires IsGrid(g, n, n) && w == 2 * n
    ensures AugFlat(g, n, w, i, n) == AugFlat(g, n, w, i + 1, 0)
  {
    var f := AugFlat(g, n, w, i, n);
    var f' := AugFlat(g, n, w, i + 1, 0);
    forall x | 0 <= x < n * w ensures f[x] == f'[x] {
      SplitIndex(n, w, x);
    }
  }

  /** Nothing is written at first. */
  lemma AugFlatStart(g: Grid, n: nat, w: nat, s: seq<real>)
    requires IsGrid(g, n, n) && w == 2 * n
    requires |s| == n * w && forall x :: 0 <= x < |s| ==> s[x] == 0.0
    ensures s == AugFlat(g, n, w, 0, 0)
  {
    var e := AugFlat(g, n, w, 0, 0);
    forall x | 0 <= x < n * w ensures e[x] == 0.0 {
      SplitIndex(n, w, x);
    }
  }

  /** Once every row is written, the block is [A | I]. */
  lemma AugFlatEnds(g: Grid, n: nat, w: nat)
    requires IsGrid(g, n, n) && w == 2 * n
    ensures ToGrid(AugFlat(g, n, w, n, 0), n, w) == Elimination.Augment(g, n)
  {
    var f := AugFlat(g, n, w, n, 0);
    var h := Elimination.Augment(g, n);
    forall r, c | 0 <= r < n && 0 <= c < w ensures Cell(f, n, w, r, c) == h[r][c] {
      SplitOfIndex(n, w, r, c);
    }
    ToGridOfCells(f, n, w, h);
  }

  // ---------------------------------------------------------------- normalising the pivot row

  /** Row `i` of a `w`-wide buffer while it is divided by `pivot`, columns below `upto` done. */
  ghost function NormFlat(s0: seq<real>, n: nat, w: nat, i: nat, pivot: real, upto: nat): (s: seq<real>)
    requires |s0| == n * w && i < n && pivot != 0.0
    ensures |s| == n * w
  {
    seq(n * w, x requires 0 <= x < n * w =>
      SplitIndex(n, w, x);
      if x / w == i && x % w < upto then s0[x] / pivot else s0[x])
  }

  /** Dividing cell (i, j) extends the normalised prefix by one. */
  lemma NormFlatAdvance(s0: seq<real>, n: nat, w: nat, i: nat, pivot: real, j: nat, x: real)
    requires |s0| == n * w && i < n && pivot != 0.0 && j < w
    ensures Index(w, i, j) < n * w
    ensures NormFlat(s0, n, w, i, pivot, j)[Index(w, i, j)] == s0[Index(w, i, j)]
    ensures x == s0[Index(w, i, j)] ==>
      NormFlat(s0, n, w, i, pivot, j)[Index(w, i, j) := x / pivot] == NormFlat(s0, n, w, i, pivot, j + 1)
  {
    SplitOfIndex(n, w, i, j);
    var f := NormFlat(s0, n, w, i, pivot, j);
    var f' := NormFlat(s0, n, w, i, pivot, j + 1);
    if x == s0[Index(w, i, j)] {
      forall z | 0 <= z < n * w ensures f[Index(w, i, j) := x / pivot][z] == f'[z] {
        SplitIndex(n, w, z);
      }
    }
  }

  /** Nothing is divided at first; once every column is, the buffer holds `NormalizeRow`. */
  lemma NormFlatEnds(s0: seq<real>, n: nat, w: nat, i: nat)
    requires |s0| == n * w && i < n && i < w && Cell(s0, n, w, i, i) != 0.0
    ensures NormFlat(s0, n, w, i, Cell(s0, n, w, i, i), 0) == s0
    ensures ToGrid(s0, n, w)[i][i] != 0.0
    ensures Elimination.NormalizeRow(ToGrid(s0, n, w), n, w, i) == ToGrid(NormFlat(s0, n, w, i, Cell(s0, n, w, i, i), w), n, w)
  {
    var pivot := Cell(s0, n, w, i, i);
    var e := NormFlat(s0, n, w, i, pivot, 0);
    forall x | 0 <= x < n * w ensures e[x] == s0[x] {
      SplitIndex(n, w, x);
    }
    var f := NormFlat(s0, n, w, i, pivot, w);
    var h := Elimination.NormalizeRow(ToGrid(s0, n, w), n, w, i);
    forall r, c | 0 <= r < n && 0 <= c < w ensures Cell(f, n, w, r, c) == h[r][c] {
      SplitOfIndex(n, w, r, c);
    }
    ToGridOfCells(f, n, w, h);
  }

  // ---------------------------------------------------------------- eliminating the other rows

  /**
   * A `w`-wide buffer while `inverse_n` clears column `i` from every row but `i`: the cells
   * before (k, j) row-major, outside row `i`, hold their reduced value.
   */
  ghost function ElimOthersFlat(s0: seq<real>, n: nat, w: nat, i: nat, k: nat, j: nat): (s: seq<real>)
    requires |s0| == n * w && i < n && i < w
    ensures |s| == n * w
  {
    seq(n * w, x requires 0 <= x < n * w =>
      SplitIndex(n, w, x);
      var r, c := x / w, x % w;
      if r != i && (r < k || (r == k && c < j))
      then Elimination.Reduce(s0[x], Cell(s0, n, w, r, i), Cell(s0, n, w, i, c))
      else s0[x])
  }

  /** Cell (r, c) of the partial elimination, outside its written part. */
  lemma ElimOthersFlatAt(s0: seq<real>, n: nat, w: nat, i: nat, k: nat, j: nat, r: nat, c: nat)
    requires |s0| == n * w && i < n && i < w && r < n && c < w
    ensures Index(w, r, c) < n * w
    ensures !(r != i && (r < k || (r == k && c < j))) ==>
      ElimOthersFlat(s0, n, w, i, k, j)[Index(w, r, c)] == Cell(s0, n, w, r, c)
  {
    SplitOfIndex(n, w, r, c);
  }

  /** Reducing cell (k, j) extends the eliminated part by that cell. */
  lemma ElimOthersFlatAdvance(s0: seq<real>, n: nat, w: nat, i: nat, k: nat, j: nat, x: real, factor: real, y: real)
    requires |s0| == n * w && i < n && i < w && k < n && k != i && j < w
    requires x == Cell(s0, n, w, k, j) && factor == Cell(s0, n, w, k, i) && y == Cell(s0, n, w, i, j)
    ensures Index(w, k, j) < n * w
    ensures ElimOthersFlat(s0, n, w, i, k, j)[Index(w, k, j) := Elimination.Reduce(x, factor, y)]
         == ElimOthersFlat(s0, n, w, i, k, j + 1)
  {
    SplitOfIndex(n, w, k, j);
    var f := ElimOthersFlat(s0, n, w, i, k, j);
    var f' := ElimOthersFlat(s0, n, w, i, k, j + 1);
    forall z | 0 <= z < n * w ensures f[Index(w, k, j) := Elimination.Reduce(x, factor, y)][z] == f'[z] {
      SplitIndex(n, w, z);
    }
  }

  /** A finished row, or the skipped pivot row, hands over to the next; nothing is reduced at first. */
  lemma ElimOthersFlatRows(s0: seq<real>, n: nat, w: nat, i: nat, k: nat)
    requires |s0| == n * w && i < n && i < w
    ensures ElimOthersFlat(s0, n, w, i, k, w) == ElimOthersFlat(s0, n, w, i, k + 1, 0)
    ensures ElimOthersFlat(s0, n, w, i, i, 0) == ElimOthersFlat(s0, n, w, i, i + 1, 0)
    ensures ElimOthersFlat(s0, n, w, i, 0, 0) == s0
  {
    forall z | 0 <= z < n * w
      ensures ElimOthersFlat(s0, n, w, i, k, w)[z] == ElimOthersFlat(s0, n, w, i, k + 1, 0)[z]
      ensures ElimOthersFlat(s0, n, w, i, i, 0)[z] == ElimOthersFlat(s0, n, w, i, i + 1, 0)[z]
      ensures ElimOthersFlat(s0, n, w, i, 0, 0)[z] == s0[z]
    {
      ElimOthersFlatRowsAt(s0, n, w, i, k, z);
    }
  }

  lemma ElimOthersFlatRowsAt(s0: seq<real>, n: nat, w: nat, i: nat, k: nat, z: nat)
    requires |s0| == n * w && i < n && i < w && z < n * w
    ensures ElimOthersFlat(s0, n, w, i, k, w)[z] == ElimOthersFlat(s0, n, w, i, k + 1, 0)[z]
    ensures ElimOthersFlat(s0, n, w, i, i, 0)[z] == ElimOthersFlat(s0, n, w, i, i + 1, 0)[z]
    ensures ElimOthersFlat(s0, n, w, i, 0, 0)[z] == s0[z]
  {
    SplitIndex(n, w, z);
  }

  /** Once every row is done, the buffer holds `EliminateOthers`. */
  lemma ElimOthersFlatEnds(s0: seq<real>, n: nat, w: nat, i: nat)
    requires |s0| == n * w && i < n && i < w
    ensures Elimination.EliminateOthers(ToGrid(s0, n, w), n, w, i) == ToGrid(ElimOthersFlat(s0, n, w, i, n, 0), n, w)
  {
    var f := ElimOthersFlat(s0, n, w, i, n, 0);
    var h := Elimination.EliminateOthers(ToGrid(s0, n, w), n, w, i);
    forall r, c | 0 <= r < n && 0 <= c < w ensures Cell(f, n, w, r, c) == h[r][c] {
      ElimOthersFlatEndsAt(s0, n, w, i, r, c);
    }
    ToGridOfCells(f, n, w, h);
  }

  lemma ElimOthersFlatEndsAt(s0: seq<real>, n: nat, w: nat, i: nat, r: nat, c: nat)
    requires |s0| == n * w && i < n && i < w && r < n && c < w
    ensures Cell(ElimOthersFlat(s0, n, w, i, n, 0), n, w, r, c)
         == Elimination.EliminateOthers(ToGrid(s0, n, w), n, w, i)[r][c]
  {
    SplitOfIndex(n, w, r, c);
    Elimination.EliminateOthersCell(ToGrid(s0, n, w), n, w, i, r, c);
  }

  // ---------------------------------------------------------------- the right half

  /** The `n x n` result of `inverse_n` once its first `upto` cells are copied from the block. */
  ghost function RightFlat(s: seq<real>, n: nat, w: nat, upto: nat): (t: seq<real>)
    requires |s| == n * w && w == 2 * n
    ensures |t| == n * n
  {
    seq(n * n, x requires 0 <= x < n * n =>
      SplitIndex(n, n, x);
      var r, c := x / n, x % n;
      if x < upto then Cell(s, n, w, r, c + n) else 0.0)
  }

  /** Copying cell (i, j) extends the copied prefix by one. */
  lemma RightFlatAdvance(s: seq<real>, n: nat, w: nat, i: nat, j: nat)
    requires |s| == n * w && w == 2 * n && i < n && j < n
    ensures Index(n, i, j) < n * n && Index(n, i, j) + 1 == Index(n, i, j + 1)
    ensures RightFlat(s, n, w, Index(n, i, j))[Index(n, i, j) := Cell(s, n, w, i, j + n)]
         == RightFlat(s, n, w, Index(n, i, j) + 1)
  {
    SplitOfIndex(n, n, i, j);
  }

  /** Nothing is copied at first, and the right half once every cell is. */
  lemma RightFlatEnds(s: seq<real>, n: nat, w: nat, t: seq<real>)
    requires |s| == n * w && w == 2 * n
    ensures (|t| == n * n && forall x :: 0 <= x < |t| ==> t[x] == 0.0) ==> t == RightFlat(s, n, w, 0)
    ensures ToGrid(RightFlat(s, n, w, n * n), n, n) == Elimination.RightHalf(ToGrid(s, n, w), n)
  {
    var f := RightFlat(s, n, w, n * n);
    var h := Elimination.RightHalf(ToGrid(s, n, w), n);
    forall r, c | 0 <= r < n && 0 <= c < n ensures Cell(f, n, n, r, c) == h[r][c] {
      SplitOfIndex(n, n, r, c);
    }
    ToGridOfCells(f, n, n, h);
  }
}
