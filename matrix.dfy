// The generic `Matrix<T, Rows, Cols>` of include/pbrt/math/matrix.hpp: a row-major flat buffer
// of `Rows * Cols` elements, updated in place by the compound operators, by the LU copy inside
// `determinant()` and by the augmented block inside `inverse_n()`. Every method is proved against
// the grid functions of `Grids`, `ClosedForms` and `Elimination`.
module Matrices {
  import opened Scalar
  import opened Wrappers
  import opened Grids
  import Vectors
  import ClosedForms
  import Elimination
  import GaussJordan
  import opened MatrixLoops

  /** The guard `operator()` and `at()` assert before indexing: a disjunction. */
  predicate AccessGuardAsWritten(rows: nat, cols: nat, r: nat, c: nat)
  {
    r < rows || c < cols
  }

  /** The guard `index()` asserts: both coordinates inside the shape. */
  predicate IndexGuard(rows: nat, cols: nat, r: nat, c: nat)
  {
    r < rows && c < cols
  }

  /**
   * The disjunction lets (0, cols) through, whose flat index is that of (1, 0): a write
   * through it lands in the next row. `index()`'s conjunction rejects it.
   */
  lemma AccessGuardAsWrittenAliases(rows: nat, cols: nat)
    requires 2 <= rows && 1 <= cols
    ensures AccessGuardAsWritten(rows, cols, 0, cols) && !IndexGuard(rows, cols, 0, cols)
    ensures Index(cols, 0, cols) == Index(cols, 1, 0)
  {
  }

  /** Under `index()`'s guard the flat index is inside the buffer and names only that cell. */
  lemma IndexGuardSound(rows: nat, cols: nat, r: nat, c: nat, r': nat, c': nat)
    requires IndexGuard(rows, cols, r, c) && IndexGuard(rows, cols, r', c')
    ensures Index(cols, r, c) < rows * cols
    ensures Index(cols, r, c) == Index(cols, r', c') <==> r == r' && c == c'
  {
    IndexInBounds(rows, cols, r, c);
    if Index(cols, r, c) == Index(cols, r', c') {
      IndexInjective(cols, r, c, r', c');
    }
  }

  /** `determinant()`: written out for sizes 1 to 4, LU elimination beyond. */
  function DeterminantOf(g: Grid, n: nat, eps: real): real
    requires IsGrid(g, n, n) && 0.0 < eps
  {
    if n == 1 then ClosedForms.Det1(g)
    else if n == 2 then ClosedForms.Det2(g)
    else if n == 3 then ClosedForms.Det3(g)
    else if n == 4 then ClosedForms.Det4(g)
    else Elimination.LuDeterminant(g, n, eps)
  }

  /**
   * The LU elimination that `determinant()` runs beyond size 4, taken at size 2 where the
   * written-out determinant is known: it is `Det2` unless the larger entry of the first column
   * (the pivot) or the second pivot, `Det2` over the first, falls below `eps`, when it is 0.
   */
  lemma LuAgreesAtTwo(g: Grid, eps: real)
    requires IsGrid(g, 2, 2) && 0.0 < eps
    ensures Elimination.LuDeterminant(g, 2, eps)
         == if Max(Abs(g[0][0]), Abs(g[1][0])) < eps
               || Abs(ClosedForms.Det2(g)) < eps * Max(Abs(g[0][0]), Abs(g[1][0]))
            then 0.0 else ClosedForms.Det2(g)
  {
    var p := Elimination.Pivot(g, 2, 2, 0);
    assert Abs(g[p][0]) == Max(Abs(g[0][0]), Abs(g[1][0]));
    if Abs(g[p][0]) < eps {
      LuSmallPivotAtTwo(g, eps);
    } else {
      LuLargePivotAtTwo(g, p, eps);
    }
  }

  /** A first pivot at or above `eps`: the LU determinant is `Det2` unless the second pivot is small. */
  lemma LuLargePivotAtTwo(g: Grid, p: nat, eps: real)
    requires IsGrid(g, 2, 2) && 0.0 < eps && p == Elimination.Pivot(g, 2, 2, 0)
    requires Abs(g[p][0]) == Max(Abs(g[0][0]), Abs(g[1][0])) && eps <= Abs(g[p][0])
    ensures Elimination.LuDeterminant(g, 2, eps)
         == if Max(Abs(g[0][0]), Abs(g[1][0])) < eps
               || Abs(ClosedForms.Det2(g)) < eps * Max(Abs(g[0][0]), Abs(g[1][0]))
            then 0.0 else ClosedForms.Det2(g)
  {
    var h := Elimination.LuStep(g, 2, 0, p);
    var d1 := Elimination.NextDet(1.0, g[p][0], p != 0);
    LuUnfoldAtTwo(g, p, eps);
    LuLastStepAtTwo(h, d1, eps);
    LuFirstStepAtTwo(g, p);
    LuGuardAtTwo(g, Elimination.LuDeterminant(g, 2, eps), h[1][1], d1, eps);
  }

  /** The first step of the LU loop at size 2, when its pivot reaches `eps`. */
  lemma LuUnfoldAtTwo(g: Grid, p: nat, eps: real)
    requires IsGrid(g, 2, 2) && 0.0 < eps && p == Elimination.Pivot(g, 2, 2, 0) && eps <= Abs(g[p][0])
    ensures Elimination.LuDeterminant(g, 2, eps)
         == Elimination.LuFrom(Elimination.LuStep(g, 2, 0, p), 2, 1, Elimination.NextDet(1.0, g[p][0], p != 0), eps)
  {
  }

  /** The second pivot is below `eps` exactly when the determinant is below `eps` times the first. */
  lemma LuGuardAtTwo(g: Grid, lu: real, second: real, d: real, eps: real)
    requires IsGrid(g, 2, 2) && 0.0 < eps <= Max(Abs(g[0][0]), Abs(g[1][0]))
    requires Abs(d) == Max(Abs(g[0][0]), Abs(g[1][0])) && d * second == ClosedForms.Det2(g)
    requires lu == if Abs(second) < eps then 0.0 else d * second
    ensures lu == if Max(Abs(g[0][0]), Abs(g[1][0])) < eps
                     || Abs(ClosedForms.Det2(g)) < eps * Max(Abs(g[0][0]), Abs(g[1][0]))
                  then 0.0 else ClosedForms.Det2(g)
  {
    PivotGuard(lu, Max(Abs(g[0][0]), Abs(g[1][0])), second, d, ClosedForms.Det2(g), eps);
  }

  lemma PivotGuard(lu: real, m: real, second: real, d: real, det: real, eps: real)
    requires 0.0 < eps <= m && Abs(d) == m && d * second == det
    requires lu == if Abs(second) < eps then 0.0 else d * second
    ensures lu == if m < eps || Abs(det) < eps * m then 0.0 else det
  {
    AbsOfProduct(d, second);
    Elimination.MulCongruent(Abs(second), Abs(d), m);
    assert Abs(det) == m * Abs(second);
    ScaledBelow(m, Abs(second), eps);
  }

  /** A first pivot below `eps` makes the LU determinant 0. */
  lemma LuSmallPivotAtTwo(g: Grid, eps: real)
    requires IsGrid(g, 2, 2) && 0.0 < eps
    requires Abs(g[Elimination.Pivot(g, 2, 2, 0)][0]) < eps
    ensures Elimination.LuDeterminant(g, 2, eps) == 0.0
  {
  }

  /** After the first step the running determinant times the second pivot is `Det2`. */
  lemma LuFirstStepAtTwo(g: Grid, p: nat)
    requires IsGrid(g, 2, 2) && p < 2 && g[p][0] != 0.0
    requires forall t :: 0 <= t < p ==> Abs(g[t][0]) < Abs(g[p][0])
    ensures Abs(Elimination.NextDet(1.0, g[p][0], p != 0)) == Abs(g[p][0])
    ensures Elimination.NextDet(1.0, g[p][0], p != 0) * Elimination.LuStep(g, 2, 0, p)[1][1] == ClosedForms.Det2(g)
  {
    var s := if p != 0 then Elimination.SwapRows(g, 0, p) else g;
    var h := Elimination.LuStep(g, 2, 0, p);
    assert s[0][0] == g[p][0];
    assert h[1][1] == s[1][1] - (s[1][0] / s[0][0]) * s[0][1];
    PivotTimesSecond(s[0][0], s[0][1], s[1][0], s[1][1], h[1][1]);
  }

  /** The last step at size 2: the running determinant times the pivot, or 0 below `eps`. */
  lemma LuLastStepAtTwo(h: Grid, d: real, eps: real)
    requires IsGrid(h, 2, 2) && 0.0 < eps
    ensures Elimination.LuFrom(h, 2, 1, d, eps) == if Abs(h[1][1]) < eps then 0.0 else d * h[1][1]
  {
    assert Elimination.Pivot(h, 2, 2, 1) == 1;
  }

  lemma PivotTimesSecond(a: real, b: real, c: real, d: real, second: real)
    requires a != 0.0 && second == d - (c / a) * b
    ensures a * second == a * d - b * c
  {
  }

  lemma AbsOfProduct(x: real, y: real)
    ensures Abs(x * y) == Abs(x) * Abs(y)
  {
  }

  lemma ScaledBelow(m: real, x: real, eps: real)
    requires 0.0 < m
    ensures m * x < eps * m <==> x < eps
  {
  }

  /** `inverse()`: `inverse_1` to `inverse_4` for sizes 1 to 4, Gauss-Jordan beyond. */
  function InverseOf(g: Grid, n: nat, eps: real): (r: Grid)
    requires IsGrid(g, n, n) && 0.0 < eps
    ensures IsGrid(r, n, n)
  {
    if n == 1 then ClosedForms.Inverse1(g, eps)
    else if n == 2 then ClosedForms.Inverse2(g, eps)
    else if n == 3 then ClosedForms.Inverse3(g, eps)
    else if n == 4 then ClosedForms.Inverse4(g, eps)
    else Elimination.InverseN(g, n, eps)
  }

  /** Up to size 4 an invertible matrix times its inverse is the identity; a singular one inverts to zero. */
  lemma InverseCorrect(g: Grid, n: nat, eps: real)
    requires IsGrid(g, n, n) && 1 <= n <= 4 && 0.0 < eps
    ensures Abs(DeterminantOf(g, n, eps)) <= eps ==> InverseOf(g, n, eps) == Zero(n, n)
    ensures eps < Abs(DeterminantOf(g, n, eps)) ==> Product(g, InverseOf(g, n, eps), n, n, n) == Identity(n)
  {
    if n == 1 {
      ClosedForms.Inverse1Correct(g, eps);
    } else if n == 2 {
      ClosedForms.Inverse2Correct(g, eps);
    } else if n == 3 {
      ClosedForms.Inverse3Correct(g, eps);
    } else {
      ClosedForms.Inverse4Correct(g, eps);
    }
  }

  /**
   * At size 3 the dispatch uses `inverse_3` with its determinant corrected. The determinant
   * as written pairs the first-row entries `m01` and `m02` with first-column cofactors, so it
   * is the determinant on every matrix whose entries (0, 1), (1, 0) and (0, 2), (2, 0) match.
   */
  lemma InverseOfAgreesAsWritten(g: Grid, eps: real)
    requires IsGrid(g, 3, 3) && 0.0 < eps
    ensures g[0][1] == g[1][0] && g[0][2] == g[2][0] ==> InverseOf(g, 3, eps) == ClosedForms.Inverse3AsWritten(g, eps)
  {
    if g[0][1] == g[1][0] && g[0][2] == g[2][0] {
      assert ClosedForms.Det3AsWritten(g) == ClosedForms.Det3(g);
    }
  }

  /**
   * Beyond size 4 `inverse()` is `inverse_n()`: the zero matrix when a pivot falls to `eps`,
   * otherwise a left inverse of `g`; a matrix with a non-zero null vector `x` inverts to zero.
   */
  lemma InverseBeyondFour(g: Grid, x: Grid, n: nat, eps: real)
    requires IsGrid(g, n, n) && IsGrid(x, n, 1) && 4 < n && 0.0 < eps
    ensures InverseOf(g, n, eps) == Zero(n, n) || Product(InverseOf(g, n, eps), g, n, n, n) == Identity(n)
    ensures Product(g, x, n, n, 1) == Zero(n, 1) && x != Zero(n, 1) ==> InverseOf(g, n, eps) == Zero(n, n)
  {
    GaussJordan.InverseNLeftInverse(g, n, eps);
    if Product(g, x, n, n, 1) == Zero(n, 1) && x != Zero(n, 1) {
      GaussJordan.InverseNSingular(g, x, n, eps);
    }
  }

  /** A written-out row of `operator*(Vector)` is the row's inner product with `v`. */
  lemma RowTimes2(row: Vectors.Vec, v: Vectors.Vec, x0: real, x1: real)
    requires |row| == 2 && |v| == 2 && x0 == row[0] && x1 == row[1]
    ensures x0 * v[0] + x1 * v[1] == Vectors.InnerProduct(row, v)
  {
    Vectors.InnerProductUnrolled(row, v);
  }

  lemma RowTimes3(row: Vectors.Vec, v: Vectors.Vec, x0: real, x1: real, x2: real)
    requires |row| == 3 && |v| == 3 && x0 == row[0] && x1 == row[1] && x2 == row[2]
    ensures x0 * v[0] + x1 * v[1] + x2 * v[2] == Vectors.InnerProduct(row, v)
  {
    Vectors.InnerProductUnrolled(row, v);
  }

  lemma RowTimes4(row: Vectors.Vec, v: Vectors.Vec, x0: real, x1: real, x2: real, x3: real)
    requires |row| == 4 && |v| == 4 && x0 == row[0] && x1 == row[1] && x2 == row[2] && x3 == row[3]
    ensures x0 * v[0] + x1 * v[1] + x2 * v[2] + x3 * v[3] == Vectors.InnerProduct(row, v)
  {
    Vectors.InnerProductUnrolled(row, v);
  }

  class Matrix {
    const rows: nat
    const cols: nat
    /** `m_data`, row-major: cell (r, c) at `r * cols + c`. */
    const data: array<real>

    /** `requires(Rows > 0 && Cols > 0)` and the buffer size. */
    ghost predicate Valid()
      reads this
    {
      rows > 0 && cols > 0 && data.Length == rows * cols
    }

    /** The matrix as a grid of rows. */
    function Value(): (g: Grid)
      requires Valid()
      reads this, data
      ensures IsGrid(g, rows, cols)
    {
      ToGrid(data[..], rows, cols)
    }

    /** The default constructor and `zero()`: every element 0. */
    constructor Zero(rows: nat, cols: nat)
      requires rows > 0 && cols > 0
      ensures Valid() && this.rows == rows && this.cols == cols && fresh(data)
      ensures Value() == Grids.Zero(rows, cols)
      ensures forall x :: 0 <= x < data.Length ==> data[x] == 0.0
    {
      this.rows := rows;
      this.cols := cols;
      data := new real[rows * cols](_ => 0.0);
      new;
      ToGridConstant(data[..], rows, cols, 0.0);
    }

    /** The fill constructor: every element `value`. */
    constructor Fill(rows: nat, cols: nat, value: real)
      requires rows > 0 && cols > 0
      ensures Valid() && this.rows == rows && this.cols == cols && fresh(data)
      ensures Value() == Constant(rows, cols, value)
    {
      this.rows := rows;
      this.cols := cols;
      data := new real[rows * cols](_ => value);
      new;
      ToGridConstant(data[..], rows, cols, value);
    }

    /** The element-list constructor: `Rows * Cols` values in row-major order. */
    constructor FromElements(rows: nat, cols: nat, elements: seq<real>)
      requires rows > 0 && cols > 0 && |elements| == rows * cols
      ensures Valid() && this.rows == rows && this.cols == cols && fresh(data)
      ensures data[..] == elements && Value() == ToGrid(elements, rows, cols)
    {
      this.rows := rows;
      this.cols := cols;
      data := new real[rows * cols](i requires 0 <= i < rows * cols => elements[i]);
    }

    /** The copy constructor, `Matrix result{*this}`. */
    constructor Copy(other: Matrix)
      requires other.Valid()
      ensures Valid() && rows == other.rows && cols == other.cols && fresh(data)
      ensures data[..] == other.data[..] && Value() == other.Value()
    {
      rows := other.rows;
      cols := other.cols;
      data := new real[other.data.Length](i requires 0 <= i < other.data.Length reads other.data => other.data[i]);
    }

    /** A matrix holding the grid `g`, written cell by cell. */
    constructor FromGrid(g: Grid, rows: nat, cols: nat)
      requires rows > 0 && cols > 0 && IsGrid(g, rows, cols)
      ensures Valid() && this.rows == rows && this.cols == cols && fresh(data)
      ensures Value() == g
    {
      this.rows := rows;
      this.cols := cols;
      data := new real[rows * cols](x requires 0 <= x < rows * cols =>
        SplitIndex(rows, cols, x); g[x / cols][x % cols]);
      new;
      forall r, c | 0 <= r < rows && 0 <= c < cols
        ensures Cell(data[..], rows, cols, r, c) == g[r][c]
      {
        IndexInBounds(rows, cols, r, c);
        SplitIndex(rows, cols, Index(cols, r, c));
        IndexInjective(cols, r, c, Index(cols, r, c) / cols, Index(cols, r, c) % cols);
      }
      ToGridOfCells(data[..], rows, cols, g);
    }

    // ------------------------------------------------------------ element access

    /** `operator()(row, col)`, read through `index()`: the element at `row * Cols + col`. */
    function Get(r: nat, c: nat): (x: real)
      requires Valid() && IndexGuard(rows, cols, r, c)
      reads this, data
      ensures x == Value()[r][c]
    {
      IndexInBounds(rows, cols, r, c);
      data[Index(cols, r, c)]
    }

    /** `operator()(row, col) = x`: exactly that cell changes. */
    method Set(r: nat, c: nat, x: real)
      requires Valid() && IndexGuard(rows, cols, r, c)
      modifies data
      ensures Valid() && Value() == old(Value())[r := old(Value())[r][c := x]]
      ensures Index(cols, r, c) < data.Length && data[..] == old(data[..])[Index(cols, r, c) := x]
    {
      ToGridUpdate(data[..], rows, cols, r, c, x);
      data[Index(cols, r, c)] := x;
    }

    /** `row(r)`: the elements of row `r`, left to right. */
    method Row(r: nat) returns (v: Vectors.Vec)
      requires Valid() && r < rows
      ensures v == Value()[r]
    {
      v := [];
      var j := 0;
      while j < cols
        invariant 0 <= j <= cols && v == Value()[r][..j]
      {
        v := v + [Get(r, j)];
        j := j + 1;
      }
    }

    /** `column(c)`: the elements of column `c`, top to bottom. */
    method Column(c: nat) returns (v: Vectors.Vec)
      requires Valid() && c < cols
      ensures |v| == rows && forall i :: 0 <= i < rows ==> v[i] == Value()[i][c]
    {
      v := [];
      var i := 0;
      while i < rows
        invariant 0 <= i <= rows && |v| == i
        invariant forall k :: 0 <= k < i ==> v[k] == Value()[k][c]
      {
        v := v + [Get(i, c)];
        i := i + 1;
      }
    }

    // ------------------------------------------------------------ compound operators

    /** One element-wise pass over the buffer, combining each element with that of `other`. */
    method CombineAssign(op: Vectors.Op, other: seq<real>)
      requires |other| == data.Length
      modifies data
      ensures data[..] == Vectors.ZipWith(op, old(data[..]), other)
    {
      var i := 0;
      while i < data.Length
        invariant 0 <= i <= data.Length
        invariant forall k :: 0 <= k < i ==> data[k] == Vectors.Apply(op, old(data[k]), other[k])
        invariant forall k :: i <= k < data.Length ==> data[k] == old(data[k])
      {
        data[i] := Vectors.Apply(op, data[i], other[i]);
        i := i + 1;
      }
    }

    /** One element-wise pass over the buffer, combining each element with the scalar `s`. */
    method ScalarAssign(op: Vectors.Op, s: real)
      modifies data
      ensures data[..] == Vectors.WithScalar(op, old(data[..]), s)
    {
      var i := 0;
      while i < data.Length
        invariant 0 <= i <= data.Length
        invariant forall k :: 0 <= k < i ==> data[k] == Vectors.Apply(op, old(data[k]), s)
        invariant forall k :: i <= k < data.Length ==> data[k] == old(data[k])
      {
        data[i] := Vectors.Apply(op, data[i], s);
        i := i + 1;
      }
    }

    /** `operator+=(Matrix)`: every cell grows by the matching cell of `other`. */
    method AddAssign(other: Matrix)
      requires Valid() && other.Valid() && other.rows == rows && other.cols == cols
      modifies data
      ensures Valid()
      ensures forall r, c :: 0 <= r < rows && 0 <= c < cols ==>
        Value()[r][c] == old(Value()[r][c]) + old(other.Value()[r][c])
    {
      ghost var s, u := data[..], other.data[..];
      CombineAssign(Vectors.Add, other.data[..]);
      ToGridZip(s, u, data[..], rows, cols, (x, y) => x + y);
    }

    /** `operator+=(T)`. */
    method AddScalarAssign(s: real)
      requires Valid()
      modifies data
      ensures Valid()
      ensures forall r, c :: 0 <= r < rows && 0 <= c < cols ==> Value()[r][c] == old(Value()[r][c]) + s
    {
      ghost var t := data[..];
      ScalarAssign(Vectors.Add, s);
      ToGridMap(t, data[..], rows, cols, x => x + s);
    }

    /** `operator-=(Matrix)`. */
    method SubAssign(other: Matrix)
      requires Valid() && other.Valid() && other.rows == rows && other.cols == cols
      modifies data
      ensures Valid()
      ensures forall r, c :: 0 <= r < rows && 0 <= c < cols ==>
        Value()[r][c] == old(Value()[r][c]) - old(other.Value()[r][c])
    {
      ghost var s, u := data[..], other.data[..];
      CombineAssign(Vectors.Sub, other.data[..]);
      ToGridZip(s, u, data[..], rows, cols, (x, y) => x - y);
    }

    /** `operator-=(T)`. */
    method SubScalarAssign(s: real)
      requires Valid()
      modifies data
      ensures Valid()
      ensures forall r, c :: 0 <= r < rows && 0 <= c < cols ==> Value()[r][c] == old(Value()[r][c]) - s
    {
      ghost var t := data[..];
      ScalarAssign(Vectors.Sub, s);
      ToGridMap(t, data[..], rows, cols, x => x - s);
    }

    /** `operator*=(T)`. */
    method MulScalarAssign(s: real)
      requires Valid()
      modifies data
      ensures Valid() && Value() == ScaleGrid(old(Value()), s)
    {
      ghost var t := data[..];
      ScalarAssign(Vectors.Mul, s);
      ToGridMap(t, data[..], rows, cols, x => x * s);
      GridExtensionality(Value(), ScaleGrid(old(Value()), s), rows, cols);
    }

    /** `operator/=(T)`: a zero divisor returns early and leaves every cell as it was. */
    method DivScalarAssign(s: real)
      requires Valid()
      modifies data
      ensures Valid()
      ensures s == 0.0 ==> Value() == old(Value())
      ensures s != 0.0 ==> forall r, c :: 0 <= r < rows && 0 <= c < cols ==> Value()[r][c] == old(Value()[r][c]) / s
    {
      if s == 0.0 {
        return;
      }
      ghost var t := data[..];
      var i := 0;
      while i < data.Length
        invariant 0 <= i <= data.Length
        invariant forall k :: 0 <= k < i ==> data[k] == old(data[k]) / s
        invariant forall k :: i <= k < data.Length ==> data[k] == old(data[k])
      {
        data[i] := data[i] / s;
        i := i + 1;
      }
      ToGridMap(t, data[..], rows, cols, x => x / s);
    }

    // ------------------------------------------------------------ binary operators

    /** `operator+(Matrix)`: a copy with `+=` applied; neither operand changes. */
    method Plus(other: Matrix) returns (m: Matrix)
      requires Valid() && other.Valid() && other.rows == rows && other.cols == cols
      ensures fresh(m) && fresh(m.data) && m.Valid() && m.rows == rows && m.cols == cols
      ensures forall r, c :: 0 <= r < rows && 0 <= c < cols ==> m.Value()[r][c] == Value()[r][c] + other.Value()[r][c]
    {
      m := new Matrix.Copy(this);
      m.AddAssign(other);
    }

    /** `operator+(T)`. */
    method PlusScalar(s: real) returns (m: Matrix)
      requires Valid()
      ensures fresh(m) && fresh(m.data) && m.Valid() && m.rows == rows && m.cols == cols
      ensures forall r, c :: 0 <= r < rows && 0 <= c < cols ==> m.Value()[r][c] == Value()[r][c] + s
    {
      m := new Matrix.Copy(this);
      m.AddScalarAssign(s);
    }

    /** `operator-(Matrix)`. */
    method Minus(other: Matrix) returns (m: Matrix)
      requires Valid() && other.Valid() && other.rows == rows && other.cols == cols
      ensures fresh(m) && fresh(m.data) && m.Valid() && m.rows == rows && m.cols == cols
      ensures forall r, c :: 0 <= r < rows && 0 <= c < cols ==> m.Value()[r][c] == Value()[r][c] - other.Value()[r][c]
    {
      m := new Matrix.Copy(this);
      m.SubAssign(other);
    }

    /** `operator-(T)`. */
    method MinusScalar(s: real) returns (m: Matrix)
      requires Valid()
      ensures fresh(m) && fresh(m.data) && m.Valid() && m.rows == rows && m.cols == cols
      ensures forall r, c :: 0 <= r < rows && 0 <= c < cols ==> m.Value()[r][c] == Value()[r][c] - s
    {
      m := new Matrix.Copy(this);
      m.SubScalarAssign(s);
    }

    /** `operator*(T)`, and the free `operator*(T, Matrix)` which forwards to it. */
    method Scaled(s: real) returns (m: Matrix)
      requires Valid()
      ensures fresh(m) && fresh(m.data) && m.Valid() && m.rows == rows && m.cols == cols
      ensures m.Value() == ScaleGrid(Value(), s)
    {
      m := new Matrix.Copy(this);
      m.MulScalarAssign(s);
    }

    /** `operator/(T)`: an unchanged copy for a zero divisor. */
    method DividedBy(s: real) returns (m: Matrix)
      requires Valid()
      ensures fresh(m) && fresh(m.data) && m.Valid() && m.rows == rows && m.cols == cols
      ensures s == 0.0 ==> m.Value() == Value()
      ensures s != 0.0 ==> forall r, c :: 0 <= r < rows && 0 <= c < cols ==> m.Value()[r][c] == Value()[r][c] / s
    {
      m := new Matrix.Copy(this);
      m.DivScalarAssign(s);
    }

    /** Unary `operator-`: a zero matrix filled with the negated elements. */
    method Negate() returns (m: Matrix)
      requires Valid()
      ensures fresh(m) && fresh(m.data) && m.Valid() && m.rows == rows && m.cols == cols
      ensures forall r, c :: 0 <= r < rows && 0 <= c < cols ==> m.Value()[r][c] == -Value()[r][c]
    {
      m := new Matrix.Zero(rows, cols);
      var i := 0;
      while i < data.Length
        invariant 0 <= i <= data.Length && m.data.Length == data.Length
        invariant forall k :: 0 <= k < i ==> m.data[k] == -data[k]
      {
        m.data[i] := -data[i];
        i := i + 1;
      }
      ToGridMap(data[..], m.data[..], rows, cols, x => -x);
    }

    /** `abs()`: a copy with every element replaced by its absolute value. */
    method AbsValues() returns (m: Matrix)
      requires Valid()
      ensures fresh(m) && fresh(m.data) && m.Valid() && m.rows == rows && m.cols == cols
      ensures forall r, c :: 0 <= r < rows && 0 <= c < cols ==> m.Value()[r][c] == Abs(Value()[r][c])
    {
      m := new Matrix.Copy(this);
      var i := 0;
      while i < data.Length
        invariant 0 <= i <= data.Length && m.data.Length == data.Length
        invariant forall k :: 0 <= k < i ==> m.data[k] == Abs(data[k])
      {
        m.data[i] := Abs(data[i]);
        i := i + 1;
      }
      ToGridMap(data[..], m.data[..], rows, cols, x => Abs(x));
    }

    // ------------------------------------------------------------ comparison

    /** `operator==`: exact, element by element, stopping at the first difference. */
    method Equals(other: Matrix) returns (b: bool)
      requires Valid() && other.Valid() && other.rows == rows && other.cols == cols
      ensures b <==> Value() == other.Value()
    {
      var i := 0;
      while i < data.Length
        invariant 0 <= i <= data.Length
        invariant forall k :: 0 <= k < i ==> data[k] == other.data[k]
      {
        if data[i] != other.data[i] {
          SplitIndex(rows, cols, i);
          assert Value()[i / cols][i % cols] != other.Value()[i / cols][i % cols];
          return false;
        }
        i := i + 1;
      }
      assert data[..] == other.data[..];
      return true;
    }

    /** `operator!=`: the negation of `==`. */
    method NotEquals(other: Matrix) returns (b: bool)
      requires Valid() && other.Valid() && other.rows == rows && other.cols == cols
      ensures b <==> Value() != other.Value()
    {
      var e := Equals(other);
      b := !e;
    }

    /** `approx_equal(other, epsilon)`: no element differs by more than `epsilon`. */
    method ApproxEqual(other: Matrix, epsilon: real) returns (b: bool)
      requires Valid() && other.Valid() && other.rows == rows && other.cols == cols
      ensures b <==> Within(Value(), other.Value(), rows, cols, epsilon)
    {
      WithinOfFlat(data[..], other.data[..], rows, cols, epsilon);
      var i := 0;
      while i < data.Length
        invariant 0 <= i <= data.Length
        invariant forall k :: 0 <= k < i ==> Abs(data[k] - other.data[k]) <= epsilon
      {
        if Abs(data[i] - other.data[i]) > epsilon {
          return false;
        }
        i := i + 1;
      }
      return true;
    }

    // ------------------------------------------------------------ products

    /**
     * `operator*(Vector)`: written out for 2 x 2, 3 x 3 and 4 x 4, a row-by-row running sum
     * otherwise; every form is the inner product of each row with `v`.
     */
    method MulVector(v: Vectors.Vec) returns (res: Vectors.Vec)
      requires Valid() && |v| == cols
      ensures res == Grids.MulVector(Value(), v, rows, cols)
    {
      if rows == 2 && cols == 2 {
        res := MulVector2(v);
      } else if rows == 3 && cols == 3 {
        res := MulVector3(v);
      } else if rows == 4 && cols == 4 {
        res := MulVector4(v);
      } else {
        res := MulVectorLoop(v);
      }
    }

    /** The written-out 2 x 2 case of `operator*(Vector)`. */
    method MulVector2(v: Vectors.Vec) returns (res: Vectors.Vec)
      requires Valid() && rows == 2 && cols == 2 && |v| == 2
      ensures res == Grids.MulVector(Value(), v, rows, cols)
    {
      var r0 := RowTimesVector2(0, v);
      var r1 := RowTimesVector2(1, v);
      res := [r0, r1];
      MulVectorOfRows(Value(), v, rows, cols, res);
    }

    /** Row `i` of the written-out 2 x 2 case. */
    method RowTimesVector2(i: nat, v: Vectors.Vec) returns (x: real)
      requires Valid() && rows == 2 && cols == 2 && |v| == 2 && i < 2
      ensures x == Vectors.InnerProduct(Value()[i], v)
    {
      x := Get(i, 0) * v[0] + Get(i, 1) * v[1];
      RowTimes2(Value()[i], v, Get(i, 0), Get(i, 1));
    }

    /** The written-out 3 x 3 case of `operator*(Vector)`. */
    method MulVector3(v: Vectors.Vec) returns (res: Vectors.Vec)
      requires Valid() && rows == 3 && cols == 3 && |v| == 3
      ensures res == Grids.MulVector(Value(), v, rows, cols)
    {
      var r0 := RowTimesVector3(0, v);
      var r1 := RowTimesVector3(1, v);
      var r2 := RowTimesVector3(2, v);
      res := [r0, r1, r2];
      MulVectorOfRows(Value(), v, rows, cols, res);
    }

    /** Row `i` of the written-out 3 x 3 case. */
    method RowTimesVector3(i: nat, v: Vectors.Vec) returns (x: real)
      requires Valid() && rows == 3 && cols == 3 && |v| == 3 && i < 3
      ensures x == Vectors.InnerProduct(Value()[i], v)
    {
      x := Get(i, 0) * v[0] + Get(i, 1) * v[1] + Get(i, 2) * v[2];
      RowTimes3(Value()[i], v, Get(i, 0), Get(i, 1), Get(i, 2));
    }

    /** The written-out 4 x 4 case of `operator*(Vector)`. */
    method MulVector4(v: Vectors.Vec) returns (res: Vectors.Vec)
      requires Valid() && rows == 4 && cols == 4 && |v| == 4
      ensures res == Grids.MulVector(Value(), v, rows, cols)
    {
      var r0 := RowTimesVector4(0, v);
      var r1 := RowTimesVector4(1, v);
      var r2 := RowTimesVector4(2, v);
      var r3 := RowTimesVector4(3, v);
      res := [r0, r1, r2, r3];
      MulVectorOfRows(Value(), v, rows, cols, res);
    }

    /** Row `i` of the written-out 4 x 4 case. */
    method RowTimesVector4(i: nat, v: Vectors.Vec) returns (x: real)
      requires Valid() && rows == 4 && cols == 4 && |v| == 4 && i < 4
      ensures x == Vectors.InnerProduct(Value()[i], v)
    {
      x := Get(i, 0) * v[0] + Get(i, 1) * v[1] + Get(i, 2) * v[2] + Get(i, 3) * v[3];
      RowTimes4(Value()[i], v, Get(i, 0), Get(i, 1), Get(i, 2), Get(i, 3));
    }

    /** The general case of `operator*(Vector)`: each row's running sum from 0, `j` ascending. */
    method MulVectorLoop(v: Vectors.Vec) returns (res: Vectors.Vec)
      requires Valid() && |v| == cols
      ensures res == Grids.MulVector(Value(), v, rows, cols)
    {
      ghost var g := Value();
      res := [];
      var i := 0;
      while i < rows
        invariant 0 <= i <= rows && |res| == i
        invariant forall k :: 0 <= k < i ==> res[k] == Vectors.InnerProduct(g[k], v)
      {
        var sum := 0.0;
        var j := 0;
        while j < cols
          invariant 0 <= j <= cols && sum == Vectors.InnerProduct(g[i][..j], v[..j])
        {
          assert g[i][..j + 1][..j] == g[i][..j] && v[..j + 1][..j] == v[..j];
          sum := sum + Get(i, j) * v[j];
          j := j + 1;
        }
        assert g[i][..cols] == g[i] && v[..cols] == v;
        res := res + [sum];
        i := i + 1;
      }
    }

    /** The inner loop of `multiply_naive`: row `i` times column `j`, added from 0, `k` ascending. */
    method RowColumnSum(other: Matrix, i: nat, j: nat) returns (sum: real)
      requires Valid() && other.Valid() && other.rows == cols && i < rows && j < other.cols
      ensures sum == DotPrefix(Value(), other.Value(), i, j, cols)
    {
      ghost var a, b := Value(), other.Value();
      sum := 0.0;
      var k := 0;
      while k < cols
        invariant 0 <= k <= cols && sum == DotPrefix(a, b, i, j, k)
      {
        var x, y := Get(i, k), other.Get(k, j);
        DotPrefixNext(a, b, i, j, k, sum, x, y);
        sum := sum + x * y;
        k := k + 1;
      }
    }

    /** One row of `multiply_naive`: cells (i, 0) to (i, p-1) of `res` receive their sums. */
    method NaiveRow(res: Matrix, other: Matrix, i: nat)
      requires Valid() && other.Valid() && res.Valid() && other.rows == cols && i < rows
      requires res.rows == rows && res.cols == other.cols && res.data != data && res.data != other.data
      requires res.data[..] == NaiveFlat(Value(), other.Value(), rows, cols, other.cols, Index(other.cols, i, 0))
      modifies res.data
      ensures res.data[..] == NaiveFlat(Value(), other.Value(), rows, cols, other.cols, Index(other.cols, i + 1, 0))
    {
      ghost var a, b := Value(), other.Value();
      var p := other.cols;
      var j := 0;
      while j < p
        invariant 0 <= j <= p
        invariant res.data[..] == NaiveFlat(a, b, rows, cols, p, Index(p, i, j))
      {
        var sum := RowColumnSum(other, i, j);
        NaiveFlatAdvance(a, b, rows, cols, p, i, j);
        res.data[Index(p, i, j)] := sum;
        j := j + 1;
      }
      NextRow(p, i);
    }

    /** `multiply_naive`: each cell a running sum from 0, `k` ascending, rows then columns. */
    method MultiplyNaive(other: Matrix) returns (m: Matrix)
      requires Valid() && other.Valid() && other.rows == cols
      ensures fresh(m) && fresh(m.data) && m.Valid() && m.rows == rows && m.cols == other.cols
      ensures m.Value() == Product(Value(), other.Value(), rows, cols, other.cols)
    {
      ghost var a, b := Value(), other.Value();
      var p := other.cols;
      m := new Matrix.Zero(rows, p);
      NaiveFlatEnds(a, b, rows, cols, p, m.data[..]);
      var i := 0;
      while i < rows
        invariant 0 <= i <= rows && fresh(m.data)
        invariant m.data[..] == NaiveFlat(a, b, rows, cols, p, Index(p, i, 0))
      {
        NaiveRow(m, other, i);
        i := i + 1;
      }
    }

    /** The inner loop of `multiply_block`: terms `k` from `kk` below `kMax` added to `acc`. */
    method RangeSum(other: Matrix, i: nat, j: nat, kk: nat, kMax: nat, acc: real) returns (sum: real)
      requires Valid() && other.Valid() && other.rows == cols && i < rows && j < other.cols && kMax <= cols
      ensures sum == DotRange(Value(), other.Value(), i, j, MinNat(kk, kMax), kMax, acc)
    {
      ghost var a, b := Value(), other.Value();
      ghost var lo := MinNat(kk, kMax);
      sum := acc;
      var k := kk;
      while k < kMax
        invariant kk <= k && (k <= kMax || k == kk)
        invariant sum == DotRange(a, b, i, j, lo, MinNat(k, kMax), acc)
      {
        var x, y := Get(i, k), other.Get(k, j);
        DotRangeNext(a, b, i, j, lo, k, acc, sum, x, y);
        sum := sum + x * y;
        k := k + 1;
      }
    }

    /** One row of one block of `multiply_block`. */
    method BlockRow(res: Matrix, other: Matrix, ghost s0: seq<real>, ii: nat, iMax: nat, jj: nat, jMax: nat,
                    kk: nat, kMax: nat, i: nat)
      requires Valid() && other.Valid() && res.Valid() && other.rows == cols
      requires res.rows == rows && res.cols == other.cols && res.data != data && res.data != other.data
      requires |s0| == rows * other.cols && kMax <= cols && ii <= i < iMax <= rows && jMax <= other.cols
      requires res.data[..] == BlockFlat(Value(), other.Value(), s0, rows, cols, other.cols,
                                         ii, iMax, jj, jMax, MinNat(kk, kMax), kMax, i, jj)
      modifies res.data
      ensures res.data[..] == BlockFlat(Value(), other.Value(), s0, rows, cols, other.cols,
                                        ii, iMax, jj, jMax, MinNat(kk, kMax), kMax, i + 1, jj)
    {
      ghost var a, b := Value(), other.Value();
      ghost var lo := MinNat(kk, kMax);
      var p := other.cols;
      var j := jj;
      while j < jMax
        invariant jj <= j && (j <= jMax || j == jj)
        invariant res.data[..] == BlockFlat(a, b, s0, rows, cols, p, ii, iMax, jj, jMax, lo, kMax, i, j)
      {
        BlockFlatAdvance(a, b, s0, rows, cols, p, ii, iMax, jj, jMax, lo, kMax, i, j);
        var start := res.Get(i, j);
        var sum := RangeSum(other, i, j, kk, kMax, start);
        res.data[Index(p, i, j)] := sum;
        j := j + 1;
      }
      BlockFlatRows(a, b, s0, rows, cols, p, ii, iMax, jj, jMax, lo, kMax, i, j);
    }

    /**
     * `multiply_block`: for the rows, columns and terms of one block, clipped by `std::min` to
     * the shape, each cell continues its running sum from the value `res` already holds.
     */
    method MultiplyBlock(res: Matrix, other: Matrix, ii: nat, jj: nat, kk: nat, blockSize: nat)
      requires Valid() && other.Valid() && res.Valid()
      requires other.rows == cols && res.rows == rows && res.cols == other.cols
      requires res.data != data && res.data != other.data
      modifies res.data
      ensures res.data[..] == BlockFlat(Value(), other.Value(), old(res.data[..]), rows, cols, other.cols,
        ii, MinNat(ii + blockSize, rows), jj, MinNat(jj + blockSize, other.cols),
        MinNat(kk, MinNat(kk + blockSize, cols)), MinNat(kk + blockSize, cols), MinNat(ii + blockSize, rows), jj)
    {
      ghost var a, b, s0 := Value(), other.Value(), res.data[..];
      var p := other.cols;
      var iMax := MinNat(ii + blockSize, rows);
      var jMax := MinNat(jj + blockSize, p);
      var kMax := MinNat(kk + blockSize, cols);
      ghost var lo := MinNat(kk, kMax);
      BlockFlatRows(a, b, s0, rows, cols, p, ii, iMax, jj, jMax, lo, kMax, ii, jMax);
      var i := ii;
      while i < iMax
        invariant ii <= i && (i <= iMax || i == ii)
        invariant res.data[..] == BlockFlat(a, b, s0, rows, cols, p, ii, iMax, jj, jMax, lo, kMax, i, jj)
      {
        BlockRow(res, other, s0, ii, iMax, jj, jMax, kk, kMax, i);
        i := i + 1;
      }
      BlockFlatFinished(a, b, s0, rows, cols, p, ii, iMax, jj, jMax, lo, kMax, i);
    }

    /** `multiply_blocked`: 32 x 32 x 32 blocks, in the loop order `ii`, `jj`, `kk`. */
    method MultiplyBlocked(other: Matrix) returns (m: Matrix)
      requires Valid() && other.Valid() && other.rows == cols
      ensures fresh(m) && fresh(m.data) && m.Valid() && m.rows == rows && m.cols == other.cols
      ensures m.Value() == Product(Value(), other.Value(), rows, cols, other.cols)
    {
      ghost var a, b := Value(), other.Value();
      var p := other.cols;
      m := new Matrix.Zero(rows, p);
      BlockedEnds(a, b, rows, cols, p, m.data[..], rows);
      var ii := 0;
      while ii < rows
        invariant fresh(m.data) && m.data[..] == BlockedFlat(a, b, rows, cols, p, ii, 0, 0)
      {
        BlockedRow(m, other, ii);
        ii := ii + BlockSize;
      }
      BlockedEnds(a, b, rows, cols, p, m.data[..], ii);
    }

    /** The `jj` loop of `multiply_blocked`: one block row. */
    method BlockedRow(res: Matrix, other: Matrix, ii: nat)
      requires Valid() && other.Valid() && res.Valid() && other.rows == cols
      requires res.rows == rows && res.cols == other.cols && res.data != data && res.data != other.data
      requires res.data[..] == BlockedFlat(Value(), other.Value(), rows, cols, other.cols, ii, 0, 0)
      modifies res.data
      ensures res.data[..] == BlockedFlat(Value(), other.Value(), rows, cols, other.cols, ii + BlockSize, 0, 0)
    {
      ghost var a, b := Value(), other.Value();
      var p := other.cols;
      var jj := 0;
      while jj < p
        invariant res.data[..] == BlockedFlat(a, b, rows, cols, p, ii, jj, 0)
      {
        BlockedBlock(res, other, ii, jj);
        jj := jj + BlockSize;
      }
      BlockedRowDone(a, b, rows, cols, p, ii, jj);
    }

    /** The `kk` loop of `multiply_blocked`: one block of the result, all its `kk` slices. */
    method BlockedBlock(res: Matrix, other: Matrix, ii: nat, jj: nat)
      requires Valid() && other.Valid() && res.Valid() && other.rows == cols
      requires res.rows == rows && res.cols == other.cols && res.data != data && res.data != other.data
      requires res.data[..] == BlockedFlat(Value(), other.Value(), rows, cols, other.cols, ii, jj, 0)
      modifies res.data
      ensures res.data[..] == BlockedFlat(Value(), other.Value(), rows, cols, other.cols, ii, jj + BlockSize, 0)
    {
      ghost var a, b := Value(), other.Value();
      var p := other.cols;
      var kk := 0;
      while kk < cols
        invariant res.data[..] == BlockedFlat(a, b, rows, cols, p, ii, jj, kk)
      {
        BlockedStep(a, b, rows, cols, p, ii, jj, kk);
        MultiplyBlock(res, other, ii, jj, kk, BlockSize);
        kk := kk + BlockSize;
      }
      BlockedBlockDone(a, b, rows, cols, p, ii, jj, kk);
    }

    /** `operator*(Matrix)`: blocked when all three dimensions exceed 8, naive otherwise. */
    method Multiply(other: Matrix) returns (m: Matrix)
      requires Valid() && other.Valid() && other.rows == cols
      ensures fresh(m) && fresh(m.data) && m.Valid() && m.rows == rows && m.cols == other.cols
      ensures m.Value() == Product(Value(), other.Value(), rows, cols, other.cols)
    {
      if rows > 8 && cols > 8 && other.cols > 8 {
        m := MultiplyBlocked(other);
      } else {
        m := MultiplyNaive(other);
      }
    }

    // ------------------------------------------------------------ determinant and inverse

    /**
     * The pivot search of step `i` in `determinant()` and `inverse_n()`: the largest magnitude
     * in column `i` from row `i` down, a later row winning only when strictly larger.
     */
    method PivotRow(i: nat) returns (p: nat, maxVal: real)
      requires Valid() && i < rows && i < cols
      ensures p == Elimination.Pivot(Value(), rows, cols, i) && maxVal == Abs(Value()[p][i])
    {
      ghost var g := Value();
      p := i;
      maxVal := Abs(Get(i, i));
      var k := i + 1;
      while k < rows
        invariant i <= p < k <= rows && maxVal == Abs(g[p][i])
        invariant forall t :: i <= t < k ==> Abs(g[t][i]) <= Abs(g[p][i])
        invariant forall t :: i <= t < p ==> Abs(g[t][i]) < Abs(g[p][i])
        invariant Elimination.PivotScan(g, rows, cols, i, k, p) == Elimination.Pivot(g, rows, cols, i)
      {
        var val := Abs(Get(k, i));
        ghost var best := p;
        if val > maxVal {
          maxVal := val;
          p := k;
        }
        Elimination.PivotScanNextBest(g, rows, cols, i, k, best, p);
        Elimination.PivotScanNextSame(g, rows, cols, i, k, best, p);
        k := k + 1;
      }
    }

    /** The `std::swap` loop over the columns of rows `i` and `p`. */
    method SwapRowsInPlace(i: nat, p: nat)
      requires Valid() && i < rows && p < rows
      modifies data
      ensures Value() == Elimination.SwapRows(old(Value()), i, p)
    {
      ghost var s0 := data[..];
      SwapFlatEnds(s0, rows, cols, i, p);
      var j := 0;
      while j < cols
        invariant 0 <= j <= cols && data[..] == SwapFlat(s0, rows, cols, i, p, j)
      {
        SwapFlatAdvance(s0, rows, cols, i, p, j);
        var xi, xp := Index(cols, i, j), Index(cols, p, j);
        var t := data[xi];
        data[xi] := data[xp];
        data[xp] := t;
        j := j + 1;
      }
    }

    /** The elimination loops of `determinant()` below pivot `i`, row by row. */
    method EliminateBelowInPlace(i: nat)
      requires Valid() && rows == cols && i < rows && Value()[i][i] != 0.0
      modifies data
      ensures Value() == Elimination.EliminateBelow(old(Value()), rows, i)
    {
      ghost var s0 := data[..];
      ElimBelowFlatRows(s0, rows, i, i + 1);
      var k := i + 1;
      while k < rows
        invariant i + 1 <= k <= rows && data[..] == ElimBelowFlat(s0, rows, i, k, i + 1)
      {
        EliminateRowBelow(s0, i, k);
        k := k + 1;
      }
      ElimBelowFlatEnds(s0, rows, i);
    }

    /**
     * Row `k` of the elimination below pivot `i`: `factor = lu(k, i) / lu(i, i)` read once,
     * then `lu(k, j) -= factor * lu(i, j)` right of column `i`.
     */
    method EliminateRowBelow(ghost s0: seq<real>, i: nat, k: nat)
      requires Valid() && rows == cols && i < k < rows && |s0| == rows * rows && Cell(s0, rows, rows, i, i) != 0.0
      requires data[..] == ElimBelowFlat(s0, rows, i, k, i + 1)
      modifies data
      ensures data[..] == ElimBelowFlat(s0, rows, i, k + 1, i + 1)
    {
      var n := rows;
      ElimBelowFlatAt(s0, n, i, k, i + 1, k, i);
      ElimBelowFlatAt(s0, n, i, k, i + 1, i, i);
      var factor := data[Index(n, k, i)] / data[Index(n, i, i)];
      var j := i + 1;
      while j < n
        invariant i + 1 <= j <= n && data[..] == ElimBelowFlat(s0, n, i, k, j)
        invariant factor == Cell(s0, n, n, k, i) / Cell(s0, n, n, i, i)
      {
        ElimBelowFlatAt(s0, n, i, k, j, k, j);
        ElimBelowFlatAt(s0, n, i, k, j, i, j);
        var x, y := data[Index(n, k, j)], data[Index(n, i, j)];
        ElimBelowFlatAdvance(s0, n, i, k, j, x, factor, y);
        data[Index(n, k, j)] := Elimination.Reduce(x, factor, y);
        j := j + 1;
      }
      ElimBelowFlatRows(s0, n, i, k);
    }

    /**
     * The middle of LU step `i` with pivot row `p`: the exchange of rows `i` and `p` (which
     * negates `det`), then `det *= lu(i, i)`.
     */
    method SwapAndScale(i: nat, p: nat, det: real) returns (d: real)
      requires Valid() && i <= p < rows && i < cols
      modifies data
      ensures Value() == if p != i then Elimination.SwapRows(old(Value()), i, p) else old(Value())
      ensures d == Elimination.NextDet(det, old(Value())[p][i], p != i)
    {
      ghost var g := Value();
      d := det;
      if p != i {
        SwapRowsInPlace(i, p);
        d := -d;
      }
      var pivot := Get(i, i);
      assert pivot == g[p][i];
      d := d * pivot;
    }

    /**
     * Step `i` of the LU loop of `determinant()` on this copy: the pivot search, the early
     * exit when the pivot's magnitude is below `eps`, the row exchange with the update of
     * `det`, and the elimination below the pivot. `LuFrom` from step `i` is unchanged by it.
     */
    method LuStage(i: nat, eps: real, det: real) returns (singular: bool, d: real)
      requires Valid() && rows == cols && i < rows && 0.0 < eps
      modifies data
      ensures singular ==> Elimination.LuFrom(old(Value()), rows, i, det, eps) == 0.0
      ensures !singular ==>
        Elimination.LuFrom(old(Value()), rows, i, det, eps) == Elimination.LuFrom(Value(), rows, i + 1, d, eps)
    {
      ghost var g := Value();
      var p, maxVal := PivotRow(i);
      if maxVal < eps {
        return true, 0.0;
      }
      d := SwapAndScale(i, p, det);
      EliminateBelowInPlace(i);
      assert Value() == Elimination.LuStep(g, rows, i, p);
      singular := false;
    }

    /**
     * The LU elimination of `determinant()` for sizes above 4, on a copy `lu` of the matrix:
     * zero once a pivot's magnitude is below `eps`, else the running product of the pivots,
     * negated by each row exchange.
     */
    method LuDeterminant(eps: real) returns (det: real)
      requires Valid() && rows == cols && 0.0 < eps
      ensures det == Elimination.LuDeterminant(Value(), rows, eps)
    {
      var n := rows;
      var lu := new Matrix.Copy(this);
      det := 1.0;
      var i := 0;
      while i < n
        invariant 0 <= i <= n && fresh(lu.data) && lu.Valid() && lu.rows == n && lu.cols == n
        invariant Elimination.LuFrom(lu.Value(), n, i, det, eps) == Elimination.LuDeterminant(Value(), n, eps)
      {
        var singular, d := lu.LuStage(i, eps, det);
        if singular {
          return 0.0;
        }
        det := d;
        i := i + 1;
      }
    }

    /** `determinant()`: written out for sizes 1 to 4, LU elimination on a copy beyond. */
    method Determinant(eps: real) returns (det: real)
      requires Valid() && rows == cols && 0.0 < eps
      ensures det == DeterminantOf(Value(), rows, eps)
    {
      if rows == 1 {
        det := ClosedForms.Det1(Value());
      } else if rows == 2 {
        det := ClosedForms.Det2(Value());
      } else if rows == 3 {
        det := ClosedForms.Det3(Value());
      } else if rows == 4 {
        det := ClosedForms.Det4(Value());
      } else {
        det := LuDeterminant(eps);
      }
    }

    /**
     * `is_invertible(epsilon)`: the determinant's magnitude exceeds `epsilon`. The determinant
     * itself uses the precision epsilon `precision` for its pivot test.
     */
    method IsInvertible(precision: real, epsilon: real) returns (b: bool)
      requires Valid() && rows == cols && 0.0 < precision
      ensures b <==> epsilon < Abs(DeterminantOf(Value(), rows, precision))
    {
      var det := Determinant(precision);
      b := Abs(det) > epsilon;
    }

    /** The first loop of `inverse_n()`: [A | I] written pair by pair into a zero `n x 2n` block. */
    method AugmentedBlock() returns (aug: Matrix)
      requires Valid() && rows == cols
      ensures fresh(aug) && fresh(aug.data) && aug.Valid() && aug.rows == rows && aug.cols == 2 * rows
      ensures aug.Value() == Elimination.Augment(Value(), rows)
    {
      ghost var g := Value();
      var n := rows;
      aug := new Matrix.Zero(n, 2 * n);
      AugFlatStart(g, n, 2 * n, aug.data[..]);
      var i := 0;
      while i < n
        invariant 0 <= i <= n && fresh(aug.data) && aug.data[..] == AugFlat(g, n, 2 * n, i, 0)
      {
        AugmentRow(aug, i);
        i := i + 1;
      }
      AugFlatEnds(g, n, 2 * n);
    }

    /** Row `i` of the first loop of `inverse_n()`. */
    method AugmentRow(aug: Matrix, i: nat)
      requires Valid() && rows == cols && aug.Valid() && aug.rows == rows && aug.cols == 2 * rows
      requires aug.data != data && i < rows
      requires aug.data[..] == AugFlat(Value(), rows, 2 * rows, i, 0)
      modifies aug.data
      ensures aug.data[..] == AugFlat(Value(), rows, 2 * rows, i + 1, 0)
    {
      ghost var g := Value();
      var n := rows;
      var j := 0;
      while j < n
        invariant 0 <= j <= n && aug.data[..] == AugFlat(g, n, 2 * n, i, j)
      {
        AugFlatAdvance(g, n, 2 * n, i, j);
        aug.data[Index(2 * n, i, j)] := Get(i, j);
        aug.data[Index(2 * n, i, j + n)] := if i == j then 1.0 else 0.0;
        j := j + 1;
      }
      AugFlatRows(g, n, 2 * n, i);
    }

    /** The normalising loop of `inverse_n()`: row `i` divided by its pivot, read once beforehand. */
    method NormalizeRowInPlace(i: nat)
      requires Valid() && i < rows && i < cols && Value()[i][i] != 0.0
      modifies data
      ensures Value() == Elimination.NormalizeRow(old(Value()), rows, cols, i)
    {
      ghost var s0 := data[..];
      NormFlatEnds(s0, rows, cols, i);
      var pivot := Get(i, i);
      var j := 0;
      while j < cols
        invariant 0 <= j <= cols && data[..] == NormFlat(s0, rows, cols, i, pivot, j)
      {
        IndexInBounds(rows, cols, i, j);
        var x := data[Index(cols, i, j)];
        NormFlatAdvance(s0, rows, cols, i, pivot, j, x);
        data[Index(cols, i, j)] := x / pivot;
        j := j + 1;
      }
    }

    /** The elimination loop of `inverse_n()`: every other row loses its column-`i` multiple of row `i`. */
    method EliminateOthersInPlace(i: nat)
      requires Valid() && i < rows && i < cols
      modifies data
      ensures Value() == Elimination.EliminateOthers(old(Value()), rows, cols, i)
    {
      ghost var s0 := data[..];
      ElimOthersFlatRows(s0, rows, cols, i, 0);
      var k := 0;
      while k < rows
        invariant 0 <= k <= rows && data[..] == ElimOthersFlat(s0, rows, cols, i, k, 0)
      {
        if k != i {
          EliminateOtherRow(s0, i, k);
        } else {
          ElimOthersFlatRows(s0, rows, cols, i, k);
        }
        k := k + 1;
      }
      ElimOthersFlatEnds(s0, rows, cols, i);
    }

    /**
     * Row `k` of the elimination of `inverse_n()`: `factor = augmented(k, i)` read once, then
     * `augmented(k, j) -= factor * augmented(i, j)` across the whole row.
     */
    method EliminateOtherRow(ghost s0: seq<real>, i: nat, k: nat)
      requires Valid() && i < rows && i < cols && k < rows && k != i && |s0| == rows * cols
      requires data[..] == ElimOthersFlat(s0, rows, cols, i, k, 0)
      modifies data
      ensures data[..] == ElimOthersFlat(s0, rows, cols, i, k + 1, 0)
    {
      ElimOthersFlatAt(s0, rows, cols, i, k, 0, k, i);
      var factor := data[Index(cols, k, i)];
      var j := 0;
      while j < cols
        invariant 0 <= j <= cols && data[..] == ElimOthersFlat(s0, rows, cols, i, k, j)
        invariant factor == Cell(s0, rows, cols, k, i)
      {
        ElimOthersFlatAt(s0, rows, cols, i, k, j, k, j);
        ElimOthersFlatAt(s0, rows, cols, i, k, j, i, j);
        var x, y := data[Index(cols, k, j)], data[Index(cols, i, j)];
        ElimOthersFlatAdvance(s0, rows, cols, i, k, j, x, factor, y);
        data[Index(cols, k, j)] := Elimination.Reduce(x, factor, y);
        j := j + 1;
      }
      ElimOthersFlatRows(s0, rows, cols, i, k);
    }

    /** The last loop of `inverse_n()`: the right `n` columns of the block copied into a zero matrix. */
    method RightHalfMatrix() returns (m: Matrix)
      requires Valid() && cols == 2 * rows
      ensures fresh(m) && fresh(m.data) && m.Valid() && m.rows == rows && m.cols == rows
      ensures m.Value() == Elimination.RightHalf(Value(), rows)
    {
      var n := rows;
      m := new Matrix.Zero(n, n);
      RightFlatEnds(data[..], n, cols, m.data[..]);
      var i := 0;
      while i < n
        invariant 0 <= i <= n && fresh(m.data) && m.data[..] == RightFlat(data[..], n, cols, Index(n, i, 0))
      {
        RightHalfRow(m, i);
        i := i + 1;
      }
    }

    /** Row `i` of the last loop of `inverse_n()`. */
    method RightHalfRow(m: Matrix, i: nat)
      requires Valid() && cols == 2 * rows && m.Valid() && m.rows == rows && m.cols == rows
      requires m.data != data && i < rows
      requires m.data[..] == RightFlat(data[..], rows, cols, Index(rows, i, 0))
      modifies m.data
      ensures m.data[..] == RightFlat(data[..], rows, cols, Index(rows, i + 1, 0))
    {
      var n := rows;
      var j := 0;
      while j < n
        invariant 0 <= j <= n && m.data[..] == RightFlat(data[..], n, cols, Index(n, i, j))
      {
        RightFlatAdvance(data[..], n, cols, i, j);
        m.data[Index(n, i, j)] := Get(i, j + n);
        j := j + 1;
      }
      NextRow(n, i);
    }

    /**
     * Step `i` of the Gauss-Jordan loop of `inverse_n()` on the augmented block: the pivot
     * search, the early exit when the pivot's magnitude is at most `eps`, the row exchange,
     * the normalisation of row `i` and the elimination of column `i` from every other row.
     */
    method GjStage(i: nat, eps: real) returns (singular: bool)
      requires Valid() && cols == 2 * rows && i < rows && 0.0 < eps
      modifies data
      ensures singular ==> Elimination.GjFrom(old(Value()), rows, i, eps).None?
      ensures !singular ==> Elimination.GjFrom(old(Value()), rows, i, eps) == Elimination.GjFrom(Value(), rows, i + 1, eps)
    {
      ghost var a := Value();
      var p, maxVal := PivotRow(i);
      if maxVal <= eps {
        return true;
      }
      if p != i {
        SwapRowsInPlace(i, p);
      }
      NormalizeRowInPlace(i);
      EliminateOthersInPlace(i);
      assert Value() == Elimination.GjStep(a, rows, i, p);
      singular := false;
    }

    /** The elimination loop of `inverse_n()` on the augmented block, stopping at a singular step. */
    method GjEliminate(eps: real) returns (singular: bool)
      requires Valid() && cols == 2 * rows && 0.0 < eps
      modifies data
      ensures singular ==> Elimination.GjFrom(old(Value()), rows, 0, eps).None?
      ensures !singular ==> Elimination.GjFrom(old(Value()), rows, 0, eps) == Some(Value())
    {
      ghost var a := Value();
      var i := 0;
      while i < rows
        invariant 0 <= i <= rows && Elimination.GjFrom(Value(), rows, i, eps) == Elimination.GjFrom(a, rows, 0, eps)
      {
        singular := GjStage(i, eps);
        if singular {
          return;
        }
        i := i + 1;
      }
      singular := false;
    }

    /**
     * `inverse_n()`: Gauss-Jordan elimination with partial pivoting on [A | I]; the zero matrix
     * as soon as a pivot's magnitude is at most `eps`, else the right half of the block.
     */
    method InverseN(eps: real) returns (m: Matrix)
      requires Valid() && rows == cols && 0.0 < eps
      ensures fresh(m) && fresh(m.data) && m.Valid() && m.rows == rows && m.cols == rows
      ensures m.Value() == Elimination.InverseN(Value(), rows, eps)
    {
      var aug := AugmentedBlock();
      var singular := aug.GjEliminate(eps);
      if singular {
        m := new Matrix.Zero(rows, rows);
      } else {
        m := aug.RightHalfMatrix();
      }
    }

    /** `inverse()`: `inverse_1` to `inverse_4` for sizes 1 to 4, `inverse_n()` beyond. */
    method Inverse(eps: real) returns (m: Matrix)
      requires Valid() && rows == cols && 0.0 < eps
      ensures fresh(m) && fresh(m.data) && m.Valid() && m.rows == rows && m.cols == rows
      ensures m.Value() == InverseOf(Value(), rows, eps)
    {
      if rows <= 4 {
        m := new Matrix.FromGrid(InverseOf(Value(), rows, eps), rows, rows);
      } else {
        m := InverseN(eps);
      }
    }

    // ------------------------------------------------------------ transpose and factories

    /** `transpose()`: element (i, j) lands at (j, i) of a fresh `Cols x Rows` matrix. */
    method Transpose() returns (t: Matrix)
      requires Valid()
      ensures fresh(t) && fresh(t.data) && t.Valid() && t.rows == cols && t.cols == rows
      ensures t.Value() == Transposed(Value(), rows, cols)
    {
      ghost var g := Value();
      t := new Matrix.Zero(cols, rows);
      TransposeFlatEnds(g, rows, cols, t.data[..]);
      var i := 0;
      while i < rows
        invariant 0 <= i <= rows && fresh(t.data)
        invariant t.data[..] == TransposeFlat(g, rows, cols, Index(cols, i, 0))
      {
        TransposeRow(t, i);
        i := i + 1;
      }
    }

    /** The inner loop of `transpose()`: row `i` copied into column `i` of `t`. */
    method TransposeRow(t: Matrix, i: nat)
      requires Valid() && t.Valid() && t.rows == cols && t.cols == rows && t.data != data && i < rows
      requires t.data[..] == TransposeFlat(Value(), rows, cols, Index(cols, i, 0))
      modifies t.data
      ensures t.data[..] == TransposeFlat(Value(), rows, cols, Index(cols, i + 1, 0))
    {
      ghost var g := Value();
      var j := 0;
      while j < cols
        invariant 0 <= j <= cols
        invariant t.data[..] == TransposeFlat(g, rows, cols, Index(cols, i, j))
      {
        TransposeFlatAdvance(g, rows, cols, i, j);
        t.data[Index(rows, j, i)] := Get(i, j);
        j := j + 1;
      }
      NextRow(cols, i);
    }

    /** `diagonal(value)`: a zero matrix with `value` written at each (i, i). */
    static method Diagonal(n: nat, value: real) returns (m: Matrix)
      requires n > 0
      ensures fresh(m) && fresh(m.data) && m.Valid() && m.rows == n && m.cols == n
      ensures m.Value() == Grids.Diagonal(n, value)
    {
      m := new Matrix.Zero(n, n);
      DiagonalFlatEnds(n, value, m.data[..]);
      var i := 0;
      while i < n
        invariant 0 <= i <= n && fresh(m.data)
        invariant m.data[..] == DiagonalFlat(n, value, i)
      {
        DiagonalFlatAdvance(n, value, i);
        m.data[Index(n, i, i)] := value;
        i := i + 1;
      }
    }

    /** `identity()`, defined as `diagonal(1)`. */
    static method Identity(n: nat) returns (m: Matrix)
      requires n > 0
      ensures fresh(m) && fresh(m.data) && m.Valid() && m.rows == n && m.cols == n
      ensures m.Value() == Grids.Identity(n)
    {
      m := Diagonal(n, 1.0);
    }
  }
}
