// The matrix SIMD table of include/pbrt/math/matrix_traits.hpp.
module MatrixTraits {
  import opened Types
  import opened Wrappers

  /** The storage a table row selects: `R` arrays of `C` scalars, or `R` four-lane registers. */
  datatype Storage = ScalarRows(rows: nat, cols: nat) | RegisterRows(rows: nat, lanes: nat)

  /** One row of the table: `kIsSimdCompatible`, `kAlignment` and `storage_type`. */
  datatype Traits = Traits(compatible: bool, alignment: nat, storage: Storage)

  /** `matrix_traits<T, R, C>`: 3x3 and 4x4 of `f32` and `f64` are specialised. */
  function MatrixTraitsOf(t: ElementType, rows: nat, cols: nat): (r: Traits)
    ensures r.compatible <==> (t == F32 || t == F64) && rows == cols && (rows == 3 || rows == 4)
    // one register per row, always four lanes wide, however many of them a row uses
    ensures r.compatible ==> r.alignment == SizeOf(t) * 4 && r.storage == RegisterRows(rows, 4)
    ensures !r.compatible ==> r.alignment == AlignOf(t) && r.storage == ScalarRows(rows, cols)
  {
    match (t, rows, cols)
    case (F32, 4, 4) => Traits(true, 16, RegisterRows(4, 4))
    case (F32, 3, 3) => Traits(true, 16, RegisterRows(3, 4))
    case (F64, 3, 3) => Traits(true, 32, RegisterRows(3, 4))
    case (F64, 4, 4) => Traits(true, 32, RegisterRows(4, 4))
    case _ => Traits(false, AlignOf(t), ScalarRows(rows, cols))
  }

  /** `matrix_simd_compatible<T, R, C>`. */
  predicate MatrixSimdCompatible(t: ElementType, rows: nat, cols: nat)
  {
    MatrixTraitsOf(t, rows, cols).compatible
  }

  /** `kMatrixAlignmentV<T, R, C>`. */
  function MatrixAlignmentV(t: ElementType, rows: nat, cols: nat): (r: nat)
    ensures MatrixSimdCompatible(t, rows, cols) ==> r == (if t == F32 then 16 else 32)
    ensures !MatrixSimdCompatible(t, rows, cols) ==> r == AlignOf(t)
  {
    MatrixTraitsOf(t, rows, cols).alignment
  }

  /** Specialised rows of either precision, and a few that fall back to the default. */
  lemma TableExamples()
    ensures MatrixTraitsOf(F32, 4, 4).alignment == 16 && MatrixTraitsOf(F32, 3, 3).alignment == 16
    ensures MatrixTraitsOf(F64, 3, 3).alignment == 32 && MatrixTraitsOf(F64, 4, 4).alignment == 32
    ensures MatrixTraitsOf(F32, 2, 2) == Traits(false, 4, ScalarRows(2, 2))
    ensures MatrixTraitsOf(F64, 3, 4) == Traits(false, 8, ScalarRows(3, 4))
    ensures !MatrixSimdCompatible(I32, 4, 4)
  {
  }

  /** The scalar view of `matrix_union<S, T, R, C>`: `scalar_data[row][col]`. */
  datatype MatrixUnion = MatrixUnion(scalarData: seq<seq<real>>)

  predicate IsShape(u: MatrixUnion, rows: nat, cols: nat)
  {
    |u.scalarData| == rows && forall r :: 0 <= r < rows ==> |u.scalarData[r]| == cols
  }

  /** The default constructor value-initialises `scalar_data`: every cell is zero. */
  function DefaultUnion(rows: nat, cols: nat): (u: MatrixUnion)
    ensures IsShape(u, rows, cols)
    ensures forall r, c :: 0 <= r < rows && 0 <= c < cols ==> Get(u, r, c) == Some(0.0)
  {
    MatrixUnion(seq(rows, _ => seq(cols, _ => 0.0)))
  }

  /** The constructor from nested arrays stores them unchanged. */
  function FromArray(data: seq<seq<real>>): (u: MatrixUnion)
    ensures forall r, c :: 0 <= r < |data| && 0 <= c < |data[r]| ==> Get(u, r, c) == Some(data[r][c])
  {
    MatrixUnion(data)
  }

  /** `operator()(row, col) const`, reading `scalar_data[row][col]`. */
  function Get(u: MatrixUnion, row: nat, col: nat): (r: Option<real>)
    ensures r.Some? <==> row < |u.scalarData| && col < |u.scalarData[row]|
  {
    if row < |u.scalarData| && col < |u.scalarData[row]| then Some(u.scalarData[row][col]) else None
  }

  /** A write through `operator()(row, col)`: exactly one cell changes. */
  function Set(u: MatrixUnion, row: nat, col: nat, value: real): (r: MatrixUnion)
    requires row < |u.scalarData| && col < |u.scalarData[row]|
    ensures Get(r, row, col) == Some(value)
    ensures forall i, j :: (i != row || j != col) ==> Get(r, i, j) == Get(u, i, j)
  {
    MatrixUnion(u.scalarData[row := u.scalarData[row][col := value]])
  }
}
