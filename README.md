# pbrt math kernel, modelled in Dafny

This project models the math library of the pbrt renderer: fixed-size matrices and vectors, quaternions, transform builders and scalar helpers (`include/pbrt/math`), the traits tables that choose SIMD storage, the profiler (`src/profiling`) and the ECS transform component (`src/ecs/components/transform_component.cpp`). The model states the library's promises as contracts and proves them.

Modules, one per part of the library:

- `Types`, `SimdTraits`, `VectorTraits`, `MatrixTraits`: the element types of `include/pbrt/types.hpp` and the compile-time tables that decide whether an (element type, size) pair is stored in an SSE or AVX register, with which alignment, and how the register union is read and written.
- `Scalar`: `min`, `max`, `clamp`, `lerp`, `radians`, `degrees` and `safe_sqrt` of `utility.hpp`. The `radians` and `degrees` of `matrix_transform.hpp` (lines 477-493) use the same formulas and are modelled by the same functions.
- `Vectors`: free vector operations as functions on `seq<real>`, and the `Vector` class over an array that its compound operators update in place.
- `Grids`: matrices as values (`seq<seq<real>>`): shape, the row-major index, transpose, the matrix product and its identities.
- `ClosedForms`: the written-out determinants and the adjugate inverses `inverse_1` to `inverse_4`.
- `Elimination`: the LU determinant and the Gauss-Jordan `inverse_n` as functions, with their invariants.
- `GaussJordan`: why `inverse_n` inverts. Row by row, the eliminated block keeps its left half equal to its right half times A, and keeps it sending any null vector of A to zero. A completed elimination therefore leaves a left inverse, and a matrix with a non-zero null vector always falls to the zero matrix.
- `MatrixLoops`: the state of every in-place matrix loop, as a function of the loop counters.
- `Matrices`: the `Matrix` class over a row-major buffer. Every operator, the naive and the 32 x 32 x 32 blocked products, the LU loop and the Gauss-Jordan loop are proved against the functions above.
- `Quaternions`: the Hamilton product and its algebra, conjugate, inverse, normalisation, rotation of vectors, the rotation matrix and the branch `slerp` takes; the `Quaternion` class over its four components.
- `MatrixTransforms`: `translate`, `scale`, the 2D and axis rotations, `perspective`, `orthographic`, `extract_translation` and `is_affine`.
- `ProfileStats`, `Profiling`: `ProfileData` and the `Profiler` as classes, each with a value-level description of every operation and lemmas about sequences of calls.
- `TransformComponents`: the component's pose with its cached world, inverse-world and rotation matrices and their dirty flags.

Elements are exact `real`s. The library's EPSILON and PI are parameters (`eps`, `pi`). A square root is a parameter `root` or `len` together with the fact `IsSqrt(x, root)` (`root >= 0` and `root * root == x`). A trigonometric value (`tan(fov / 2)`, the cosine and sine of an angle) is a parameter too. The clock is a parameter `now`.

`Matrix::operator/=` (matrix.hpp:254-266) leaves the matrix unchanged for a zero divisor. Its doc comment says it yields zeros; the model follows the code. `end_profile` decrements the depth even when no timer is running, so at depth 0 the `u64` counter wraps. The model keeps that wrap-around.

## Model

| member | source | states |
|---|---|---|
| Scalar.Min | include/pbrt/math/utility.hpp:12-16 | the result is at most both arguments and is one of them; on a tie it is `lhs`, as `std::min` returns |
| Scalar.Max | include/pbrt/math/utility.hpp:18-22 | the result is at least both arguments and is one of them; on a tie it is `lhs`, as `std::max` returns |
| Scalar.Clamp | include/pbrt/math/utility.hpp:24-29 | for `lo <= hi` the result lies in [lo, hi]; it is the value inside the range, `lo` below it and `hi` above it |
| Scalar.Lerp | include/pbrt/math/utility.hpp:31-36 | time 0 gives `start` and time 1 gives `end` |
| Scalar.LerpBetween | include/pbrt/math/utility.hpp:31-36 | for a time in [0, 1] and `start <= end`, the interpolated value stays between the endpoints |
| Scalar.Radians | include/pbrt/math/utility.hpp:38-42 | conversion keeps the sign of the angle, and 180 degrees become pi |
| Scalar.Degrees | include/pbrt/math/utility.hpp:44-48 | conversion keeps the sign of the angle, and pi becomes 180 degrees |
| Scalar.DegreesOfRadians | include/pbrt/math/utility.hpp:38-48 | `degrees(radians(d)) == d` for every angle |
| Scalar.RadiansOfDegrees | include/pbrt/math/utility.hpp:38-48 | `radians(degrees(r)) == r` for every angle |
| Scalar.SafeSqrtArgument | include/pbrt/math/utility.hpp:50-54 | the radicand passed to the square root is never negative: the value itself when non-negative, and 0 for a negative value or 0 |
| Types.SizeOf | include/pbrt/types.hpp:8-19 | every element type is 1, 2, 4 or 8 bytes wide; `f32`, `i32` and `u32` are exactly the 4-byte types and `f64`, `i64` and `u64` the 8-byte ones |
| SimdTraits.SimdTraitsOf | include/pbrt/math/simd/simd_traits.hpp:11-131 | a pair is SIMD-compatible exactly when it is (f32, 4), (f32, 8), (f64, 2) or (f64, 4); a compatible pair is aligned to the register it fills (element size times lanes), and every other pair keeps `alignof(T)` |
| SimdTraits.AlignmentV | include/pbrt/math/simd/simd_traits.hpp:149-150 | the alignment is 16, 32 or the element's own alignment, and it is the register width for a compatible pair |
| SimdTraits.SseExactly | include/pbrt/math/simd/simd_traits.hpp:136-137 | `sse_compatible` holds exactly for four floats and for two doubles |
| SimdTraits.AvxExactly | include/pbrt/math/simd/simd_traits.hpp:139-140 | `avx_compatible` holds exactly for eight floats and for four doubles |
| SimdTraits.SseAndAvxDisjoint | include/pbrt/math/simd/simd_traits.hpp:136-140 | no pair is both SSE- and AVX-compatible |
| SimdTraits.DefaultExamples | include/pbrt/math/simd/simd_traits.hpp:11-22 | pairs without a specialisation, such as (f32, 3), (i32, 4), (f32, 5) and (f64, 3), are not compatible and keep the element's alignment |
| SimdTraits.DefaultUnion | include/pbrt/math/simd/simd_traits.hpp:29-31 | the default union has N lanes, all zero |
| SimdTraits.FromArray | include/pbrt/math/simd/simd_traits.hpp:42-44 | each index below N reads back the array's element, and index N reads nothing |
| SimdTraits.Get | include/pbrt/math/simd/simd_traits.hpp:51-54 | a read yields a value exactly when the index is in range |
| SimdTraits.Set | include/pbrt/math/simd/simd_traits.hpp:46-49 | a write changes the written lane to the new value and leaves every other lane and the length unchanged |
| VectorTraits.VectorTraitsOf | include/pbrt/math/vector_traits.hpp:11-130 | the same four (type, lanes) pairs are compatible and are aligned to their register width; every other pair keeps `alignof(T)` |
| VectorTraits.VectorAlignmentV | include/pbrt/math/vector_traits.hpp:150-151 | the alignment is the register width for a compatible pair, and the element's alignment otherwise |
| VectorTraits.AgreesWithSimdTraits | include/pbrt/math/vector_traits.hpp:11-130 | the vector table agrees with the general SIMD table row for row, in both compatibility and alignment |
| VectorTraits.ConceptExamples | include/pbrt/math/vector_traits.hpp:132-141 | four floats are SSE- but not AVX-compatible, eight floats are AVX- but not SSE-compatible, two doubles are SSE and four doubles are AVX, and three floats are not compatible and have alignment 4 |
| VectorTraits.FromArray | include/pbrt/math/vector_traits.hpp:41-43 | each index below N reads back the array's element, and index N reads nothing |
| VectorTraits.Get | include/pbrt/math/vector_traits.hpp:50-53 | a read yields a value exactly when the index is in range |
| VectorTraits.Set | include/pbrt/math/vector_traits.hpp:45-48 | a write changes only the written lane and keeps the length |
| MatrixTraits.MatrixTraitsOf | include/pbrt/math/matrix_traits.hpp:12-173 | 3x3 and 4x4 matrices of f32 or f64 are compatible and stored as one four-lane register per row, aligned to 16 (f32) or 32 (f64) bytes; every other shape is stored as scalar rows with `alignof(T)` |
| MatrixTraits.MatrixAlignmentV | include/pbrt/math/matrix_traits.hpp:185-186 | the alignment is 16 for compatible f32 shapes, 32 for compatible f64 shapes, and the element's alignment otherwise |
| MatrixTraits.TableExamples | include/pbrt/math/matrix_traits.hpp:69-173 | the four specialised rows have the alignments 16, 16, 32 and 32; 2x2 f32, 3x4 f64 and 4x4 i32 fall back to the default |
| MatrixTraits.DefaultUnion | include/pbrt/math/matrix_traits.hpp:30-32 | the default union has R rows of C cells, every cell reading 0 |
| MatrixTraits.FromArray | include/pbrt/math/matrix_traits.hpp:38-41 | every cell reads back the nested array's element |
| MatrixTraits.Get | include/pbrt/math/matrix_traits.hpp:48-51 | a read yields a value exactly when both indices are in range |
| MatrixTraits.Set | include/pbrt/math/matrix_traits.hpp:43-46 | a write changes exactly the addressed cell |
| Grids.IndexInBounds | include/pbrt/math/matrix.hpp:890-894 | a cell inside the shape has its flat index `row * Cols + col` inside the buffer of `Rows * Cols` elements |
| Grids.IndexInjective | include/pbrt/math/matrix.hpp:890-894 | two cells of the shape with the same flat index are the same cell |
| Grids.SplitIndex | include/pbrt/math/matrix.hpp:890-894 | every buffer position is the index of the cell (x / Cols, x % Cols), which lies inside the shape |
| Grids.WithinOfFlat | include/pbrt/math/matrix.hpp:480-492 | two buffers agree within `epsilon` element by element exactly when their matrices agree within `epsilon` cell by cell |
| Grids.TransposeTwice | include/pbrt/math/matrix.hpp:499-510 | transposing twice gives back the original matrix exactly |
| Grids.TransposeDiagonal | include/pbrt/math/matrix.hpp:499-510 | the transpose of `diagonal(v)` is `diagonal(v)` |
| Grids.DotRangeExtendsPrefix | include/pbrt/math/matrix.hpp:948-972 | continuing a cell's running sum with the terms `lo..hi-1` gives the running sum up to `hi`: the blocked product adds the same terms in the same order as the naive one |
| Grids.IdentityProductLeft | include/pbrt/math/matrix.hpp:924-946 | identity times M is M |
| Grids.IdentityProductRight | include/pbrt/math/matrix.hpp:924-946 | M times identity is M |
| Grids.ProductScaleRight | include/pbrt/math/matrix.hpp:924-946 | scaling the right factor by `s` scales the product by `s` |
| Grids.IdentityMulVector | include/pbrt/math/matrix.hpp:363-404 | identity times a vector is that vector |
| Matrices.AccessGuardAsWrittenAliases | include/pbrt/math/matrix.hpp:85-103 | the `||` guard of `operator()` admits (0, Cols), which `index()`'s guard rejects, and whose flat index is that of (1, 0) |
| Matrices.IndexGuardSound | include/pbrt/math/matrix.hpp:890-894 | under `index()`'s guard the flat index is inside the buffer, and two cells share an index exactly when they are the same cell |
| Matrices.InverseCorrect | include/pbrt/math/matrix.hpp:618-639 | for sizes 1 to 4, with `inverse_3`'s determinant corrected, a matrix whose determinant's magnitude is at most eps inverts to the zero matrix, and otherwise M times inverse(M) is the identity |
| Matrices.InverseOfAgreesAsWritten | include/pbrt/math/matrix.hpp:1002-1035 | at size 3 the modelled `inverse()` equals the as-written `inverse_3` on every matrix whose entries (0, 1), (1, 0) and (0, 2), (2, 0) match, where the two expansions of the determinant coincide |
| Matrices.InverseBeyondFour | include/pbrt/math/matrix.hpp:618-639 | beyond size 4 `inverse()` returns either the zero matrix or a left inverse (inverse(M) times M is the identity), and a matrix with a non-zero null vector inverts to the zero matrix |
| Matrices.LuAgreesAtTwo | include/pbrt/math/matrix.hpp:566-610 | the LU elimination of a 2 by 2 matrix yields its determinant `m00*m11 - m01*m10`, or 0 exactly when the larger first-column magnitude is below eps or the second pivot (the determinant over that magnitude) is |
| Matrices.LuFirstStepAtTwo | include/pbrt/math/matrix.hpp:589-607 | after the first step on a 2 by 2 matrix the running determinant has the pivot's magnitude, and times the second pivot it is the determinant |
| Matrices.LuLastStepAtTwo | include/pbrt/math/matrix.hpp:584-598 | the last step multiplies the running determinant by the remaining pivot, or returns 0 when that pivot is below eps |
| Matrices.LuSmallPivotAtTwo | include/pbrt/math/matrix.hpp:584-587 | a first pivot below eps makes the 2 by 2 LU determinant 0 |
| Matrices.LuLargePivotAtTwo | include/pbrt/math/matrix.hpp:566-610 | with a first pivot at or above eps, the 2 by 2 LU determinant is the determinant unless the second pivot is below eps |
| Matrices.RowTimes4 | include/pbrt/math/matrix.hpp:379-389 | a written-out row of the 4x4 product with a vector is the row's inner product with the vector (`RowTimes2`, `RowTimes3` likewise for lines 368-378) |
| Matrices.Matrix.Zero | include/pbrt/math/matrix.hpp:42-44 | the default constructor (and `zero()`, lines 662-665) gives a matrix with every element 0 |
| Matrices.Matrix.Fill | include/pbrt/math/matrix.hpp:73-76 | the fill constructor gives a matrix with every element `value` |
| Matrices.Matrix.FromElements | include/pbrt/math/matrix.hpp:51-55 | the element-list constructor stores `Rows * Cols` values in row-major order |
| Matrices.Matrix.Copy | include/pbrt/math/matrix.hpp:274-279 | the copy made by `Matrix result{*this}` has the same shape and elements in a fresh buffer |
| Matrices.Matrix.Get | include/pbrt/math/matrix.hpp:98-103 | reading (row, col) inside the shape yields cell (row, col) of the matrix |
| Matrices.Matrix.Set | include/pbrt/math/matrix.hpp:85-89 | writing (row, col) changes exactly that cell, at flat position `row * Cols + col` |
| Matrices.Matrix.Row | include/pbrt/math/matrix.hpp:139-148 | `row(r)` is the elements of row r, left to right |
| Matrices.Matrix.Column | include/pbrt/math/matrix.hpp:156-165 | `column(c)` has `Rows` elements, element i being cell (i, c) |
| Matrices.Matrix.AddAssign | include/pbrt/math/matrix.hpp:173-180 | each cell becomes its old value plus the matching cell of `other` |
| Matrices.Matrix.AddScalarAssign | include/pbrt/math/matrix.hpp:189-196 | each cell grows by the scalar |
| Matrices.Matrix.SubAssign | include/pbrt/math/matrix.hpp:205-212 | each cell becomes its old value minus the matching cell of `other` |
| Matrices.Matrix.SubScalarAssign | include/pbrt/math/matrix.hpp:221-228 | each cell shrinks by the scalar |
| Matrices.Matrix.MulScalarAssign | include/pbrt/math/matrix.hpp:237-244 | the new matrix is the old one scaled by the scalar |
| Matrices.Matrix.DivScalarAssign | include/pbrt/math/matrix.hpp:254-266 | a zero divisor leaves every cell unchanged; any other divisor divides every cell |
| Matrices.Matrix.Plus | include/pbrt/math/matrix.hpp:274-279 | a fresh matrix of the cell-wise sums; neither operand changes |
| Matrices.Matrix.PlusScalar | include/pbrt/math/matrix.hpp:289-294 | a fresh matrix with every cell plus the scalar; the operand does not change |
| Matrices.Matrix.Minus | include/pbrt/math/matrix.hpp:319-324 | a fresh matrix of the cell-wise differences; neither operand changes |
| Matrices.Matrix.MinusScalar | include/pbrt/math/matrix.hpp:335-340 | a fresh matrix with every cell minus the scalar |
| Matrices.Matrix.Scaled | include/pbrt/math/matrix.hpp:350-355 | a fresh matrix equal to the operand scaled by the scalar (the free `scalar * matrix` of lines 1184-1190 forwards to it) |
| Matrices.Matrix.DividedBy | include/pbrt/math/matrix.hpp:437-442 | a fresh copy, unchanged for a zero divisor and divided cell by cell otherwise |
| Matrices.Matrix.Negate | include/pbrt/math/matrix.hpp:301-309 | a fresh matrix with every cell negated |
| Matrices.Matrix.AbsValues | include/pbrt/math/matrix.hpp:647-655 | a fresh matrix with every cell replaced by its absolute value |
| Matrices.Matrix.Equals | include/pbrt/math/matrix.hpp:450-460 | `==` is true exactly when the two matrices are equal cell for cell |
| Matrices.Matrix.NotEquals | include/pbrt/math/matrix.hpp:468-471 | `!=` is true exactly when the matrices differ |
| Matrices.Matrix.ApproxEqual | include/pbrt/math/matrix.hpp:480-492 | true exactly when no cell differs from the matching cell by more than `epsilon` |
| Matrices.Matrix.MulVector | include/pbrt/math/matrix.hpp:363-404 | every branch (written-out 2x2, 3x3 and 4x4, and the general loop) yields the vector of each row's inner product with the operand |
| Matrices.Matrix.MulVectorLoop | include/pbrt/math/matrix.hpp:390-401 | the general loop yields each row's inner product with the vector |
| Matrices.Matrix.RowColumnSum | include/pbrt/math/matrix.hpp:934-941 | the inner loop of `multiply_naive` computes the running sum of row i times column j, adding from k = 0 upward |
| Matrices.Matrix.MultiplyNaive | include/pbrt/math/matrix.hpp:924-946 | the result is the matrix product |
| Matrices.Matrix.RangeSum | include/pbrt/math/matrix.hpp:962-969 | the inner loop of `multiply_block` continues a cell's sum with the terms from `kk` below `kMax` |
| Matrices.Matrix.MultiplyBlock | include/pbrt/math/matrix.hpp:948-972 | one block, clipped by `std::min` to the shape, continues each of its cells' sums from the value the result already holds, and leaves every other cell alone |
| Matrices.Matrix.MultiplyBlocked | include/pbrt/math/matrix.hpp:903-922 | 32x32x32 blocking in the order ii, jj, kk yields exactly the matrix product |
| Matrices.Matrix.Multiply | include/pbrt/math/matrix.hpp:414-426 | `operator*(Matrix)` is the matrix product, by the blocked path when all three dimensions exceed 8 and by the naive path otherwise |
| Matrices.Matrix.PivotRow | include/pbrt/math/matrix.hpp:571-582 | the pivot search returns the first row at or below i of largest magnitude in column i, with that magnitude |
| Matrices.Matrix.SwapRowsInPlace | include/pbrt/math/matrix.hpp:589-596 | the `std::swap` loop exchanges rows i and p and changes nothing else |
| Matrices.Matrix.EliminateBelowInPlace | include/pbrt/math/matrix.hpp:600-607 | every row below the pivot loses `factor` times the pivot row right of column i, with the factor read before the row is updated |
| Matrices.Matrix.SwapAndScale | include/pbrt/math/matrix.hpp:589-598 | a row exchange negates `det`, then the pivot multiplies it |
| Matrices.Matrix.LuStage | include/pbrt/math/matrix.hpp:569-608 | one LU step stops with determinant 0 when the pivot's magnitude is below eps, and otherwise leaves the determinant still to compute unchanged |
| Matrices.Matrix.LuDeterminant | include/pbrt/math/matrix.hpp:566-610 | the LU loop on a copy computes the LU determinant of the matrix |
| Matrices.Matrix.Determinant | include/pbrt/math/matrix.hpp:517-611 | `determinant()` is the written-out formula for sizes 1 to 4 and the LU determinant beyond |
| Matrices.Matrix.IsInvertible | include/pbrt/math/matrix.hpp:896-901 | true exactly when the determinant's magnitude exceeds `epsilon` |
| Matrices.Matrix.AugmentedBlock | include/pbrt/math/matrix.hpp:1103-1112 | the first loop of `inverse_n` builds [A \| I] |
| Matrices.Matrix.NormalizeRowInPlace | include/pbrt/math/matrix.hpp:1142-1146 | row i is divided by its pivot, read once before the loop |
| Matrices.Matrix.EliminateOthersInPlace | include/pbrt/math/matrix.hpp:1148-1158 | every other row loses its column-i multiple of row i, the factor read before the row is updated |
| Matrices.Matrix.RightHalfMatrix | include/pbrt/math/matrix.hpp:1161-1168 | the result is the right n columns of the augmented block |
| Matrices.Matrix.GjStage | include/pbrt/math/matrix.hpp:1114-1159 | one Gauss-Jordan step stops with "singular" when the pivot's magnitude is at most eps, and otherwise leaves the rest of the elimination's outcome unchanged |
| Matrices.Matrix.GjEliminate | include/pbrt/math/matrix.hpp:1114-1159 | the elimination loop reports a singular step exactly when the functional elimination fails, and otherwise leaves the block in its final state |
| Matrices.Matrix.InverseN | include/pbrt/math/matrix.hpp:1100-1171 | `inverse_n` computes the Gauss-Jordan inverse: the zero matrix when a pivot is too small, else the right half of the eliminated block |
| Matrices.Matrix.Inverse | include/pbrt/math/matrix.hpp:618-639 | `inverse()` is `inverse_1` to `inverse_4` for sizes 1 to 4 (`inverse_3` with its determinant corrected) and `inverse_n` beyond |
| Matrices.Matrix.Transpose | include/pbrt/math/matrix.hpp:499-510 | a fresh Cols x Rows matrix whose cell (j, i) is cell (i, j) of the operand |
| Matrices.Matrix.Diagonal | include/pbrt/math/matrix.hpp:684-695 | `value` on the diagonal and 0 everywhere else |
| Matrices.Matrix.Identity | include/pbrt/math/matrix.hpp:672-676 | `identity()` is `diagonal(1)` |
| ClosedForms.Det2Example | include/pbrt/math/matrix.hpp:525-528 | the 2 x 2 determinant of [[1, 2], [3, 4]] is -2 |
| ClosedForms.Det4MinorsAgree | include/pbrt/math/matrix.hpp:1037-1071 | the determinant `inverse_4` builds from the 2 x 2 minors `s0..s5`, `c0..c5` equals the 24-term expansion `determinant()` writes out for 4 x 4 (lines 537-564) |
| ClosedForms.Det4TermsAgree | include/pbrt/math/matrix.hpp:537-564 | the same identity stated on the sixteen entries: minor-based and 24-term determinants coincide for every matrix |
| ClosedForms.Adjugate2 | include/pbrt/math/matrix.hpp:985-1000 | the bracketed entries of `inverse_2` form a 2 x 2 matrix |
| ClosedForms.Adjugate3 | include/pbrt/math/matrix.hpp:1002-1035 | the signed cofactors `c00..c22` of `inverse_3`, transposed as the adjugate, form a 3 x 3 matrix |
| ClosedForms.Adjugate4 | include/pbrt/math/matrix.hpp:1037-1097 | the sixteen bracketed entries of `inverse_4` form a 4 x 4 matrix |
| ClosedForms.AdjugateProduct1 | include/pbrt/math/matrix.hpp:974-983 | M times the adjugate of `inverse_1` is det(M) times the identity |
| ClosedForms.AdjugateProduct2 | include/pbrt/math/matrix.hpp:985-1000 | M times the adjugate of `inverse_2` is det(M) times the identity, for every 2 x 2 M |
| ClosedForms.AdjugateProduct3 | include/pbrt/math/matrix.hpp:1002-1035 | M times the cofactor adjugate of `inverse_3` is det(M) times the identity, det taken along the first row as in `determinant()` |
| ClosedForms.AdjugateProduct4 | include/pbrt/math/matrix.hpp:1037-1097 | M times the adjugate of `inverse_4` is the minor-based determinant times the identity, for every 4 x 4 M |
| ClosedForms.AdjugateCell3 | include/pbrt/math/matrix.hpp:1002-1035 | cell (i, j) of M times adj(M) is det(M) on the diagonal and 0 elsewhere, 3 x 3 |
| ClosedForms.AdjugateCell4 | include/pbrt/math/matrix.hpp:1037-1097 | cell (i, j) of M times adj(M) is det(M) on the diagonal and 0 elsewhere, 4 x 4 |
| ClosedForms.Guarded | include/pbrt/math/matrix.hpp:1071-1096 | the shared guard of the closed-form inverses: the zero matrix when `abs(det) <= eps`, otherwise every adjugate entry times `1 / det` |
| ClosedForms.GuardedIsRightInverse | include/pbrt/math/matrix.hpp:1071-1096 | when M adj = det I and `abs(det) > eps > 0`, M times the guarded result is the identity |
| ClosedForms.Inverse1 | include/pbrt/math/matrix.hpp:974-983 | `inverse_1` returns a 1 x 1 matrix |
| ClosedForms.Inverse2 | include/pbrt/math/matrix.hpp:985-1000 | `inverse_2` returns a 2 x 2 matrix |
| ClosedForms.Inverse3 | include/pbrt/math/matrix.hpp:1002-1035 | `inverse_3` with the first-row cofactor determinant returns a 3 x 3 matrix |
| ClosedForms.Inverse4 | include/pbrt/math/matrix.hpp:1037-1097 | `inverse_4` returns a 4 x 4 matrix |
| ClosedForms.Inverse1Correct | include/pbrt/math/matrix.hpp:974-983 | `inverse_1` is the zero matrix when `abs(det) <= eps` and a right inverse when `abs(det) > eps` |
| ClosedForms.Inverse2Correct | include/pbrt/math/matrix.hpp:985-1000 | `inverse_2` is the zero matrix when `abs(det) <= eps` and a right inverse when `abs(det) > eps` |
| ClosedForms.Inverse3Correct | include/pbrt/math/matrix.hpp:1002-1035 | the corrected `inverse_3` is the zero matrix when `abs(det) <= eps` and a right inverse when `abs(det) > eps` |
| ClosedForms.Inverse4Correct | include/pbrt/math/matrix.hpp:1037-1097 | `inverse_4` is the zero matrix when `abs(det) <= eps` and a right inverse when `abs(det) > eps`, det being the 24-term determinant |
| ClosedForms.Inverse2SingularExample | include/pbrt/math/matrix.hpp:993-996 | the singular [[1, 2], [2, 4]] has the zero matrix as its `inverse_2` |
| ClosedForms.Inverse3AsWritten | include/pbrt/math/matrix.hpp:1002-1035 | `inverse_3` exactly as written, determinant `m00*c00 - m01*c10 + m02*c20`, returns a 3 x 3 matrix |
| ClosedForms.Inverse3AsWrittenRejectsShear | include/pbrt/math/matrix.hpp:1024-1028 | the shear [[1,1,0],[0,1,0],[0,0,1]] has determinant 1, the as-written determinant is 0 so `inverse_3` returns zero, while the corrected inverse is a right inverse |
| Elimination.PivotScan | include/pbrt/math/matrix.hpp:571-582 | the scan ends on a row at or below `i` whose magnitude in column `i` is maximal and strictly beats every row above it |
| Elimination.PivotScanNextBest | include/pbrt/math/matrix.hpp:574-581 | one comparison `val > maxVal` keeps the maximum and the first-maximum properties of the running best |
| Elimination.PivotScanNextSame | include/pbrt/math/matrix.hpp:574-581 | continuing the scan after one comparison reaches the same pivot |
| Elimination.Pivot | include/pbrt/math/matrix.hpp:1116-1127 | the pivot row is the first row at or below `i` of largest magnitude in column `i` |
| Elimination.SwapRows | include/pbrt/math/matrix.hpp:589-596 | rows `i` and `p` are exchanged and every other row is kept |
| Elimination.SwapRowsIsGrid | include/pbrt/math/matrix.hpp:589-596 | exchanging two rows keeps the shape |
| Elimination.EliminateBelowCell | include/pbrt/math/matrix.hpp:600-607 | below row `i`, each cell right of column `i` loses `factor * lu(i, j)` with `factor = lu(k, i) / lu(i, i)`; columns up to `i` and rows up to `i` are untouched |
| Elimination.NextDetNegates | include/pbrt/math/matrix.hpp:589-598 | a row exchange negates the running determinant before it is multiplied by the pivot |
| Elimination.PivotOnDiagonal | include/pbrt/math/matrix.hpp:571-582 | a column that is zero below a nonzero diagonal entry pivots on the diagonal row |
| Elimination.EliminateBelowCleared | include/pbrt/math/matrix.hpp:600-607 | elimination below a column that is already zero under the diagonal changes nothing |
| Elimination.LuTriangular | include/pbrt/math/matrix.hpp:566-610 | on an upper-triangular matrix whose diagonal entries reach `eps`, the LU determinant is the product of the diagonal |
| Elimination.DiagonalProductConstant | include/pbrt/math/matrix.hpp:598 | a diagonal that is constantly `v` multiplies the running determinant by `v^(n-i)` |
| Elimination.LuDiagonal | include/pbrt/math/matrix.hpp:566-610 | the LU determinant of diagonal(v) is `v^n` once `abs(v) >= eps` |
| Elimination.LuExamples | include/pbrt/math/matrix.hpp:566-610 | the 5 x 5 identity has determinant 1 and the 6 x 6 diagonal(2) has determinant 64 |
| Elimination.LuStepZeroColumn | include/pbrt/math/matrix.hpp:589-607 | one step keeps a column that is zero in the remaining rows zero in the rows after it |
| Elimination.LuZeroColumn | include/pbrt/math/matrix.hpp:584-587 | a column that is zero in every remaining row drives the LU determinant to 0 through the `maxVal < eps` exit |
| Elimination.LuSwapNegates | include/pbrt/math/matrix.hpp:589-598 | the identity with rows 0 and 1 exchanged has LU determinant -1 |
| Elimination.LuSwapFirstStep | include/pbrt/math/matrix.hpp:589-598 | the first step on that matrix exchanges the rows back and leaves the running determinant at -1 |
| Elimination.LuIdentityFrom | include/pbrt/math/matrix.hpp:566-610 | the identity leaves the running determinant unchanged from any step on |
| Elimination.Augment | include/pbrt/math/matrix.hpp:1102-1112 | the augmented block is `n` rows of width `2n` holding A on the left and I on the right |
| Elimination.EliminateOthersCell | include/pbrt/math/matrix.hpp:1148-1158 | every row but `i` loses `augmented(k, i)` times row `i`, the factor read before the row loop; row `i` is kept |
| Elimination.GjFrom | include/pbrt/math/matrix.hpp:1114-1159 | a completed elimination keeps the `n` by `2n` shape |
| Elimination.RightHalf | include/pbrt/math/matrix.hpp:1161-1168 | the result holds the right `n` columns of the augmented block |
| Elimination.GjStepZeroColumn | include/pbrt/math/matrix.hpp:1114-1158 | a Gauss-Jordan step keeps a left-block column that is zero in the remaining rows zero in the rows after it |
| Elimination.GjZeroColumn | include/pbrt/math/matrix.hpp:1129-1132 | a left-block column that is zero in every remaining row makes the elimination stop without a result |
| Elimination.InverseNZeroColumn | include/pbrt/math/matrix.hpp:1129-1132 | a matrix with a zero column has the zero matrix as its `inverse_n` |
| Elimination.GjDiagonalStep | include/pbrt/math/matrix.hpp:1114-1158 | step `i` on the block of diagonal(v) pivots on `v`, normalises row `i` and changes no other row |
| Elimination.GjDiagonalFrom | include/pbrt/math/matrix.hpp:1114-1159 | the elimination of the block of diagonal(v) completes when `abs(v) > eps` |
| Elimination.AugmentDiagonal | include/pbrt/math/matrix.hpp:1102-1112 | [diagonal(v) \| I] is the diagonal block before any step |
| Elimination.RightHalfDiagonal | include/pbrt/math/matrix.hpp:1161-1168 | after all steps the right half of the diagonal block is diagonal(1 / v) |
| Elimination.InverseNDiagonal | include/pbrt/math/matrix.hpp:1100-1171 | `inverse_n` of diagonal(v) is diagonal(1 / v) when `abs(v) > eps` |
| Elimination.InverseNIdentity | include/pbrt/math/matrix.hpp:1100-1171 | `inverse_n` of the identity is the identity |
| GaussJordan.RowTimesCombine | include/pbrt/math/matrix.hpp:1149-1159 | a row equal to `x - c*y` cell by cell times any column gives `x`'s product minus `c` times `y`'s |
| GaussJordan.RowTimesDivide | include/pbrt/math/matrix.hpp:1142-1146 | a row equal to `x / d` cell by cell times any column gives `x`'s product over `d` |
| GaussJordan.RowTimesSparse | include/pbrt/math/matrix.hpp:1104-1112 | a row zero everywhere but at one position times a column picks out that position's product |
| GaussJordan.RowTimesIsDotPrefix | include/pbrt/math/matrix.hpp:1161-1168 | a row slice equal to a row of another grid times a column is that row's matrix-product entry |
| GaussJordan.Exchanged | include/pbrt/math/matrix.hpp:1134-1140 | the row exchange of a step: rows `i` and `p` swapped when they differ, every other row kept |
| GaussJordan.NormalizeTracks | include/pbrt/math/matrix.hpp:1142-1146 | dividing the pivot row by the pivot keeps each row's left half equal to its right half times A |
| GaussJordan.EliminateTracks | include/pbrt/math/matrix.hpp:1148-1159 | subtracting multiples of the pivot row from every other row keeps each row's left half equal to its right half times A |
| GaussJordan.EliminateTracksCell | include/pbrt/math/matrix.hpp:1152-1157 | one cell of a reduced row: the left-half entry stays its right half times A |
| GaussJordan.GjStepTracks | include/pbrt/math/matrix.hpp:1114-1160 | a whole step (exchange, normalise, eliminate) keeps the left block equal to the right block times A |
| GaussJordan.NormalizeAnnihilates | include/pbrt/math/matrix.hpp:1142-1146 | dividing the pivot row keeps every left-block row sending a null vector of A to zero |
| GaussJordan.EliminateAnnihilates | include/pbrt/math/matrix.hpp:1148-1159 | the row reductions keep every left-block row sending a null vector of A to zero |
| GaussJordan.GjStepAnnihilates | include/pbrt/math/matrix.hpp:1114-1160 | a whole step keeps the left block sending a null vector of A to zero |
| GaussJordan.GjStepUnitColumns | include/pbrt/math/matrix.hpp:1114-1160 | after step `i`, columns 0 to `i` of the left block are the identity's: the pivot becomes 1 and every other entry of its column 0 |
| GaussJordan.GjFromNext | include/pbrt/math/matrix.hpp:1114-1132 | a loop that completes from step `i` passes its pivot test (the pivot's magnitude is above eps) and completes from step `i + 1` |
| GaussJordan.GjFromTracks | include/pbrt/math/matrix.hpp:1114-1160 | a completed elimination leaves the identity as the left block and keeps the left block equal to the right block times A |
| GaussJordan.GjFromAnnihilates | include/pbrt/math/matrix.hpp:1114-1160 | a completed elimination leaves the identity as the left block, which still sends the null vector to zero |
| GaussJordan.AugmentTracks | include/pbrt/math/matrix.hpp:1103-1112 | the augmented block, A beside the identity, starts with its left half equal to its right half times A |
| GaussJordan.InverseNLeftInverse | include/pbrt/math/matrix.hpp:1100-1171 | `inverse_n` returns the zero matrix when a pivot is at most eps, and otherwise a result R with R times A equal to the identity |
| GaussJordan.NullVectorVanishes | include/pbrt/math/matrix.hpp:1100-1171 | when the elimination completes, the only vector A sends to zero is the zero vector |
| GaussJordan.InverseNSingular | include/pbrt/math/matrix.hpp:1128-1132 | a matrix with a non-zero null vector always hits a pivot at most eps, so `inverse_n` returns the zero matrix |
| Vectors.SafeDivide | include/pbrt/math/vector.hpp:309-333 | division as the `/=` operators perform it: for a non-zero divisor the quotient times the divisor gives back the dividend |
| Vectors.UnitAxis | include/pbrt/math/vector.hpp:815-860 | `unit_x` .. `unit_w` have the requested size and a 1 at their axis |
| Vectors.UnitAxisIsSparse | include/pbrt/math/vector.hpp:815-860 | every other component of a unit axis is 0 |
| Vectors.UnitAxisSelects | include/pbrt/math/vector.hpp:815-860 | a unit axis dotted with `v` picks out the matching component of `v` |
| Vectors.UnitAxisIsUnit | include/pbrt/math/vector.hpp:815-860 | a unit axis has squared length 1 |
| Vectors.InnerProductUnrolled | include/pbrt/math/vector.hpp:513-538 | the sums `dot` writes out for one to four components equal the `std::inner_product` fold it uses beyond |
| Vectors.DotSymmetric | include/pbrt/math/vector.hpp:513-538 | `dot(a, b) == dot(b, a)` |
| Vectors.DotMinus | include/pbrt/math/vector.hpp:513-538 | `dot(a - b, c) == dot(a, c) - dot(b, c)` |
| Vectors.DotScale | include/pbrt/math/vector.hpp:513-538 | `dot(a * s, c) == s * dot(a, c)` |
| Vectors.LengthSquared | include/pbrt/math/vector.hpp:545-548 | `length_squared` is the vector dotted with itself |
| Vectors.DistanceSquared | include/pbrt/math/vector.hpp:567-570 | `distance_squared` is the squared length of the difference |
| Vectors.DistanceSquaredSymmetric | include/pbrt/math/vector.hpp:567-570 | the squared distance from a to b equals the one from b to a |
| Vectors.Cross | include/pbrt/math/vector.hpp:1100-1106 | `cross` of two 3-vectors is a 3-vector |
| Vectors.CrossAnticommutative | include/pbrt/math/vector.hpp:1100-1106 | exchanging the operands negates the cross product |
| Vectors.CrossOrthogonal | include/pbrt/math/vector.hpp:1100-1106 | the cross product is orthogonal to both operands |
| Vectors.CrossBasis | include/pbrt/math/vector.hpp:1100-1106 | the basis is right-handed: x cross y = z, y cross z = x, z cross x = y |
| Vectors.Reflect | include/pbrt/math/vector.hpp:650-654 | each component of `reflect(v, n)` is `v[i] - n[i] * (2 * dot(v, n))` |
| Vectors.ReflectFlipsNormalComponent | include/pbrt/math/vector.hpp:650-654 | about a unit normal, the reflection negates the component along the normal |
| Vectors.ReflectTwice | include/pbrt/math/vector.hpp:650-654 | about a unit normal, reflecting twice gives back the vector exactly |
| Vectors.ReflectExample | include/pbrt/math/vector.hpp:650-654 | (-1, -1) reflected about (0, 1) is (-1, 1) |
| Vectors.Refract | include/pbrt/math/vector.hpp:667-679 | `refract` returns the zero vector exactly when the squared transmitted sine exceeds 1 (total internal reflection) |
| Vectors.RefractTransmits | include/pbrt/math/vector.hpp:667-679 | otherwise it returns `v * eta - n * (eta * cos + sqrt(1 - sin2))` |
| Vectors.RefractUnitLength | include/pbrt/math/vector.hpp:667-679 | a unit vector refracted through a unit normal without total internal reflection has unit length |
| Vectors.Lerp | include/pbrt/math/vector.hpp:690-694 | component-wise `a * (1 - t) + b * t`; it is `a` at `t = 0` and `b` at `t = 1` |
| Vectors.SafeNormalized | include/pbrt/math/vector.hpp:617-628 | the fallback when the squared length is below the epsilon, otherwise the vector divided by the square root of its squared length |
| Vectors.SafeNormalizedIsUnit | include/pbrt/math/vector.hpp:617-628 | outside the fallback branch the result has unit length |
| Vectors.NormalizedIsUnit | include/pbrt/math/vector.hpp:589-607 | dividing by the square root of a non-zero squared length gives a unit vector |
| Vectors.DivIsScale | include/pbrt/math/vector.hpp:325-333 | dividing by a non-zero scalar is multiplying by its inverse |
| Vectors.ProjectOnto | include/pbrt/math/vector.hpp:636-642 | `project_onto` of a non-zero vector keeps the size |
| Vectors.ProjectionResidualOrthogonal | include/pbrt/math/vector.hpp:636-642 | what is left of `v` after projecting onto `other` is orthogonal to `other` |
| Vectors.Xy | include/pbrt/math/vector.hpp:1323-1327 | `xy` is the first two components |
| Vectors.Xz | include/pbrt/math/vector.hpp:1337-1341 | `xz` is the vector without its middle component |
| Vectors.Yz | include/pbrt/math/vector.hpp:1350-1354 | `yz` is the last two components |
| Vectors.Xyz | include/pbrt/math/vector.hpp:1364-1368 | `xyz` is the first three components, and appending `w` gives the 4-vector back |
| Vectors.Vector.Zero | include/pbrt/math/vector.hpp:38 | the default constructor makes every component 0 |
| Vectors.Vector.Fill | include/pbrt/math/vector.hpp:66-69 | the fill constructor sets every component to the value |
| Vectors.Vector.FromComponents | include/pbrt/math/vector.hpp:45-50 | the component-list constructor holds the given components |
| Vectors.Vector.Copy | include/pbrt/math/vector.hpp:341-346 | the copy made by the binary operators holds the same components in a fresh buffer |
| Vectors.Vector.CombineAssign | include/pbrt/math/vector.hpp:213-333 | the compound-operator loop applies the operation to every matching pair of components |
| Vectors.Vector.ScalarAssign | include/pbrt/math/vector.hpp:229-333 | the compound-operator loop applies the operation with the scalar to every component |
| Vectors.Vector.AddAssign | include/pbrt/math/vector.hpp:213-221 | `+=` adds the matching component of `other` to each component |
| Vectors.Vector.AddScalarAssign | include/pbrt/math/vector.hpp:229-237 | `+=` with a scalar adds it to each component |
| Vectors.Vector.SubAssign | include/pbrt/math/vector.hpp:245-253 | `-=` subtracts the matching component of `other` |
| Vectors.Vector.SubScalarAssign | include/pbrt/math/vector.hpp:261-269 | `-=` with a scalar subtracts it from each component |
| Vectors.Vector.MulAssign | include/pbrt/math/vector.hpp:277-285 | `*=` multiplies component by component |
| Vectors.Vector.MulScalarAssign | include/pbrt/math/vector.hpp:293-301 | `*=` with a scalar multiplies each component by it |
| Vectors.Vector.DivAssign | include/pbrt/math/vector.hpp:309-317 | `/=` divides component by component; with a non-zero divisor each result is the exact quotient |
| Vectors.Vector.DivScalarAssign | include/pbrt/math/vector.hpp:325-333 | `/=` with a scalar divides each component; for a non-zero scalar the exact quotient |
| Vectors.Vector.Sum | include/pbrt/math/vector.hpp:341-346 | `+` returns a fresh vector holding the component-wise sum |
| Vectors.Vector.SumScalar | include/pbrt/math/vector.hpp:354-359 | `+` with a scalar returns a fresh vector with the scalar added to each component |
| Vectors.Vector.Difference | include/pbrt/math/vector.hpp:383-388 | `-` returns a fresh vector holding the component-wise difference |
| Vectors.Vector.DifferenceScalar | include/pbrt/math/vector.hpp:396-401 | `-` with a scalar subtracts it from each component of a fresh copy |
| Vectors.Vector.Product | include/pbrt/math/vector.hpp:409-414 | `*` returns the component-wise product |
| Vectors.Vector.Scaled | include/pbrt/math/vector.hpp:422-427 | `*` with a scalar (either side, lines 1085-1090) returns the scaled vector |
| Vectors.Vector.Quotient | include/pbrt/math/vector.hpp:435-440 | `/` returns the component-wise quotient |
| Vectors.Vector.QuotientScalar | include/pbrt/math/vector.hpp:448-453 | `/` with a scalar divides each component of a fresh copy |
| Vectors.Vector.Negate | include/pbrt/math/vector.hpp:366-375 | unary `-` returns the negated components |
| Vectors.Vector.Equals | include/pbrt/math/vector.hpp:461-471 | `==` holds exactly when every component is equal |
| Vectors.Vector.NotEquals | include/pbrt/math/vector.hpp:479-482 | `!=` holds exactly when some component differs |
| Vectors.Vector.ApproxEqual | include/pbrt/math/vector.hpp:492-505 | `approx_equal` holds exactly when no component differs by more than `epsilon` |
| Vectors.Vector.Normalize | include/pbrt/math/vector.hpp:589-595 | `normalize` divides every component by the length and leaves a unit vector |
| Vectors.Vector.MinDimension | include/pbrt/math/vector.hpp:721-724 | the index of the first smallest component |
| Vectors.Vector.MaxDimension | include/pbrt/math/vector.hpp:731-734 | the index of the first largest component |
| Vectors.Vector.MinComponent | include/pbrt/math/vector.hpp:701-704 | a component that no other component is below |
| Vectors.Vector.MaxComponent | include/pbrt/math/vector.hpp:711-714 | a component that no other component is above |
| Vectors.Vector.AbsValues | include/pbrt/math/vector.hpp:741-750 | each component of the result is non-negative and is the component or its negation |
| Vectors.Vector.ClampScalar | include/pbrt/math/vector.hpp:759-768 | each component is clamped into [min, max] |
| Vectors.Vector.ClampVector | include/pbrt/math/vector.hpp:777-787 | each component is clamped into its own [min[i], max[i]] |
| Vectors.ComponentMin | include/pbrt/math/vector.hpp:1281-1292 | the free `min` takes the smaller component at each position |
| Vectors.ComponentMax | include/pbrt/math/vector.hpp:1303-1314 | the free `max` takes the larger component at each position |
| Quaternions.FromScalarVector | include/pbrt/math/quaternion.hpp:57-60 | the scalar/vector constructor has the given scalar part and vector part |
| Quaternions.VectorPart | include/pbrt/math/quaternion.hpp:181-184 | `vector()` is a 3-vector |
| Quaternions.HamiltonIdentity | include/pbrt/math/quaternion.hpp:245-258 | the identity (1, 0, 0, 0) is a unit of the Hamilton product on both sides |
| Quaternions.HamiltonBasis | include/pbrt/math/quaternion.hpp:245-258 | the product multiplies the imaginary units cyclically: i j = k, j k = i, k i = j, i i = -1 |
| Quaternions.HamiltonAssociative | include/pbrt/math/quaternion.hpp:245-258 | the Hamilton product is associative |
| Quaternions.HamiltonScaleRight | include/pbrt/math/quaternion.hpp:233-258 | a scalar factor on the right operand comes out of the product |
| Quaternions.HamiltonScaleLeft | include/pbrt/math/quaternion.hpp:233-258 | a scalar factor on the left operand comes out of the product |
| Quaternions.Conjugate | include/pbrt/math/quaternion.hpp:391-394 | `conjugate` keeps the scalar part and negates the vector part |
| Quaternions.ConjugateInvolutive | include/pbrt/math/quaternion.hpp:391-394 | conjugating twice gives the quaternion back |
| Quaternions.HamiltonConjugate | include/pbrt/math/quaternion.hpp:391-394 | q times its conjugate, in either order, is its squared length as a scalar quaternion |
| Quaternions.Inverse | include/pbrt/math/quaternion.hpp:399-409 | `inverse` is the zero quaternion when the squared length is at most EPSILON |
| Quaternions.InverseCorrect | include/pbrt/math/quaternion.hpp:399-409 | above EPSILON, `inverse` is a two-sided inverse for the Hamilton product |
| Quaternions.Normalized | include/pbrt/math/quaternion.hpp:363-376 | the value `normalize` leaves is the quaternion itself when the length is at most EPSILON |
| Quaternions.LengthSquaredScale | include/pbrt/math/quaternion.hpp:354-358 | scaling by `s` multiplies the squared length by `s * s` |
| Quaternions.NormalizedIsUnit | include/pbrt/math/quaternion.hpp:363-376 | above EPSILON, normalising gives a unit quaternion |
| Quaternions.Rotate | include/pbrt/math/quaternion.hpp:414-421 | `rotate(v)` gives a 3-vector |
| Quaternions.RotateIdentity | include/pbrt/math/quaternion.hpp:414-421 | rotating by the identity quaternion changes nothing |
| Quaternions.RotateNegated | include/pbrt/math/quaternion.hpp:414-421 | q and -q rotate every vector the same way |
| Quaternions.ToMatrix | include/pbrt/math/quaternion.hpp:489-518 | `to_matrix` is a 4 x 4 matrix |
| Quaternions.RotationMatrix | include/pbrt/math/quaternion.hpp:586-615 | the free `rotate(q)` is a 4 x 4 matrix |
| Quaternions.RotationMatrixIsToMatrix | include/pbrt/math/quaternion.hpp:586-615 | the free `rotate(q)` builds exactly the matrix of `to_matrix` |
| Quaternions.ToMatrixBorder | include/pbrt/math/quaternion.hpp:489-518 | the last row and last column of `to_matrix` are those of the identity |
| Quaternions.ToMatrixIdentity | include/pbrt/math/quaternion.hpp:489-518 | the identity quaternion gives the identity matrix |
| Quaternions.Hemisphere | include/pbrt/math/quaternion.hpp:553-560 | `slerp` interpolates towards `q2` or `-q2`, whichever has a non-negative dot product with `q1` |
| Quaternions.Slerp | include/pbrt/math/quaternion.hpp:548-576 | `slerp` takes the linear branch exactly when the absolute cosine exceeds 0.9995; otherwise the cosine it feeds to `acos` lies in [0, 0.9995] |
| Quaternions.SlerpLinearEnds | include/pbrt/math/quaternion.hpp:562-566 | the linear blend starts at `q1` (t = 0) and ends at the adjusted `q2` (t = 1) |
| Quaternions.Quaternion.Default | include/pbrt/math/quaternion.hpp:34-36 | the default constructor is the identity (1, 0, 0, 0) |
| Quaternions.Quaternion.FromComponents | include/pbrt/math/quaternion.hpp:46-49 | the component constructor holds (w, x, y, z) |
| Quaternions.Quaternion.FromParts | include/pbrt/math/quaternion.hpp:57-60 | the scalar/vector constructor holds (w, v.x, v.y, v.z) |
| Quaternions.Quaternion.Copy | include/pbrt/math/quaternion.hpp:263-268 | the copy the binary operators start from holds the same value |
| Quaternions.Quaternion.Get | include/pbrt/math/quaternion.hpp:85-88 | `operator[]` reads w, x, y, z at indices 0 to 3 |
| Quaternions.Quaternion.Set | include/pbrt/math/quaternion.hpp:96-99 | a write through `operator[]` replaces one component and keeps the others |
| Quaternions.Quaternion.AddAssign | include/pbrt/math/quaternion.hpp:209-216 | `+=` adds component by component |
| Quaternions.Quaternion.SubAssign | include/pbrt/math/quaternion.hpp:221-228 | `-=` subtracts component by component |
| Quaternions.Quaternion.ScaleAssign | include/pbrt/math/quaternion.hpp:233-240 | `*=` with a scalar scales every component |
| Quaternions.Quaternion.HamiltonAssign | include/pbrt/math/quaternion.hpp:245-258 | `*=` with a quaternion leaves the Hamilton product of the old values, even when `other` is the same object |
| Quaternions.Quaternion.Plus | include/pbrt/math/quaternion.hpp:263-268 | `+` returns a fresh quaternion holding the sum |
| Quaternions.Quaternion.Minus | include/pbrt/math/quaternion.hpp:273-278 | `-` returns a fresh quaternion holding the difference |
| Quaternions.Quaternion.Times | include/pbrt/math/quaternion.hpp:291-296 | `*` with a scalar returns a fresh scaled quaternion |
| Quaternions.Quaternion.Product | include/pbrt/math/quaternion.hpp:301-306 | `*` with a quaternion returns a fresh Hamilton product |
| Quaternions.Quaternion.Normalize | include/pbrt/math/quaternion.hpp:363-376 | `normalize` leaves the value unchanged at or below EPSILON and a unit quaternion above it |
| Quaternions.Quaternion.NormalizedCopy | include/pbrt/math/quaternion.hpp:381-386 | `normalized` returns a fresh normalised copy and leaves the original alone |
| MatrixTransforms.Translate | include/pbrt/math/matrix_transform.hpp:23-43 | `translate(v)` is the identity with `v` in the last column above the corner, for 2-D and 3-D |
| MatrixTransforms.ExtractTranslation | include/pbrt/math/matrix_transform.hpp:408-421 | `extract_translation` is the last column without the corner |
| MatrixTransforms.ExtractTranslate | include/pbrt/math/matrix_transform.hpp:408-421 | `extract_translation(translate(v)) == v` |
| MatrixTransforms.ScaleBy | include/pbrt/math/matrix_transform.hpp:78-98 | `scale(v)` is the diagonal (v..., 1) and zero elsewhere |
| MatrixTransforms.ScaleUniform | include/pbrt/math/matrix_transform.hpp:106-126 | `scale(f)` is a square matrix one larger than the dimension |
| MatrixTransforms.ScaleUniformIsScaleBy | include/pbrt/math/matrix_transform.hpp:106-126 | `scale(f)` is `scale(v)` with every component of `v` equal to `f` |
| MatrixTransforms.Rotate2 | include/pbrt/math/matrix_transform.hpp:161-173 | the 2-D `rotate` is a 3 x 3 matrix |
| MatrixTransforms.RotateX | include/pbrt/math/matrix_transform.hpp:182-195 | `rotate_x` is a 4 x 4 matrix |
| MatrixTransforms.RotateY | include/pbrt/math/matrix_transform.hpp:204-217 | `rotate_y` is a 4 x 4 matrix |
| MatrixTransforms.RotateZ | include/pbrt/math/matrix_transform.hpp:226-239 | `rotate_z` is a 4 x 4 matrix |
| MatrixTransforms.RotateZBlock | include/pbrt/math/matrix_transform.hpp:226-239 | `rotate_z` is [[c, -s], [s, c]] in its upper-left block and the identity everywhere else |
| MatrixTransforms.RotateZOrthogonal | include/pbrt/math/matrix_transform.hpp:226-239 | given `c^2 + s^2 = 1`, `rotate_z` times its transpose is the identity |
| MatrixTransforms.RotateXOrthogonal | include/pbrt/math/matrix_transform.hpp:182-195 | given `c^2 + s^2 = 1`, `rotate_x` times its transpose is the identity |
| MatrixTransforms.RotateYOrthogonal | include/pbrt/math/matrix_transform.hpp:204-217 | given `c^2 + s^2 = 1`, `rotate_y` times its transpose is the identity |
| MatrixTransforms.Rotate2Orthogonal | include/pbrt/math/matrix_transform.hpp:161-173 | given `c^2 + s^2 = 1`, the 2-D rotation times its transpose is the identity |
| MatrixTransforms.ApplyPoint | include/pbrt/math/matrix_transform.hpp:346-400 | a 4 x 4 transform applied to a homogeneous point gives four clip coordinates |
| MatrixTransforms.Perspective | include/pbrt/math/matrix_transform.hpp:346-364 | `perspective` has bottom row (0, 0, -1, 0) |
| MatrixTransforms.PerspectiveMapsNearFar | include/pbrt/math/matrix_transform.hpp:346-364 | the point (0, 0, -near, 1) has `w = near` and depth z/w = -1, and (0, 0, -far, 1) has `w = far` and depth 1 |
| MatrixTransforms.Orthographic | include/pbrt/math/matrix_transform.hpp:378-400 | `orthographic` has bottom row (0, 0, 0, 1) |
| MatrixTransforms.OrthographicMapsBox | include/pbrt/math/matrix_transform.hpp:378-400 | x = right maps to 1 and left to -1, y = top to 1 and bottom to -1, z = near to 0 and far to 1, and `w` stays 1 |
| MatrixTransforms.AffineRow | include/pbrt/math/matrix_transform.hpp:455-469 | the affine bottom row has the transform's size and ends in 1 |
| MatrixTransforms.IsAffineIffBottomRow | include/pbrt/math/matrix_transform.hpp:455-469 | `is_affine` holds exactly when the bottom row is (0, ..., 0, 1) |
| MatrixTransforms.BuildersAffine | include/pbrt/math/matrix_transform.hpp:23-239 | translations, scalings and all rotations are affine |
| MatrixTransforms.ProjectionsAffine | include/pbrt/math/matrix_transform.hpp:346-400 | the orthographic projection is affine and the perspective one is not |
| ProfileStats.Fresh | include/pbrt/profiling/profile_data.hpp:17-38 | a fresh record holds its name and depth, total 0, no calls, min `Duration::max()` and max `Duration::min()` |
| ProfileStats.MinOf | src/profiling/profile_data.cpp:15 | `std::min` gives a value at most both arguments and equal to one of them |
| ProfileStats.MaxOf | src/profiling/profile_data.cpp:16 | `std::max` gives a value at least both arguments and equal to one of them |
| ProfileStats.WithSample | src/profiling/profile_data.cpp:12-18 | `add_sample` adds the sample to the total, adds exactly 1 to the count, lowers min and raises max just enough to bound the sample, and keeps name and depth |
| ProfileStats.ReplaySummary | src/profiling/profile_data.cpp:12-18 | after n samples on a fresh record the count is n, the total is their sum, and min and max are samples bounding every sample; with none the record is still fresh |
| ProfileStats.TotalMillis | src/profiling/profile_data.cpp:30-33 | `total_time_ms` is the nanosecond total divided by 10^6 |
| ProfileStats.AverageMillis | src/profiling/profile_data.cpp:20-28 | `average_time_ms` is 0 without calls, otherwise the total in milliseconds over the count |
| ProfileStats.AverageOfEqualSamples | src/profiling/profile_data.cpp:12-28 | n equal samples of `d` nanoseconds average to `d` |
| ProfileStats.AverageOfTotal | src/profiling/profile_data.cpp:20-28 | a record of n calls totalling `d n` nanoseconds averages `d` nanoseconds |
| ProfileStats.SumOfEqual | src/profiling/profile_data.cpp:14 | n samples of `d` add up to `d n` |
| ProfileStats.ProfileData.Default | include/pbrt/profiling/profile_data.hpp:28 | the default record is the fresh one with an empty name and depth 0 |
| ProfileStats.ProfileData.constructor | src/profiling/profile_data.cpp:7-10 | the constructor stores name and depth and leaves the statistics at their defaults |
| ProfileStats.ProfileData.AddSample | src/profiling/profile_data.cpp:12-18 | the fields after `add_sample` are the record `WithSample` describes |
| ProfileStats.ProfileData.AverageTimeMs | src/profiling/profile_data.cpp:20-28 | returns the average of the current fields |
| ProfileStats.ProfileData.TotalTimeMs | src/profiling/profile_data.cpp:30-33 | returns the total of the current fields in milliseconds |
| Profiling.Increment | src/profiling/profiler.cpp:35 | `++` on a `u64` counter stays below 2^64 and adds 1 when it does not wrap |
| Profiling.Decrement | src/profiling/profiler.cpp:48 | `--` on a `u64` counter subtracts 1 above 0 and wraps to 2^64 - 1 at 0 |
| Profiling.Initial | include/pbrt/profiling/profiler.hpp:108-120 | a fresh profiler is enabled and consistent |
| Profiling.OperationsConsistent | src/profiling/profiler.cpp:16-199 | every operation keeps the counters within 64 bits, every active timer backed by a profile, and every profile named by its key |
| Profiling.DisabledChangesNothing | src/profiling/profiler.cpp:16-21 | while disabled, `begin_profile`, `end_profile`, `begin_frame` and `end_frame` (lines 38-43, 176-199) change nothing |
| Profiling.BeganRecords | src/profiling/profiler.cpp:23-35 | `begin_profile` starts a timer at the clock reading, makes sure a profile named `name` exists, stores the current depth in it, keeps its statistics and every other profile, and goes one level deeper |
| Profiling.EndedSamples | src/profiling/profiler.cpp:56-66 | `end_profile` with a running timer removes that timer, adds exactly one sample (the elapsed time) to that profile, and leaves the other profiles alone |
| Profiling.EndedWithoutBegin | src/profiling/profiler.cpp:45-54 | `end_profile` without a running timer adds no profile and no sample but still decrements the depth, wrapping to 2^64 - 1 at depth 0 |
| Profiling.ClearedIsEmpty | src/profiling/profiler.cpp:69-77 | `reset` empties profiles and timers and zeroes frame count, last frame time and depth |
| Profiling.FrameEndedCounts | src/profiling/profiler.cpp:176-199 | `begin_frame` at `start` then `end_frame` at `now` adds one frame and records `now - start` as the last frame time |
| Profiling.Pairs | src/profiling/profiler.cpp:16-67 | a run of matched begin/end pairs keeps the profiler consistent |
| Profiling.PairsCount | src/profiling/profiler.cpp:16-67 | n matched begin/end pairs add n calls and the sum of their elapsed times to the profile and bring the depth back |
| Profiling.OnePair | src/profiling/profiler.cpp:16-67 | one matched pair adds one call and its elapsed time, and restores the depth |
| Profiling.UnfinishedHasNoCalls | src/profiling/profiler.cpp:27-31 | a `begin_profile` without its `end_profile` leaves a new profile with no calls |
| Profiling.SameElements | src/profiling/profiler.cpp:170-171 | two sequences that are permutations of each other hold the same records |
| Profiling.InsertByTotal | src/profiling/profiler.cpp:170-171 | inserting a record into a sequence sorted by descending total keeps it sorted and adds exactly that record |
| Profiling.InsertHead | src/profiling/profiler.cpp:170-171 | the head of a sorted sequence may stay in front when the inserted record's total is not larger |
| Profiling.Profiler.constructor | include/pbrt/profiling/profiler.hpp:108-120 | the default-constructed profiler holds the initial state |
| Profiling.Profiler.BeginProfile | src/profiling/profiler.cpp:16-36 | the fields after `begin_profile` are the state `Began` describes |
| Profiling.Profiler.EndProfile | src/profiling/profiler.cpp:38-67 | the fields after `end_profile` are the state `Ended` describes |
| Profiling.Profiler.Reset | src/profiling/profiler.cpp:69-77 | the fields after `reset` are the state `Cleared` describes |
| Profiling.Profiler.Enable | src/profiling/profiler.cpp:79-83 | `enable(b)` sets the flag and changes nothing else |
| Profiling.Profiler.IsEnabled | src/profiling/profiler.cpp:85-88 | `is_enabled` returns the flag |
| Profiling.Profiler.BeginFrame | src/profiling/profiler.cpp:176-185 | the fields after `begin_frame` are the state `FrameBegun` describes |
| Profiling.Profiler.EndFrame | src/profiling/profiler.cpp:187-199 | the fields after `end_frame` are the state `FrameEnded` describes |
| Profiling.Profiler.GetFrameCount | src/profiling/profiler.cpp:201-204 | returns the frame count |
| Profiling.Profiler.GetLastFrameTime | src/profiling/profiler.cpp:206-209 | returns the last frame time |
| Profiling.Profiler.GetSortedProfiles | src/profiling/profiler.cpp:160-174 | the result holds every stored profile exactly once, in order of non-increasing total time |
| Profiling.CollectProfiles | src/profiling/profiler.cpp:162-168 | the collection loop copies each stored record exactly once |
| Profiling.CollectStep | src/profiling/profiler.cpp:165-168 | one more key collected keeps every collected record matched to its key, one per key |
| Profiling.SortByTotal | src/profiling/profiler.cpp:170-171 | the sort returns a permutation of its input ordered by non-increasing total time |
| TransformComponents.WorldOf | src/ecs/components/transform_component.cpp:119-123 | the world matrix `translate(position) * rotate(rotation) * scale(scale)` is 4 x 4 |
| TransformComponents.RowXyz | src/ecs/components/transform_component.cpp:54-74 | `xyz(m.row(r))` is the first three cells of row `r` |
| TransformComponents.WorldTranslation | src/ecs/components/transform_component.cpp:119-123 | the world matrix carries the position in its last column: `extract_translation` gives it back |
| TransformComponents.WorldAffine | src/ecs/components/transform_component.cpp:119-123 | the world matrix is affine |
| TransformComponents.DefaultWorldIsIdentity | include/pbrt/ecs/components/transform_component.hpp:118-127 | zero position, identity rotation and unit scale give the identity world matrix |
| TransformComponents.IdentityDirections | src/ecs/components/transform_component.cpp:47-75 | the identity rotation has right (1, 0, 0), up (0, 1, 0) and forward (0, 0, -1) |
| TransformComponents.IdentityRotationMatrix | src/ecs/components/transform_component.cpp:136 | the rotation matrix of the identity quaternion is the identity |
| TransformComponents.IdentityIsNormal | src/ecs/components/transform_component.cpp:9 | the identity quaternion has length 1, so normalising it changes nothing |
| TransformComponents.TransformComponent.Default | src/ecs/components/transform_component.cpp:7-13 | the default component has zero position, identity rotation, unit scale and both caches clean and valid |
| TransformComponents.TransformComponent.constructor | src/ecs/components/transform_component.cpp:15-24 | position and scale are stored, the rotation is stored normalised (a unit quaternion when its length exceeds EPSILON), and both caches are computed, the rotation matrix first |
| TransformComponents.TransformComponent.SetPosition | src/ecs/components/transform_component.cpp:26-30 | the position is stored and only the world matrix is marked dirty |
| TransformComponents.TransformComponent.SetRotation | src/ecs/components/transform_component.cpp:32-39 | the rotation is stored normalised and both matrices are marked dirty |
| TransformComponents.TransformComponent.SetScale | src/ecs/components/transform_component.cpp:41-45 | the scale is stored and only the world matrix is marked dirty |
| TransformComponents.TransformComponent.GetForward | src/ecs/components/transform_component.cpp:47-55 | row 2 of the current rotation's matrix, negated; the rotation cache is refreshed only when dirty |
| TransformComponents.TransformComponent.GetRight | src/ecs/components/transform_component.cpp:57-65 | row 0 of the current rotation's matrix; the rotation cache is refreshed only when dirty |
| TransformComponents.TransformComponent.GetUp | src/ecs/components/transform_component.cpp:67-75 | row 1 of the current rotation's matrix; the rotation cache is refreshed only when dirty |
| TransformComponents.TransformComponent.GetPosition | src/ecs/components/transform_component.cpp:77-80 | returns the stored position |
| TransformComponents.TransformComponent.GetRotation | src/ecs/components/transform_component.cpp:82-85 | returns the stored rotation |
| TransformComponents.TransformComponent.GetScale | src/ecs/components/transform_component.cpp:87-90 | returns the stored scale |
| TransformComponents.TransformComponent.GetWorldMatrix | src/ecs/components/transform_component.cpp:92-100 | returns the cached world matrix, which is `T R S` of the current pose; it is recomputed only when dirty and the flag is cleared |
| TransformComponents.TransformComponent.GetInverseWorldMatrix | src/ecs/components/transform_component.cpp:102-110 | returns the cached inverse, which is `inverse()` of the current world matrix, refreshed when the world flag is dirty |
| TransformComponents.TransformComponent.UpdateWorldMatrix | src/ecs/components/transform_component.cpp:112-127 | when dirty, the world matrix and its inverse are recomputed together and the flag cleared; when clean nothing changes |
| TransformComponents.TransformComponent.UpdateRotationMatrix | src/ecs/components/transform_component.cpp:129-138 | when dirty, the rotation matrix is recomputed and the flag cleared; when clean nothing changes |
| TransformComponents.TransformComponent.MarkWorldMatrixDirty | src/ecs/components/transform_component.cpp:140-143 | sets the world flag and changes nothing else |
| TransformComponents.TransformComponent.MarkRotationMatrixDirty | src/ecs/components/transform_component.cpp:145-148 | sets the rotation flag and changes nothing else |
| TransformComponents.TranslateZero | include/pbrt/ecs/components/transform_component.hpp:118-127 | translating by the default position (0, 0, 0) is the identity |
| TransformComponents.ScaleOne | include/pbrt/ecs/components/transform_component.hpp:118-127 | scaling by the default scale (1, 1, 1) is the identity |
| TransformComponents.IdentityRows | src/ecs/components/transform_component.cpp:47-75 | the identity matrix's rows give right (1, 0, 0), up (0, 1, 0) and forward (0, 0, -1) |

## Left out

- Floating point: rounding, infinities and NaN are not modelled; elements are exact reals. Contracts that compare with EPSILON hold for any positive `eps`.
- `std::sqrt`, `std::tan`, `std::sin`, `std::cos` and `std::acos` are parameters constrained by their defining equation where one exists; `length()` and `distance()` (vector.hpp:555-582) enter only through such a root.
- SIMD specialisations (the `Vector<f32, 4>`, `Matrix<f32, 4, 4>` and `f64` overloads with SSE or AVX intrinsics) are not modelled: the model follows the generic templates. Four groups of `/=` specialisations divide without the generic code's zero guard, in their intrinsic branch and in their scalar fall-back alike, and that difference is not captured: `Matrix<f32, 4, 4>::operator/=` (matrix.hpp:1330-1352), `Matrix<f64, 4, 4>::operator/=` (matrix.hpp:1642-1662), `Vector<f32, 4>::operator/=` by a vector and by a scalar (vector.hpp:1480-1520) and `Vector<f64, 4>::operator/=` by a vector and by a scalar (vector.hpp:1780-1818). The generic `Vector::operator/=` goes through `safe_divide` (vector.hpp:309-331).
- Iterators, `data()`, `front()`/`back()`, `size()`, `rows()`, `columns()`, `empty()` and `max_size()` are storage plumbing with no behaviour beyond the shape.
- The converting `Vector` constructor between element types and the type-level concepts beyond the traits tables are not modelled (element types are all `real`).
- `at()` (matrix.hpp:112-128) forwards to `operator()` with the same guard; `Matrices.Matrix.Get` and `Matrices.Matrix.Set` model both.
- `Quaternion(axis, angle)` (quaternion.hpp:68), `to_axis_angle` (428), `from_euler` (457) and `from_axis_angle` (478) need `sin`, `cos`, `atan2` and `acos` of computed values: not modelled.
- `rotate(axis, angle)` and `look_at` (matrix_transform.hpp:249-333) need trigonometry and a normalised cross product of computed vectors: not modelled.
- `extract_scale` (matrix_transform.hpp:431-447) needs the length of each column: not modelled.
- The variadic forwarders of `translate` and `scale` (matrix_transform.hpp:55-68, 138-151) only unpack arguments into the vector forms that are modelled.
- Quaternions.Slerp: models which branch `slerp` takes, the sign-adjusted end point and the unnormalised linear blend; the weights of the spherical branch (acos and sin) and the final `normalized()` of the linear branch are not modelled.
- Vectors.SafeDivide: the definition of the helper `safe_divide` is not part of this model; the function follows its documented policy (0 for a zero divisor), and every property is stated for non-zero divisors only.
- MatrixTransforms.Perspective: requires `aspect * tanHalfFov != 0` and `tanHalfFov != 0` beyond the source's assertion, because the source divides by them and a real has no infinity.
- MatrixTransforms.Orthographic: requires `left != right` and `bottom != top` beyond the source's assertion, for the same reason.
- Matrices.Matrix.Inverse: at size 3 the model calls `inverse_3` with its determinant corrected (see Findings), so on a matrix such as the shear [[1, 1, 0], [0, 1, 0], [0, 0, 1]] it returns the true inverse where the code as written returns the zero matrix; `Matrices.InverseOfAgreesAsWritten` names the matrices on which the two agree.
- Matrices.InverseCorrect: its size-3 case is a property of the corrected `inverse_3`; the code as written does not have it (`ClosedForms.Inverse3AsWrittenRejectsShear`).
- Elimination.InverseN: proved to return a left inverse (R times A is the identity) whenever the elimination completes; that R is also a right inverse, which holds for every square matrix, is not proved. A matrix that is invertible but has a pivot at most eps still gets the zero matrix, so no lemma says that every invertible matrix is inverted.
- Elimination.LuDeterminant: agreement with the determinant is proved for every 2 by 2 matrix (`Matrices.LuAgreesAtTwo`) and for triangular, diagonal, zero-column and row-swapped identity matrices of any size; for general matrices of size 3 and above there is no independent determinant in the model to compare it with.
- Elimination.NextDetNegates: that a row exchange negates the LU determinant is proved for one step and for concrete matrices (`LuSwapNegates`), not for the whole elimination of every matrix.
- TransformComponents.TransformComponent.Default: assigns the three caches their values for the default pose (identity world, its inverse, identity rotation matrix) instead of calling the update methods; `DefaultWorldIsIdentity` and `IdentityRotationMatrix` prove those are the values the updates compute.
- The profiler's mutex, `log_summary`, `log_detailed_report`, `std::source_location` and `ScopedTimer` (profiler.cpp:90-158, 211-229) are concurrency, logging and RAII plumbing: not modelled. The clock is the parameter `now`.
- ProfileStats.WithSample: `totalTime` and `callCount` are unbounded integers; the signed 64-bit overflow of `Duration` and the `u64` wrap of the call count after 2^64 samples are not modelled.
- `average_time_ms` and `total_time_ms` return exact quotients where the source returns `double`.

## Findings

| source | as written | input that shows it | evidently intended | confidence | as-written member | corrected member |
|---|---|---|---|---|---|---|
| include/pbrt/math/matrix.hpp:1024 | `inverse_3` computes `det = m00*c00 - m01*c10 + m02*c20`, mixing the first-row cofactor of (0, 0) with the first-column cofactors of (1, 0) and (2, 0) | the shear [[1, 1, 0], [0, 1, 0], [0, 0, 1]]: determinant 1, computed `det` 0, so `inverse()` returns the zero matrix | expansion along the first row, `m00*c00 - m01*c01 + m02*c02`, which is the determinant the adjugate is divided by | not executed; high, `determinant()` (matrix.hpp:530-535) expands along the first row and gives 1 for the same matrix | ClosedForms.Inverse3AsWrittenRejectsShear | ClosedForms.Inverse3Correct |
| include/pbrt/math/matrix.hpp:87 | `operator()` asserts `row < Rows \|\| col < Cols` | (0, Cols) on a matrix of at least two rows passes the assertion and addresses the element of (1, 0) | `row < Rows && col < Cols`, as its doc comment and `index()` (line 892) state | not executed; low, `index()` still asserts the full bound in the same call | Matrices.AccessGuardAsWrittenAliases | Matrices.IndexGuardSound |
