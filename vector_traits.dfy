// The vector SIMD table of include/pbrt/math/vector_traits.hpp.
module VectorTraits {
  import opened Types
  import opened Wrappers
  import SimdTraits

  /** One row of the table: `kIsSimdCompatible` and `kAlignment`. */
  datatype Traits = Traits(compatible: bool, alignment: nat)

  /** `vector_traits<T, N>`: four specialisations over the default. */
  function VectorTraitsOf(t: ElementType, n: nat): (r: Traits)
    ensures r.compatible <==> (t == F32 && (n == 4 || n == 8)) || (t == F64 && (n == 2 || n == 4))
    ensures r.compatible ==> r.alignment == SizeOf(t) * n
    ensures !r.compatible ==> r.alignment == AlignOf(t)
  {
    match (t, n)
    case (F32, 4) => Traits(true, 16)
    case (F32, 8) => Traits(true, 32)
    case (F64, 2) => Traits(true, 16)
    case (F64, 4) => Traits(true, 32)
    case _ => Traits(false, AlignOf(t))
  }

  /** `vector_simd_compatible<T, N>`. */
  predicate VectorSimdCompatible(t: ElementType, n: nat)
  {
    VectorTraitsOf(t, n).compatible
  }

  /** `vector_sse_compatible<T, N>`. */
  predicate VectorSseCompatible(t: ElementType, n: nat)
  {
    VectorSimdCompatible(t, n) && VectorTraitsOf(t, n).alignment == 16
  }

  /** `vector_avx_compatible<T, N>`. */
  predicate VectorAvxCompatible(t: ElementType, n: nat)
  {
    VectorSimdCompatible(t, n) && VectorTraitsOf(t, n).alignment == 32
  }

  /** `kVectorAlignmentV<T, N>`: the table's alignment. */
  function VectorAlignmentV(t: ElementType, n: nat): (r: nat)
    ensures r == (if VectorSimdCompatible(t, n) then SizeOf(t) * n else AlignOf(t))
  {
    VectorTraitsOf(t, n).alignment
  }

  /** The vector table is the same table as the general SIMD one, row for row. */
  lemma AgreesWithSimdTraits(t: ElementType, n: nat)
    ensures VectorTraitsOf(t, n).compatible == SimdTraits.SimdTraitsOf(t, n).compatible
    ensures VectorTraitsOf(t, n).alignment == SimdTraits.SimdTraitsOf(t, n).alignment
  {
  }

  /** The concept examples: four floats fit SSE but not AVX, eight floats fit AVX only. */
  lemma ConceptExamples()
    ensures VectorSseCompatible(F32, 4) && !VectorAvxCompatible(F32, 4)
    ensures VectorAvxCompatible(F32, 8) && !VectorSseCompatible(F32, 8)
    ensures VectorSseCompatible(F64, 2) && VectorAvxCompatible(F64, 4)
    ensures !VectorSimdCompatible(F32, 3) && VectorAlignmentV(F32, 3) == 4
  {
  }

  /** The scalar view of `vector_union<S, T, N>`; the register view is not modelled. */
  datatype VectorUnion = VectorUnion(scalarData: seq<real>)

  /** The constructor from `std::array<T, N>` stores the array unchanged. */
  function FromArray(data: seq<real>): (u: VectorUnion)
    ensures Get(u, |data|) == None
    ensures forall i :: 0 <= i < |data| ==> Get(u, i) == Some(data[i])
  {
    VectorUnion(data)
  }

  /** `operator[](index) const`; an out-of-range index is undefined in the source. */
  function Get(u: VectorUnion, index: nat): (r: Option<real>)
    ensures r.Some? <==> index < |u.scalarData|
  {
    if index < |u.scalarData| then Some(u.scalarData[index]) else None
  }

  /** A write through `operator[](index)`. */
  function Set(u: VectorUnion, index: nat, value: real): (r: VectorUnion)
    requires index < |u.scalarData|
    ensures |r.scalarData| == |u.scalarData|
    ensures Get(r, index) == Some(value)
    ensures forall j :: 0 <= j < |u.scalarData| && j != index ==> Get(r, j) == Get(u, j)
  {
    VectorUnion(u.scalarData[index := value])
  }
}
