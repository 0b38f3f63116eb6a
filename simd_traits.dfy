// The SIMD eligibility table of include/pbrt/math/simd/simd_traits.hpp: which
// (element type, lane count) pairs map to a hardware register, with what alignment.
module SimdTraits {
  import opened Types
  import opened Wrappers

  /** One row of the table: `kIsSimdCompatible` and `kAlignment`. */
  datatype Traits = Traits(compatible: bool, alignment: nat)

  /** `simd_traits<T, N>`: four specialisations, everything else takes the default. */
  function SimdTraitsOf(t: ElementType, n: nat): (r: Traits)
    ensures r.compatible <==> (t == F32 && (n == 4 || n == 8)) || (t == F64 && (n == 2 || n == 4))
    // a specialised entry is aligned to the width of the register it fills
    ensures r.compatible ==> r.alignment == SizeOf(t) * n
    ensures !r.compatible ==> r.alignment == AlignOf(t)
  {
    match (t, n)
    case (F32, 4) => Traits(true, 16)
    case (F32, 8) => Traits(true, 32)
    case (F64, 2) => Traits(true, 16)
    case (F64, 4) => Traits(true, 32)
    case _ => Traits(false, AlignOf(t))
  }

  /** `simd_compatible<T, N>`. */
  predicate SimdCompatible(t: ElementType, n: nat)
  {
    SimdTraitsOf(t, n).compatible
  }

  /** `sse_compatible<T, N>`: compatible and 16-byte aligned. */
  predicate SseCompatible(t: ElementType, n: nat)
  {
    SimdCompatible(t, n) && SimdTraitsOf(t, n).alignment == 16
  }

  /** `avx_compatible<T, N>`: compatible and 32-byte aligned. */
  predicate AvxCompatible(t: ElementType, n: nat)
  {
    SimdCompatible(t, n) && SimdTraitsOf(t, n).alignment == 32
  }

  /** `kAlignmentV<T, N>`. */
  function AlignmentV(t: ElementType, n: nat): (r: nat)
    ensures r == 16 || r == 32 || r == AlignOf(t)
    ensures SimdCompatible(t, n) ==> r == SizeOf(t) * n
  {
    SimdTraitsOf(t, n).alignment
  }

  /** The 128-bit registers are exactly four floats or two doubles. */
  lemma SseExactly(t: ElementType, n: nat)
    ensures SseCompatible(t, n) <==> (t, n) == (F32, 4) || (t, n) == (F64, 2)
  {
  }

  /** The 256-bit registers are exactly eight floats or four doubles. */
  lemma AvxExactly(t: ElementType, n: nat)
    ensures AvxCompatible(t, n) <==> (t, n) == (F32, 8) || (t, n) == (F64, 4)
  {
  }

  /** No pair is both an SSE and an AVX pair. */
  lemma SseAndAvxDisjoint(t: ElementType, n: nat)
    ensures !(SseCompatible(t, n) && AvxCompatible(t, n))
  {
  }

  /** Examples of pairs without a specialisation: they keep the element's own alignment. */
  lemma DefaultExamples()
    ensures SimdTraitsOf(F32, 3) == Traits(false, 4)
    ensures SimdTraitsOf(I32, 4) == Traits(false, 4)
    ensures SimdTraitsOf(F32, 5) == Traits(false, 4)
    ensures SimdTraitsOf(F64, 3) == Traits(false, 8)
  {
  }

  /**
   * The scalar view of `simd_union<S, T, N>`: `operator[]` reads and writes
   * `scalar_data[index]`; the register view is not modelled.
   */
  datatype SimdUnion = SimdUnion(scalarData: seq<real>)

  /** The default constructor: the register is zeroed, so every lane reads 0. */
  function DefaultUnion(n: nat): (u: SimdUnion)
    ensures |u.scalarData| == n
    ensures forall i :: 0 <= i < n ==> u.scalarData[i] == 0.0
  {
    SimdUnion(seq(n, _ => 0.0))
  }

  /** The constructor from `std::array<T, N>` stores the array unchanged. */
  function FromArray(data: seq<real>): (u: SimdUnion)
    ensures Get(u, |data|) == None
    ensures forall i :: 0 <= i < |data| ==> Get(u, i) == Some(data[i])
  {
    SimdUnion(data)
  }

  /** `operator[](index) const`, with an out-of-range index (undefined in the source) made explicit. */
  function Get(u: SimdUnion, index: nat): (r: Option<real>)
    ensures r.Some? <==> index < |u.scalarData|
  {
    if index < |u.scalarData| then Some(u.scalarData[index]) else None
  }

  /** A write through `operator[](index)`. */
  function Set(u: SimdUnion, index: nat, value: real): (r: SimdUnion)
    requires index < |u.scalarData|
    ensures |r.scalarData| == |u.scalarData|
    ensures Get(r, index) == Some(value)
    ensures forall j :: 0 <= j < |u.scalarData| && j != index ==> Get(r, j) == Get(u, j)
  {
    SimdUnion(u.scalarData[index := value])
  }
}
