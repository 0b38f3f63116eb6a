// Element types of the math library and their alignment (include/pbrt/types.hpp).
module Types {
  /** The fixed-width arithmetic types the traits tables are indexed by. */
  datatype ElementType = U8 | U16 | U32 | U64 | I8 | I16 | I32 | I64 | F32 | F64

  /** Width in bytes of one element. */
  function SizeOf(t: ElementType): (r: nat)
    ensures r == 1 || r == 2 || r == 4 || r == 8
    ensures (t == F32 || t == I32 || t == U32) <==> r == 4
    ensures (t == F64 || t == I64 || t == U64) <==> r == 8
  {
    match t
    case U8 => 1
    case I8 => 1
    case U16 => 2
    case I16 => 2
    case U32 => 4
    case I32 => 4
    case F32 => 4
    case U64 => 8
    case I64 => 8
    case F64 => 8
  }

  /** `alignof(T)`: on the supported 64-bit targets every scalar is aligned to its own size. */
  function AlignOf(t: ElementType): (r: nat)
    ensures r == SizeOf(t) && r <= 8
  {
    SizeOf(t)
  }
}
