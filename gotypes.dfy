/** Go's fixed-width signed integer types, as subsets of the mathematical
    integers. Go's `int` is modelled as `int64` (a 64-bit platform). */
module GoTypes {

  const Int32Min: int := -0x8000_0000
  const Int32Max: int := 0x7fff_ffff
  const Int64Min: int := -0x8000_0000_0000_0000
  const Int64Max: int := 0x7fff_ffff_ffff_ffff

  newtype int32 = x: int | Int32Min <= x <= Int32Max
  newtype int64 = x: int | Int64Min <= x <= Int64Max
}
