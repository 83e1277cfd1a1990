/** Fixed-width integer types of the host language, as bounded subsets of `int`. */
module Ints {

  type uint8 = x: int | 0 <= x < 0x100
  type uint16 = x: int | 0 <= x < 0x1_0000
  type uint32 = x: int | 0 <= x < 0x1_0000_0000
  type uint64 = x: int | 0 <= x < 0x1_0000_0000_0000_0000

  type int8 = x: int | -0x80 <= x < 0x80
  type int16 = x: int | -0x8000 <= x < 0x8000
  type int32 = x: int | -0x8000_0000 <= x < 0x8000_0000
  type int64 = x: int | -0x8000_0000_0000_0000 <= x < 0x8000_0000_0000_0000

  /** 256^n: the number of distinct values an n-byte group can hold. */
  function Pow256(n: nat): (p: nat)
    ensures p >= 1
  {
    if n == 0 then 1 else 256 * Pow256(n - 1)
  }

  /** Two's-complement reinterpretation of an n-byte unsigned value (an `as` cast
      from `uN` to `iN`): the bits are kept, values with the top bit set become negative. */
  function AsSigned(u: nat, size: nat): (v: int)
    requires 0 < size && u < Pow256(size)
    ensures -128 * Pow256(size - 1) <= v < 128 * Pow256(size - 1)
    ensures v >= 0 ==> v == u && u < 128 * Pow256(size - 1)
    ensures v < 0 ==> v + Pow256(size) == u
  {
    if u < 128 * Pow256(size - 1) then u else u - Pow256(size)
  }
}
