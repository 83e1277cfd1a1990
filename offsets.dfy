/** Section offsets of a configurable width: the offset trait and its three
    implementations (u64, u32 and the native usize, fixed here at 64 bits). */
module Offsets {
  import opened Ints
  import opened Parser

  /** Which implementation of the offset trait a reader uses. */
  datatype OffsetKind = U64 | U32 | Usize

  /** An offset or length; its range depends on the kind (see Fits). */
  type Offset = nat

  /** 2^W for an offset of W bits. */
  function Modulus(k: OffsetKind): (m: nat)
    ensures m == 0x1_0000_0000 || m == 0x1_0000_0000_0000_0000
  {
    match k
    case U64 => 0x1_0000_0000_0000_0000
    case U32 => 0x1_0000_0000
    case Usize => 0x1_0000_0000_0000_0000  // usize on a 64-bit target
  }

  /** x is a value of the offset type of kind k. */
  predicate Fits(k: OffsetKind, x: int) {
    0 <= x < Modulus(k)
  }

  /** Widening from u8 (`offset as W`). */
  function FromU8(k: OffsetKind, offset: uint8): (r: Offset)
    ensures Fits(k, r) && IntoU64(k, r) == offset
  {
    offset
  }

  /** Widening from u16 (`offset as W`). */
  function FromU16(k: OffsetKind, offset: uint16): (r: Offset)
    ensures Fits(k, r) && IntoU64(k, r) == offset
  {
    offset
  }

  /** `offset as W` from i16: sign extension followed by truncation to W bits,
      i.e. reduction modulo 2^W; negative inputs wrap to the top of the range. */
  function FromI16(k: OffsetKind, offset: int16): (r: Offset)
    ensures Fits(k, r)
    ensures offset >= 0 ==> r == offset
    ensures offset < 0 ==> r == Modulus(k) + offset && r >= Modulus(k) - 0x8000
  {
    offset % Modulus(k)
  }

  /** Widening from u32 (`offset as W`, the identity for the u32 width). */
  function FromU32(k: OffsetKind, offset: uint32): (r: Offset)
    ensures Fits(k, r) && IntoU64(k, r) == offset
  {
    offset
  }

  /** Checked narrowing from u64: truncate to W bits, then accept the result
      only if widening it back gives the original value. */
  function FromU64(k: OffsetKind, offset64: uint64): (r: Result<Offset>)
    ensures r.Ok? <==> offset64 < Modulus(k)
    ensures r.Ok? ==> Fits(k, r.value) && r.value == offset64
    ensures r.Err? ==> r.error == UnsupportedOffset
  {
    match k
    case U64 => Ok(offset64)
    case _ =>
      var offset: Offset := offset64 % Modulus(k);
      if offset == offset64 then Ok(offset) else Err(UnsupportedOffset)
  }

  /** Widening to u64; it never fails and is undone by FromU64. */
  function IntoU64(k: OffsetKind, x: Offset): (r: uint64)
    requires Fits(k, x)
    ensures FromU64(k, r) == Ok(x)
  {
    x
  }

  /** Modular addition in W bits. */
  function WrappingAdd(k: OffsetKind, a: Offset, b: Offset): (r: Offset)
    requires Fits(k, a) && Fits(k, b)
    ensures Fits(k, r)
    ensures a + b < Modulus(k) ==> r == a + b
    ensures a + b >= Modulus(k) ==> r == a + b - Modulus(k)
  {
    (a + b) % Modulus(k)
  }

  /** Subtraction that reports underflow instead of wrapping. */
  function CheckedSub(k: OffsetKind, a: Offset, b: Offset): (r: Option<Offset>)
    requires Fits(k, a) && Fits(k, b)
    ensures r.None? <==> b > a
    ensures r.Some? ==> Fits(k, r.value) && r.value + b == a
  {
    if a < b then None else Some(a - b)
  }

  /** For the u64 width narrowing always succeeds and both conversions are the identity. */
  lemma U64ConversionsAreIdentity(v: uint64)
    ensures FromU64(U64, v) == Ok(v)
    ensures IntoU64(U64, v) == v
  {
  }

  /** For the u32 width narrowing succeeds exactly below 2^32, and then round-trips. */
  lemma U32Narrowing(v: uint64)
    ensures FromU64(U32, v).Ok? <==> v < 0x1_0000_0000
    ensures FromU64(U32, v).Ok? ==> IntoU64(U32, FromU64(U32, v).value) == v
    ensures FromU64(U32, v).Err? ==> FromU64(U32, v) == Err(UnsupportedOffset)
  {
  }

  /** With a 64-bit native width, the usize implementation computes what the u64 one does. */
  lemma UsizeAgreesWithU64(v: uint64, a: Offset, b: Offset, s: int16)
    requires Fits(U64, a) && Fits(U64, b)
    ensures FromU64(Usize, v) == FromU64(U64, v)
    ensures Fits(Usize, a) && Fits(Usize, b)
    ensures WrappingAdd(Usize, a, b) == WrappingAdd(U64, a, b)
    ensures CheckedSub(Usize, a, b) == CheckedSub(U64, a, b)
    ensures FromI16(Usize, s) == FromI16(U64, s)
  {
  }

  /** CheckedSub is undone by WrappingAdd. */
  lemma SubThenAdd(k: OffsetKind, a: Offset, b: Offset)
    requires Fits(k, a) && Fits(k, b) && b <= a
    ensures CheckedSub(k, a, b).Some?
    ensures WrappingAdd(k, CheckedSub(k, a, b).value, b) == a
  {
  }

  /** A WrappingAdd that did not overflow is undone by CheckedSub. */
  lemma AddThenSub(k: OffsetKind, a: Offset, b: Offset)
    requires Fits(k, a) && Fits(k, b) && a + b < Modulus(k)
    ensures CheckedSub(k, WrappingAdd(k, a, b), b) == Some(a)
  {
  }

  /** A WrappingAdd that overflowed gives a result smaller than either operand. */
  lemma OverflowIsDetectable(k: OffsetKind, a: Offset, b: Offset)
    requires Fits(k, a) && Fits(k, b)
    ensures a + b >= Modulus(k) <==> WrappingAdd(k, a, b) < a
    ensures a + b >= Modulus(k) <==> WrappingAdd(k, a, b) < b
  {
  }
}
