/** Byte order: how a group of bytes is read as an unsigned integer.
    The crate's own endianity module is not part of this model; these are the
    two conventional orders it provides. */
module Endianity {
  import opened Ints

  datatype Endian = LittleEndian | BigEndian

  /** Least significant byte first. */
  function LittleValue(s: seq<uint8>): (v: nat)
    ensures v < Pow256(|s|)
  {
    if s == [] then 0 else s[0] + 256 * LittleValue(s[1..])
  }

  /** Most significant byte first. */
  function BigValue(s: seq<uint8>): (v: nat)
    ensures v < Pow256(|s|)
  {
    if s == [] then 0 else 256 * BigValue(s[..|s| - 1]) + s[|s| - 1]
  }

  /** The unsigned integer that `s` encodes in byte order `e`. */
  function Unsigned(e: Endian, s: seq<uint8>): (v: nat)
    ensures v < Pow256(|s|)
  {
    match e
    case LittleEndian => LittleValue(s)
    case BigEndian => BigValue(s)
  }

  function Reversed(s: seq<uint8>): (r: seq<uint8>)
    ensures |r| == |s|
    ensures forall i :: 0 <= i < |s| ==> r[i] == s[|s| - 1 - i]
  {
    if s == [] then [] else Reversed(s[1..]) + [s[0]]
  }

  /** The two orders differ only by reversing the bytes: a check that the two
      reference readings above are mirror images of each other. */
  lemma {:induction false} BigIsReversedLittle(s: seq<uint8>)
    ensures BigValue(s) == LittleValue(Reversed(s))
  {
    if s != [] {
      var init := s[..|s| - 1];
      BigIsReversedLittle(init);
      var r := Reversed(s);
      assert r[1..] == Reversed(init);
      assert r[0] == s[|s| - 1];
    }
  }

  /** A single byte reads as itself in either order. */
  lemma SingleByte(e: Endian, b: uint8)
    ensures Unsigned(e, [b]) == b
  {
    assert [b][1..] == [] && [b][..0] == [];
  }
}
