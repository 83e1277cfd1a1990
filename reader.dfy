/** The reader contract: a cursor over a suffix of an immutable section buffer,
    its primitive operations, and the read algorithms derived from them. */
module Readers {
  import opened Ints
  import opened Parser
  import opened Endianity
  import opened Offsets

  /** Index of the first occurrence of `b` in `s`, if there is one. */
  function IndexOf(s: seq<uint8>, b: uint8): (r: Option<nat>)
    ensures r.Some? <==> b in s
    ensures r.Some? ==> r.value < |s| && s[r.value] == b && b !in s[..r.value]
  {
    if s == [] then None
    else if s[0] == b then Some(0)
    else
      match IndexOf(s[1..], b)
      case None => None
      case Some(i) =>
        assert s[..i + 1] == [s[0]] + s[1..][..i];
        Some(i + 1)
  }

  /** A first occurrence is unique: two indices that both hold `b` with no `b`
      before them are the same index. */
  lemma FirstOccurrenceUnique(s: seq<uint8>, b: uint8, i: nat, j: nat)
    requires i < |s| && s[i] == b && b !in s[..i]
    requires j < |s| && s[j] == b && b !in s[..j]
    ensures i == j
  {
    assert forall k :: 0 <= k < i ==> s[..i][k] == s[k];
    assert forall k :: 0 <= k < j ==> s[..j][k] == s[k];
  }

  /** Number of bytes in a DWARF word of the given format. */
  function WordSize(format: Format): nat {
    match format
    case Dwarf32 => 4
    case Dwarf64 => 8
  }

  /** The address sizes a read of an address-sized integer supports. */
  predicate IsAddressSize(size: int) {
    size == 1 || size == 2 || size == 4 || size == 8
  }

  /** A cursor: the `len` bytes of `buf` starting at `start`. The buffer, the
      byte order and the offset width never change; reads move `start` forward
      and shrink `len`. */
  class Reader {
    const buf: seq<uint8>
    const endian: Endian
    const kind: OffsetKind
    var start: nat
    var len: nat

    ghost predicate Valid()
      reads this
    {
      start + len <= |buf| && Fits(kind, len)
    }

    /** The bytes still to be read. */
    function Bytes(): seq<uint8>
      reads this
      requires Valid()
    {
      buf[start..start + len]
    }

    /** A reader over the whole of `data`. */
    constructor (data: seq<uint8>, endian: Endian, kind: OffsetKind)
      requires Fits(kind, |data|)
      ensures Valid() && Bytes() == data
      ensures buf == data && this.endian == endian && this.kind == kind
    {
      buf, this.endian, this.kind := data, endian, kind;
      start, len := 0, |data|;
    }

    /** A reader over `buf[start..start + len]`, sharing the buffer. */
    constructor View(buf: seq<uint8>, endian: Endian, kind: OffsetKind, start: nat, len: nat)
      requires start + len <= |buf| && Fits(kind, len)
      ensures Valid() && Bytes() == buf[start..start + len]
      ensures this.buf == buf && this.endian == endian && this.kind == kind
      ensures this.start == start
    {
      this.buf, this.endian, this.kind := buf, endian, kind;
      this.start, this.len := start, len;
    }

    /** Number of bytes remaining. */
    function Len(): (n: Offset)
      reads this
      requires Valid()
      ensures n == |Bytes()| && Fits(kind, n)
    {
      len
    }

    /** Whether no bytes remain. */
    function IsEmpty(): (b: bool)
      reads this
      requires Valid()
      ensures b <==> Bytes() == []
    {
      len == 0
    }

    /** Drops every remaining byte. */
    method Empty()
      requires Valid()
      modifies this
      ensures Valid() && Bytes() == [] && start == old(start)
    {
      len := 0;
    }

    /** Keeps only the first `n` remaining bytes. */
    method Truncate(n: Offset) returns (r: Result<()>)
      requires Valid() && Fits(kind, n)
      modifies this
      ensures Valid()
      ensures n > old(len) ==> r == Err(OutOfBounds) && unchanged(this)
      ensures n <= old(len) ==> r.Ok? && start == old(start) && Bytes() == old(Bytes())[..n]
    {
      if len < n {
        return Err(OutOfBounds);
      }
      len := n;
      r := Ok(());
    }

    /** Position of this reader's bytes within those of `base`, which must contain them. */
    function OffsetFrom(base: Reader): (r: Offset)
      reads this, base
      requires Valid() && base.Valid()
      requires base.buf == buf && base.kind == kind
      requires base.start <= start && start + len <= base.start + base.len
      ensures Fits(kind, r) && r + Len() <= base.Len()
      ensures base.start + r == start
      ensures base.Bytes()[r..r + Len()] == Bytes()
    {
      start - base.start
    }

    /** Index of the first remaining byte equal to `byte`, without consuming anything. */
    function Find(byte: uint8): (r: Result<Offset>)
      reads this
      requires Valid()
      ensures r.Ok? <==> byte in Bytes()
      ensures r.Ok? ==> r.value < Len() && Bytes()[r.value] == byte && byte !in Bytes()[..r.value]
      ensures r.Err? ==> r.error == UnexpectedEof
    {
      match IndexOf(Bytes(), byte)
      case Some(i) => Ok(i)
      case None => Err(UnexpectedEof)
    }

    /** Discards the next `n` bytes. */
    method Skip(n: Offset) returns (r: Result<()>)
      requires Valid() && Fits(kind, n)
      modifies this
      ensures Valid()
      ensures n > old(len) ==> r == Err(OutOfBounds) && unchanged(this)
      ensures n <= old(len) ==> r.Ok? && Bytes() == old(Bytes())[n..] && start == old(start) + n && Len() == old(Len()) - n
    {
      if len < n {
        return Err(OutOfBounds);
      }
      start, len := start + n, len - n;
      r := Ok(());
    }

    /** Returns a new reader over the next `n` bytes and advances this one past them. */
    method Split(n: Offset) returns (r: Result<Reader>)
      requires Valid() && Fits(kind, n)
      modifies this
      ensures Valid()
      ensures n > old(len) ==> r == Err(OutOfBounds) && unchanged(this)
      ensures n <= old(len) ==>
        && r.Ok? && fresh(r.value) && r.value.Valid()
        && r.value.buf == buf && r.value.endian == endian && r.value.kind == kind
        && r.value.Bytes() == old(Bytes())[..n]
        && r.value.start == old(start)
        && Bytes() == old(Bytes())[n..] && start == old(start) + n
        && r.value.Bytes() + Bytes() == old(Bytes())
        && Len() == old(Len()) - n
    {
      if len < n {
        return Err(OutOfBounds);
      }
      var head := new Reader.View(buf, endian, kind, start, n);
      start, len := start + n, len - n;
      r := Ok(head);
    }

    /** Reads the next `size` bytes as they are (an array of `size` bytes). */
    method ReadU8Array(size: nat) returns (r: Result<seq<uint8>>)
      requires Valid()
      modifies this
      ensures Valid()
      ensures size > old(len) ==> r == Err(UnexpectedEof) && unchanged(this)
      ensures size <= old(len) ==>
        r == Ok(old(Bytes())[..size]) && Bytes() == old(Bytes())[size..] && start == old(start) + size
    {
      if len < size {
        return Err(UnexpectedEof);
      }
      assert buf[start..start + size] == Bytes()[..size];
      r := Ok(buf[start..start + size]);
      start, len := start + size, len - size;
    }

    method ReadU8() returns (r: Result<uint8>)
      requires Valid()
      modifies this
      ensures Valid()
      ensures old(len) < 1 ==> r == Err(UnexpectedEof) && unchanged(this)
      ensures 1 <= old(len) ==> r == Ok(old(Bytes())[0]) && Bytes() == old(Bytes())[1..] && start == old(start) + 1
    {
      var bytes :- ReadU8Array(1);
      r := Ok(bytes[0]);
    }

    method ReadI8() returns (r: Result<int8>)
      requires Valid()
      modifies this
      ensures Valid()
      ensures old(len) < 1 ==> r == Err(UnexpectedEof) && unchanged(this)
      ensures 1 <= old(len) ==>
        r == Ok(AsSigned(old(Bytes())[0], 1)) && Bytes() == old(Bytes())[1..] && start == old(start) + 1
    {
      var bytes :- ReadU8Array(1);
      r := Ok(AsSigned(bytes[0], 1));
    }

    method ReadU16() returns (r: Result<uint16>)
      requires Valid()
      modifies this
      ensures Valid()
      ensures old(len) < 2 ==> r == Err(UnexpectedEof) && unchanged(this)
      ensures 2 <= old(len) ==>
        r == Ok(Unsigned(endian, old(Bytes())[..2])) && Bytes() == old(Bytes())[2..] && start == old(start) + 2
    {
      var bytes :- ReadU8Array(2);
      assert Pow256(|bytes|) == 0x1_0000;
      r := Ok(Unsigned(endian, bytes));
    }

    method ReadI16() returns (r: Result<int16>)
      requires Valid()
      modifies this
      ensures Valid()
      ensures old(len) < 2 ==> r == Err(UnexpectedEof) && unchanged(this)
      ensures 2 <= old(len) ==>
        r == Ok(AsSigned(Unsigned(endian, old(Bytes())[..2]), 2)) && Bytes() == old(Bytes())[2..] && start == old(start) + 2
    {
      var bytes :- ReadU8Array(2);
      assert Pow256(|bytes|) == 0x1_0000;
      r := Ok(AsSigned(Unsigned(endian, bytes), 2));
    }

    method ReadU32() returns (r: Result<uint32>)
      requires Valid()
      modifies this
      ensures Valid()
      ensures old(len) < 4 ==> r == Err(UnexpectedEof) && unchanged(this)
      ensures 4 <= old(len) ==>
        r == Ok(Unsigned(endian, old(Bytes())[..4])) && Bytes() == old(Bytes())[4..] && start == old(start) + 4
    {
      var bytes :- ReadU8Array(4);
      assert Pow256(|bytes|) == 0x1_0000_0000;
      r := Ok(Unsigned(endian, bytes));
    }

    method ReadI32() returns (r: Result<int32>)
      requires Valid()
      modifies this
      ensures Valid()
      ensures old(len) < 4 ==> r == Err(UnexpectedEof) && unchanged(this)
      ensures 4 <= old(len) ==>
        r == Ok(AsSigned(Unsigned(endian, old(Bytes())[..4]), 4)) && Bytes() == old(Bytes())[4..] && start == old(start) + 4
    {
      var bytes :- ReadU8Array(4);
      assert Pow256(|bytes|) == 0x1_0000_0000;
      r := Ok(AsSigned(Unsigned(endian, bytes), 4));
    }

    method ReadU64() returns (r: Result<uint64>)
      requires Valid()
      modifies this
      ensures Valid()
      ensures old(len) < 8 ==> r == Err(UnexpectedEof) && unchanged(this)
      ensures 8 <= old(len) ==>
        r == Ok(Unsigned(endian, old(Bytes())[..8])) && Bytes() == old(Bytes())[8..] && start == old(start) + 8
    {
      var bytes :- ReadU8Array(8);
      assert Pow256(|bytes|) == 0x1_0000_0000_0000_0000;
      r := Ok(Unsigned(endian, bytes));
    }

    method ReadI64() returns (r: Result<int64>)
      requires Valid()
      modifies this
      ensures Valid()
      ensures old(len) < 8 ==> r == Err(UnexpectedEof) && unchanged(this)
      ensures 8 <= old(len) ==>
        r == Ok(AsSigned(Unsigned(endian, old(Bytes())[..8]), 8)) && Bytes() == old(Bytes())[8..] && start == old(start) + 8
    {
      var bytes :- ReadU8Array(8);
      assert Pow256(|bytes|) == 0x1_0000_0000_0000_0000;
      r := Ok(AsSigned(Unsigned(endian, bytes), 8));
    }

    /** Reads up to the first zero byte and returns a reader over the bytes before it;
        the zero itself is consumed but not returned. */
    method ReadNullTerminatedSlice() returns (r: Result<Reader>)
      requires Valid()
      modifies this
      ensures Valid()
      ensures 0 !in old(Bytes()) ==> r == Err(UnexpectedEof) && unchanged(this)
      ensures 0 in old(Bytes()) ==>
        && r.Ok? && fresh(r.value) && r.value.Valid()
        && r.value.buf == buf && r.value.endian == endian && r.value.kind == kind
        && var k := r.value.Len();
           && k < old(Len())
           && r.value.Bytes() == old(Bytes())[..k]
           && 0 !in r.value.Bytes()
           && old(Bytes())[k] == 0
           && Bytes() == old(Bytes())[k + 1..]
           && r.value.start == old(start)
           && start == old(start) + k + 1
    {
      var idx :- Find(0);
      var val :- assert Split(idx);
      var _ :- assert Skip(FromU8(kind, 1));
      r := Ok(val);
    }

    /** Reads an address of `size` bytes and widens it to 64 bits. */
    method ReadAddress(size: uint8) returns (r: Result<uint64>)
      requires Valid()
      modifies this
      ensures Valid()
      ensures !IsAddressSize(size) ==> r == Err(UnsupportedAddressSize(size)) && unchanged(this)
      ensures IsAddressSize(size) && old(len) < size ==> r == Err(UnexpectedEof) && unchanged(this)
      ensures IsAddressSize(size) && size <= old(len) ==>
        r == Ok(Unsigned(endian, old(Bytes())[..size])) && Bytes() == old(Bytes())[size..] && start == old(start) + size
    {
      match size
      case 1 =>
        var v :- ReadU8();
        SingleByte(endian, v);
        assert old(Bytes())[..1] == [v];
        r := Ok(v);
      case 2 =>
        var v :- ReadU16();
        r := Ok(v);
      case 4 =>
        var v :- ReadU32();
        r := Ok(v);
      case 8 =>
        r := ReadU64();
      case otherwise =>
        r := Err(UnsupportedAddressSize(otherwise));
    }

    /** Reads a 4-byte (32-bit DWARF) or 8-byte (64-bit DWARF) word, widened to 64 bits. */
    method ReadWord(format: Format) returns (r: Result<uint64>)
      requires Valid()
      modifies this
      ensures Valid()
      ensures old(len) < WordSize(format) ==> r == Err(UnexpectedEof) && unchanged(this)
      ensures WordSize(format) <= old(len) ==>
        && r == Ok(Unsigned(endian, old(Bytes())[..WordSize(format)]))
        && Bytes() == old(Bytes())[WordSize(format)..]
        && start == old(start) + WordSize(format)
      ensures format == Dwarf32 && r.Ok? ==> r.value < 0x1_0000_0000
    {
      match format
      case Dwarf32 =>
        var v :- ReadU32();
        r := Ok(v);
      case Dwarf64 =>
        r := ReadU64();
    }

    /** Reads a word and narrows it to this reader's offset width. The word's bytes
        are consumed even when the value does not fit. */
    method ReadOffset(format: Format) returns (r: Result<Offset>)
      requires Valid()
      modifies this
      ensures Valid()
      ensures old(len) < WordSize(format) ==> r == Err(UnexpectedEof) && unchanged(this)
      ensures WordSize(format) <= old(len) ==>
        && Bytes() == old(Bytes())[WordSize(format)..]
        && start == old(start) + WordSize(format)
        && var word := Unsigned(endian, old(Bytes())[..WordSize(format)]);
           && (word < Modulus(kind) ==> r == Ok(word) && Fits(kind, word))
           && (word >= Modulus(kind) ==> r == Err(UnsupportedOffset))
      ensures format == Dwarf32 ==> r != Err(UnsupportedOffset)
    {
      var word :- ReadWord(format);
      r := FromU64(kind, word);
    }
  }

  /** Reads from [0x05, 0x00, 'h', 'i', 0x00]: the byte 5, then the empty string
      (the zero right after it), then "hi" (at offset 2 of the whole buffer),
      after which nothing remains. */
  method NullTerminatedScenario() {
    var reader := new Reader([0x05, 0x00, 0x68, 0x69, 0x00], LittleEndian, U32);
    var b := reader.ReadU8();
    assert b == Ok(5);
    assert reader.Bytes() == [0x00, 0x68, 0x69, 0x00];
    ghost var before := reader.Bytes();
    var first := reader.ReadNullTerminatedSlice();
    assert first.Ok?;
    FirstOccurrenceUnique(before, 0, first.value.Len(), 0);
    assert first.value.Bytes() == [];
    assert reader.Bytes() == [0x68, 0x69, 0x00];
    before := reader.Bytes();
    var second := reader.ReadNullTerminatedSlice();
    assert second.Ok?;
    FirstOccurrenceUnique(before, 0, second.value.Len(), 2);
    assert second.Ok? && second.value.Bytes() == [0x68, 0x69];
    assert second.value.start == 2;
    assert reader.IsEmpty();
  }
}
