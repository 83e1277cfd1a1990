# Reading layer of a DWARF parser, in Dafny

This project models `src/reader.rs` of the gimli DWARF parser. That file is the layer every structural decoder builds on, and it has two parts:

* **Section offsets** (`ReaderOffset` and its `u64`, `u32` and `usize` implementations). An offset is an integer of a chosen width. It offers widening constructors, a checked narrowing constructor from `u64`, widening back to `u64`, modular addition and checked subtraction. In the model (module `Offsets`) an offset is a `nat`, and `OffsetKind` names the implementation. `Fits(k, x)` states `0 <= x < 2^W`. Each trait method is one function that takes the kind, and it follows the body of each implementation.
* **The reader contract** (`Reader`). This is a cursor over the remaining bytes of a section. In the model (module `Readers`) it is a class over an immutable `seq<uint8>` with a start position and a remaining length. The byte order and the offset kind are constant fields. `Bytes()` gives the bytes still to be read. Each primitive is a method or function whose contract states three things:
  * the bytes it consumes;
  * the value it returns, in terms of the old `Bytes()`;
  * that a failing call leaves the cursor unchanged.

  The default methods `read_null_terminated_slice`, `read_address`, `read_word` and `read_offset` are written as the source writes them, only in terms of those primitives. They are verified against their own contracts.

Helpers that support the model:

* `Parser` holds the error kinds, the `Result` type and the `Format` selector that reader.rs imports from `parser`.
* `Ints` holds the fixed-width integer types.
* `Endianity` stands in for the crate's byte-order module, which is not part of this model. It gives the usual little- and big-endian readings of a byte group.

The trait leaves the primitives abstract, and reader.rs does not say which error kind a backend reports. This model gives them the meaning of an in-memory backend and picks the error kinds itself:
* `find` and the fixed-width reads fail with `UnexpectedEof` when too few bytes remain.
* `truncate`, `skip` and `split` fail with `OutOfBounds` when the requested length exceeds what remains.

Every successful consuming operation advances the reader's start position by exactly the number of bytes it consumed. A reader returned by `split` or `read_null_terminated_slice` starts where `self` started, so `offset_from` measures what the reads did.

The constructors (`Reader(data, endian, kind)` and `Reader.View`) stand for a backend wrapping a buffer. They are not part of reader.rs.

Points where the code decides:
* Reading `[0x05, 0x00, 'h', 'i', 0x00]` gives `5` and then, from a null-terminated read, the empty slice, because the zero comes right after the `5`. Only a second null-terminated read returns `"hi"`, at offset 2 of the buffer, and empties the reader. `Readers.NullTerminatedScenario` proves this sequence of results.
* `read_offset` consumes the word before it narrows it (src/reader.rs:318). So when the word does not fit the offset width, the result is `UnsupportedOffset` and the cursor has still advanced by 4 or 8 bytes.
* `from_i16` is an `as` cast, so it always succeeds. A negative input wraps to `2^W + v`.

## Model

| member | source | states |
|---|---|---|
| `Offsets.FromU8` | src/reader.rs:86-88 | widening a u8 never fails: the result fits every width, and `into_u64` gives the byte back (the u64 and usize impls at 44-46 and 133-135 are the same cast) |
| `Offsets.FromU16` | src/reader.rs:91-93 | widening a u16 fits every width and `into_u64` returns the same value |
| `Offsets.FromI16` | src/reader.rs:96-98 | the cast always yields an offset of the width; non-negative inputs keep their value, negative ones become `2^W + v` (two's-complement sign extension, then truncation) |
| `Offsets.FromU32` | src/reader.rs:101-103 | widening a u32 fits every width (identity for u32) and `into_u64` returns the same value |
| `Offsets.FromU64` | src/reader.rs:106-113 | truncate-then-compare succeeds iff the value is below `2^W`; on success the offset equals the input; otherwise the error is `UnsupportedOffset` (u64 impl at 64-66 always succeeds) |
| `Offsets.IntoU64` | src/reader.rs:116-118 | widening an offset to u64 never fails and `from_u64` takes it back to the same offset |
| `Offsets.WrappingAdd` | src/reader.rs:121-123 | the sum stays in the width; it is `a + b` without overflow and `a + b - 2^W` with overflow |
| `Offsets.CheckedSub` | src/reader.rs:126-128 | returns nothing iff `b > a`; otherwise a difference `d` in the width with `d + b == a` |
| `Offsets.U64ConversionsAreIdentity` | src/reader.rs:64-71 | for u64, `from_u64` always succeeds with the same value and `into_u64` is the identity |
| `Offsets.U32Narrowing` | src/reader.rs:106-118 | for u32, `from_u64(v)` succeeds iff `v < 2^32`, round-trips through `into_u64`, and otherwise fails with `UnsupportedOffset` |
| `Offsets.UsizeAgreesWithU64` | src/reader.rs:131-176 | with a 64-bit usize, every usize operation computes what the u64 one does |
| `Offsets.SubThenAdd` | src/reader.rs:35-39 | a successful checked subtraction is undone by wrapping addition |
| `Offsets.AddThenSub` | src/reader.rs:35-39 | a wrapping addition that did not overflow is undone by checked subtraction |
| `Offsets.OverflowIsDetectable` | src/reader.rs:35-36 | a wrapping addition overflowed iff its result is smaller than the first operand, and iff it is smaller than the second |
| `Readers.Reader.Len` | src/reader.rs:192-193 | the remaining length is the number of bytes still in view and is a valid offset |
| `Readers.Reader.IsEmpty` | src/reader.rs:195-196 | true iff no bytes remain |
| `Readers.Reader.Empty` | src/reader.rs:198-199 | afterwards no bytes remain |
| `Readers.Reader.Truncate` | src/reader.rs:201-202 | keeps exactly the first `n` bytes with the start unchanged; a length beyond the remaining one fails and changes nothing |
| `Readers.Reader.OffsetFrom` | src/reader.rs:204-209 | for a reader contained in `base`, the result `r` is this reader's start minus `base`'s start; it fits the width, and `base`'s bytes at `r..r+len` are this reader's bytes |
| `Readers.Reader.Find` | src/reader.rs:211-213 | succeeds iff the byte occurs; the index is in range, holds the byte, and no earlier byte equals it; otherwise `UnexpectedEof`; consumes nothing |
| `Readers.Reader.Skip` | src/reader.rs:215-216 | drops exactly `n` bytes: the start advances by `n` and the length shrinks by `n`; too large an `n` fails and changes nothing |
| `Readers.Reader.Split` | src/reader.rs:218-222 | a fresh reader over exactly the next `n` bytes, starting where `self` started; `self`'s start advances by `n`; the two views concatenate to the original; too large an `n` fails and changes nothing |
| `Readers.Reader.ReadU8Array` | src/reader.rs:250-253 | returns exactly the next `size` bytes and advances the start by `size`, or fails with `UnexpectedEof` unchanged |
| `Readers.Reader.ReadU8` | src/reader.rs:255-256 | returns the next byte and advances the start by one, or fails unchanged |
| `Readers.Reader.ReadI8` | src/reader.rs:258-259 | the next byte reinterpreted as signed, start advanced by one, or fails unchanged |
| `Readers.Reader.ReadU16` | src/reader.rs:261-262 | the next 2 bytes in the reader's byte order, start advanced by 2, or fails unchanged |
| `Readers.Reader.ReadI16` | src/reader.rs:264-265 | the next 2 bytes read in order and reinterpreted as signed, start advanced by 2, or fails unchanged |
| `Readers.Reader.ReadU32` | src/reader.rs:267-268 | the next 4 bytes in the reader's byte order, start advanced by 4, or fails unchanged |
| `Readers.Reader.ReadI32` | src/reader.rs:270-271 | the next 4 bytes read in order and reinterpreted as signed, start advanced by 4, or fails unchanged |
| `Readers.Reader.ReadU64` | src/reader.rs:273-274 | the next 8 bytes in the reader's byte order, start advanced by 8, or fails unchanged |
| `Readers.Reader.ReadI64` | src/reader.rs:276-277 | the next 8 bytes read in order and reinterpreted as signed, start advanced by 8, or fails unchanged |
| `Readers.Reader.ReadNullTerminatedSlice` | src/reader.rs:279-285 | with a zero byte in view, returns a fresh reader over exactly the bytes before the first zero, starting where `self` started, and advances `self`'s start to just past that zero; with none, fails with `UnexpectedEof` and changes nothing |
| `Readers.Reader.ReadAddress` | src/reader.rs:297-306 | for sizes 1, 2, 4, 8 consumes that many bytes (start advanced by the size) and returns their value in the reader's byte order; any other size fails with `UnsupportedAddressSize` carrying that size and changes nothing |
| `Readers.Reader.ReadWord` | src/reader.rs:308-314 | consumes 4 bytes for 32-bit DWARF and 8 for 64-bit DWARF (start advanced by that much) and returns their value (below `2^32` for 32-bit DWARF) |
| `Readers.Reader.ReadOffset` | src/reader.rs:316-319 | consumes a word (start advanced by 4 or 8) and returns it if it fits the offset width, else `UnsupportedOffset` after consuming; never `UnsupportedOffset` for 32-bit DWARF |

## Left out

- `read_uleb128` and `read_sleb128` (src/reader.rs:287-295) only delegate to the `leb128` module, and that module is not part of this model.
- `to_slice`, `to_string` and `to_string_lossy` (src/reader.rs:224-248) produce borrowed-or-owned `Cow` values and do UTF-8 validation or lossy replacement in the Rust standard library. They are not modelled.
- The `Endianity` trait is not part of this model. Byte order is the `Endian` value with the conventional little- and big-endian readings.
- The `Debug`, `Clone`, `Send` and `Sync` bounds (src/reader.rs:182) carry no logic. A reader is a Dafny object, so copying a reader by value is not modelled. `split` and `read_null_terminated_slice` return fresh objects instead.
- The `usize` width is fixed at 64 bits. Targets with a 32-bit `usize` are not modelled.
- `offset_from` may panic when `base` does not contain the reader. The model states containment as a precondition.
- The plain `Add`, `AddAssign` and `Sub` bounds of `ReaderOffset` (src/reader.rs:13): reader.rs does not use these operators. They are not modelled, and neither is their overflow behaviour (a panic in debug builds, wrapping in release builds).
- `read_u8_array` is generic over the array type `A`. The model passes the array's length instead.
- `Readers.Reader.Empty`: the model keeps the start position. Where a backend moves its position when it empties is backend-defined.
