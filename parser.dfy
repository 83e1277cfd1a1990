/** The few items of the parser's shared vocabulary that the reading layer uses:
    its error kinds, its result type and the DWARF format selector. */
module Parser {
  import opened Ints

  /** Failure kinds a read can report. */
  datatype Error =
    | UnexpectedEof                     // a read needs more bytes than remain
    | OutOfBounds                       // a truncate/skip/split length exceeds what remains
    | UnsupportedOffset                 // a 64-bit value does not fit the offset width
    | UnsupportedAddressSize(size: uint8) // an address size other than 1, 2, 4 or 8

  datatype Result<+T> = Ok(value: T) | Err(error: Error) {
    predicate IsFailure() { Err? }

    function PropagateFailure<U>(): Result<U>
      requires Err?
    {
      Err(error)
    }

    function Extract(): T
      requires Ok?
    {
      value
    }
  }

  datatype Option<+T> = None | Some(value: T)

  /** 32-bit DWARF (4-byte section offsets) or 64-bit DWARF (8-byte section offsets). */
  datatype Format = Dwarf32 | Dwarf64
}
