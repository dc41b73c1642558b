/**
 Shared vocabulary of the Markov-chain engine: machine-width integers,
 token identifiers and the optional value used for absent results.
 */
module Types {

  /** An unsigned 8-bit value, one byte of a packed token buffer. */
  type u8 = x: int | 0 <= x < 0x100

  /** An unsigned 16-bit value, the width of the segment counters. */
  type u16 = x: int | 0 <= x < 0x1_0000

  /** A signed 32-bit value, the width of the target length in `choose_best`. */
  type i32 = x: int | -0x8000_0000 <= x < 0x8000_0000

  /** The least `i32`, whose absolute value does not fit in an `i32`. */
  const I32Min: i32 := -0x8000_0000

  /**
   Two's-complement wrap-around to 32 bits, as a release build's `as i32`
   cast and `i32` arithmetic do: values already in range are kept, others
   move by a multiple of 2^32.
   */
  function Wrap32(x: int): (r: i32)
    ensures I32Min <= x < 0x8000_0000 ==> r == x
    ensures (x - r) % 0x1_0000_0000 == 0
  {
    (x + 0x8000_0000) % 0x1_0000_0000 - 0x8000_0000
  }

  /** A token identifier. Identifiers are handed out densely from 0. */
  type TokId = nat

  /** The largest identifier the packed multiset can store (three bytes). */
  const MaxTokId: nat := 0xFF_FFFF

  /** The identifier of the sentinel token that marks the start and end of a line. */
  const Sentinel: TokId := 0

  datatype Option<+T> = None | Some(value: T)
}
