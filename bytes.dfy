/**
 * Byte-level vocabulary shared by every decoder: unsigned 8- and 16-bit
 * integers and the little-endian layout of 16-bit descriptor fields.
 */
module Bytes {

  /** An unsigned byte (Rust `u8`). */
  type u8 = x: int | 0 <= x < 0x100

  /** An unsigned 16-bit integer (Rust `u16`). */
  type u16 = x: int | 0 <= x < 0x1_0000

  /** The 16-bit value stored little-endian as the two bytes `lo`, `hi`. */
  function Le16(lo: u8, hi: u8): (r: u16)
    ensures r % 0x100 == lo && r / 0x100 == hi
  {
    lo + 0x100 * hi
  }

  /** The two little-endian bytes of a 16-bit value. */
  function Le16Bytes(x: u16): (r: seq<u8>)
    ensures |r| == 2 && Le16(r[0], r[1]) == x
  {
    [x % 0x100, x / 0x100]
  }

  /** Reading back what was written is the identity, in both directions. */
  lemma Le16RoundTrip(x: u16, lo: u8, hi: u8)
    ensures Le16(Le16Bytes(x)[0], Le16Bytes(x)[1]) == x
    ensures Le16Bytes(Le16(lo, hi)) == [lo, hi]
  {
  }
}
