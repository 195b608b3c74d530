/**
  Bytes and nibbles as the 4-bit bus sees them.

  A byte is split into two nibbles: the high one is bits 7..4, the low one
  bits 3..0. The controller tests each bit with a single-bit mask
  (`bits & 0x10 == 0x10`); bytes are `bv8` so that the test is the same
  bitwise AND on the same eight bits.
*/
module Bytes {

  type Byte = bv8
  type Nibble = n: bv8 | n < 16

  /** `b & mask == mask`: every bit of `mask` is set in `b`. */
  predicate BitSet(b: Byte, mask: bv8) {
    b & mask == mask
  }

  /** The value carried by four data lines, the first line being the least significant bit. */
  function NibbleOf(d0: bool, d1: bool, d2: bool, d3: bool): Nibble {
    (if d0 then 1 else 0) | (if d1 then 2 else 0) | (if d2 then 4 else 0) | (if d3 then 8 else 0)
  }

  /** The nibble that the mask tests 0x10, 0x20, 0x40, 0x80 read out of `b`: its bits 7..4. */
  function HighNibble(b: Byte): (n: Nibble)
    ensures n == b >> 4
  {
    NibbleOf(BitSet(b, 0x10), BitSet(b, 0x20), BitSet(b, 0x40), BitSet(b, 0x80))
  }

  /** The nibble that the mask tests 0x01, 0x02, 0x04, 0x08 read out of `b`: its bits 3..0. */
  function LowNibble(b: Byte): (n: Nibble)
    ensures n == b & 0x0F
  {
    NibbleOf(BitSet(b, 0x01), BitSet(b, 0x02), BitSet(b, 0x04), BitSet(b, 0x08))
  }

  /** Reassembly of a byte from its two nibbles, high nibble first. */
  function Join(high: Nibble, low: Nibble): Byte {
    high * 16 + low
  }

  /** Splitting a byte into its two nibbles by mask tests loses nothing. */
  lemma NibblesRoundTrip(b: Byte)
    ensures Join(HighNibble(b), LowNibble(b)) == b
    ensures 16 * HighNibble(b) as int + LowNibble(b) as int == b as int
  {
  }
}
