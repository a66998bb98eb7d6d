/** Fixed-width integer types used on the wire, the relay's size constants,
    and the big-endian composition of two bytes into a 16-bit word. */
module Wire {

  /** An unsigned 8-bit value (the relay casts every buffer byte to uint8_t). */
  type byte = x: int | 0 <= x < 0x100

  /** An unsigned 16-bit value. */
  type uint16 = x: int | 0 <= x < 0x1_0000

  /** An unsigned 32-bit value (the checksum accumulator). */
  type uint32 = x: int | 0 <= x < 0x1_0000_0000

  const TWO_POW_32: int := 0x1_0000_0000

  /** Size of the source receive buffer: no frame is longer than this. */
  const MAX_MSG_LENGTH: nat := 65535

  /** Size of the fixed frame header. */
  const HEADER_LENGTH: nat := 8

  /** `left << 8 | right`: the shift leaves the low eight bits clear, so the
      `|` is an addition and the word is `left * 256 + right`. The contract
      says the two bytes can be read back: `left` is the high byte and
      `right` the low byte of the result. */
  function ConcatTwoBytes(left: byte, right: byte): (w: uint16)
    ensures w / 0x100 == left && w % 0x100 == right
  {
    left * 0x100 + right
  }

  /** The high (first on the wire) byte of a 16-bit word. */
  function HighByte(w: uint16): byte { w / 0x100 }

  /** The low (second on the wire) byte of a 16-bit word. */
  function LowByte(w: uint16): byte { w % 0x100 }

  /** Splitting a word into its big-endian bytes and joining them again
      gives the word back. */
  lemma ConcatSplit(w: uint16)
    ensures ConcatTwoBytes(HighByte(w), LowByte(w)) == w
  {
  }
}
