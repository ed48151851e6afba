/**
 * Byte-level vocabulary shared by the MMC-over-SPI model: the optional-value
 * wrapper, and the big-endian packing of 32-bit words that both the command
 * argument field and the CSD register use on the wire.
 */
module Bytes {

  datatype Option<+T> = None | Some(value: T)

  /** The four bytes of `w`, most significant first (the `arg >> 24`, `arg >> 16`,
      `arg >> 8`, `arg` stores of a command header, each truncated to a byte). */
  function BeBytes(w: bv32): (r: seq<bv8>)
    ensures |r| == 4
  {
    [(w >> 24) as bv8, ((w >> 16) & 0xFF) as bv8, ((w >> 8) & 0xFF) as bv8, (w & 0xFF) as bv8]
  }

  /** Reassembles a word from four bytes received most significant first. */
  function BeWord(b: seq<bv8>): (w: bv32)
    requires |b| == 4
    ensures BeBytes(w) == b
  {
    ((b[0] as bv32) << 24) | ((b[1] as bv32) << 16) | ((b[2] as bv32) << 8) | (b[3] as bv32)
  }

  /** Packing a word and reading it back gives the same word. */
  lemma WordRoundTrip(w: bv32)
    ensures BeWord(BeBytes(w)) == w
  {
  }
}
