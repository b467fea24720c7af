/** Bytes and 32-bit words, as the C types u8 and u32. */
module Bytes {
  newtype Byte = b: int | 0 <= b < 256

  newtype Word = w: int | 0 <= w < 0x1_0000_0000

  /** Addition wraps round. */
  function Plus(x: Word, y: Word): Word {
    ((x as int + y as int) % 0x1_0000_0000) as Word
  }

  /** The four bytes of a word, low-order byte first. */
  function WordBytes(w: Word): (bytes: seq<Byte>)
    ensures |bytes| == 4
  {
    var v := w as nat;
    [(v % 256) as Byte, (v / 256 % 256) as Byte, (v / 65536 % 256) as Byte, (v / 16777216) as Byte]
  }

  function WordOf(bytes: seq<Byte>): Word
    requires |bytes| == 4
  {
    (bytes[0] as int + 256 * bytes[1] as int + 65536 * bytes[2] as int + 16777216 * bytes[3] as int) as Word
  }
}
