/** 16-bit words in memory. */
module ByteOrder {
  import opened Text

  /** The byte order of the machine. */
  datatype Order = Little | Big

  /** The 16-bit word whose bytes in memory are `first`, `second`. */
  function WordAt(order: Order, first: int, second: int): int
  {
    if order == Big then first * 0x100 + second else first + second * 0x100
  }

  function WordOf(order: Order, first: Byte, second: Byte): (w: nat)
    ensures w == WordAt(order, first, second) <= 0xffff
  {
    WordAt(order, first, second)
  }

  /** The bytes in memory of a 16-bit word. */
  function StoredBytes(order: Order, w: nat): (b: seq<Byte>)
    requires w <= 0xffff
    ensures |b| == 2 && WordOf(order, b[0], b[1]) == w
  {
    if order == Big then [w / 0x100, w % 0x100] else [w % 0x100, w / 0x100]
  }

  /** A big-endian machine stores the high byte first, a little-endian one the low byte. */
  lemma HighByteFirst(w: nat)
    requires w <= 0xffff
    ensures StoredBytes(Big, w)[0] == w / 256 == StoredBytes(Little, w)[1]
    ensures StoredBytes(Big, w)[1] == w % 256 == StoredBytes(Little, w)[0]
  {
  }
}
