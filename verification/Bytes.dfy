/** Bytes and the 32-bit words SQLite stores in them. */
module Bytes {

  type byte = b: int | 0 <= b < 256

  const U32: nat := 0x1_0000_0000

  type u32 = w: int | 0 <= w < 0x1_0000_0000

  /** The byte orders a WAL header can select for its checksums. */
  datatype ByteOrder = LittleEndian | BigEndian

  /** The word held by four consecutive bytes starting at `i`. */
  function Word(bo: ByteOrder, b: seq<byte>, i: nat): (w: u32)
    requires i + 4 <= |b|
  {
    var b0: int, b1: int, b2: int, b3: int := b[i], b[i + 1], b[i + 2], b[i + 3];
    match bo
    case BigEndian => ((b0 * 256 + b1) * 256 + b2) * 256 + b3
    case LittleEndian => ((b3 * 256 + b2) * 256 + b1) * 256 + b0
  }

  /** Header fields are big-endian whatever the checksum byte order is. */
  function BE32(b: seq<byte>, i: nat): (w: u32)
    requires i + 4 <= |b|
  {
    Word(BigEndian, b, i)
  }

  /** Go's `uint32` addition. */
  function Add32(x: u32, y: u32): (w: u32) {
    var sum: int := x + y;
    if sum < 0x1_0000_0000 then sum else sum - 0x1_0000_0000
  }
}
