/** Byte strings and network byte order. */
module Octets {
  import opened Serial

  type Bytes = seq<byte>

  /** The 16-bit number at a position, high byte first. */
  function Number16(d: Bytes, pos: nat): nat
    requires pos + 1 < |d|
  {
    var hi: int, lo: int := d[pos], d[pos + 1];
    256 * hi + lo
  }

  /** Network byte order; a larger number is cut to 16 bits by `htons`. */
  function Be16(x: nat): (b: Bytes)
    ensures |b| == 2 && Number16(b, 0) == x % 0x1_0000
  {
    [x / 256 % 256, x % 256]
  }

  function Be32(x: u32): (b: Bytes)
    ensures |b| == 4
  {
    Be16(x / 0x1_0000) + Be16(x % 0x1_0000)
  }
}
