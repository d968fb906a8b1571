/** Values that more than one layer of the stack uses. */
module Basics {

  datatype Option<+T> = None | Some(value: T)

  /** One octet on the wire or in memory. */
  type Byte = b: int | 0 <= b < 256

  /** Counting: 1 for true. */
  function Tick(b: bool): nat { if b then 1 else 0 }

  /** A 16-bit number in network byte order, high octet first. */
  function U16(n: nat): (r: seq<Byte>)
    requires n < 0x1_0000
    ensures |r| == 2 && 0x100 * (r[0] as int) + r[1] == n
  {
    [n / 256, n % 256]
  }
}
