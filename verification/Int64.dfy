/** The 64-bit integers of the source; sums and products of this type are proved not to wrap. */
module Int64 {
  const MAX_INT64: int := 0x7FFF_FFFF_FFFF_FFFF

  type int64 = x: int | -MAX_INT64 - 1 <= x <= MAX_INT64

  /** What an unchecked 64-bit operation leaves of its exact result. */
  function Wrap(x: int): int64 {
    var m := x % 0x1_0000_0000_0000_0000;
    if m <= MAX_INT64 then m else m - 0x1_0000_0000_0000_0000
  }
}
