/** Optional and failing results, and a little arithmetic, Go's among it. */
module Basics {

  datatype Option<+T> = None | Some(value: T)

  datatype Result<+T, +E> = Ok(value: T) | Err(error: E)

  function Max(x: int, y: int): (r: int)
    ensures r >= x && r >= y && (r == x || r == y)
  {
    if x >= y then x else y
  }

  function Min(x: int, y: int): (r: int)
    ensures r <= x && r <= y && (r == x || r == y)
  {
    if x <= y then x else y
  }

  // Go's int on a 64-bit platform, and a bound on the length of a slice of 24-byte
  // elements in its address space.
  const MAX_INT := 0x7FFF_FFFF_FFFF_FFFF
  const MAX_OPS := 0x0400_0000_0000_0000

  /** Two's complement wrap-around of a 64-bit result. */
  function WrapInt(x: int): (r: int)
    ensures -0x8000_0000_0000_0000 <= r < 0x8000_0000_0000_0000
    ensures -0x8000_0000_0000_0000 <= x < 0x8000_0000_0000_0000 ==> r == x
    ensures (r - x) % 0x1_0000_0000_0000_0000 == 0
  {
    (x + (MAX_INT + 1)) % (2 * (MAX_INT + 1)) - (MAX_INT + 1)
  }
}
