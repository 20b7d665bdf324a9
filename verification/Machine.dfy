/** The fixed-width integers of the C++ code, and how its operators wrap. */
module Machine {
  const TWO_31: int := 0x8000_0000
  const TWO_32: int := 0x1_0000_0000
  const TWO_64: int := 0x1_0000_0000_0000_0000

  type u8 = x: int | 0 <= x < 256
  type u32 = x: int | 0 <= x < 0x1_0000_0000
  type u64 = x: int | 0 <= x < 0x1_0000_0000_0000_0000

  /** The value an unsigned 32-bit variable holds after it is assigned x. */
  function U32(x: int): u32 { x % TWO_32 }

  /** The value an unsigned 64-bit variable holds after it is assigned x. */
  function U64(x: int): u64 { x % TWO_64 }

  /** The value a two's complement 32-bit int holds after it is assigned x. */
  function I32(x: int): int {
    (x + TWO_31) % TWO_32 - TWO_31
  }

  /** C division of x by a positive y: truncation toward zero. */
  function CDiv(x: int, y: int): int
    requires y > 0
  {
    if x >= 0 then x / y else -((-x) / y)
  }

  /** Within one wrap of its range an unsigned 32-bit variable is off by 2^32 or not at all. */
  lemma U32Cases(x: int)
    ensures 0 <= x < TWO_32 ==> U32(x) == x
    ensures TWO_32 <= x < 2 * TWO_32 ==> U32(x) == x - TWO_32
    ensures -TWO_32 <= x < 0 ==> U32(x) == x + TWO_32
  {
  }
}
