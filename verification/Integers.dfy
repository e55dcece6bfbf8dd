/** Machine integers and small arithmetic. */
module Integers {
  const TWO_32: int := 0x1_0000_0000
  const TWO_63: int := 0x8000_0000_0000_0000
  const TWO_64: int := 0x1_0000_0000_0000_0000

  /** A signed 64-bit integer. */
  type i64 = x: int | -TWO_63 <= x < TWO_63

  function Min(a: nat, b: nat): nat { if a < b then a else b }

  function Max(a: int, b: int): int { if a < b then b else a }

  /** The cast of a signed to an unsigned 64-bit integer. */
  function AsUnsigned(x: i64): nat { if x < 0 then x + TWO_64 else x }

  /** The cast of an unsigned to a signed 64-bit integer. */
  function AsSigned(x: nat): i64
    requires x < TWO_64
  {
    if x < TWO_63 then x else x - TWO_64
  }
}
