/** Fixed-width machine integers of the matcher program, as subsets of `int`,
    with the explicit wrap-around, truncation and saturation the program relies on. */
module Ints {

  const TWO_32: int := 0x1_0000_0000
  const TWO_63: int := 0x8000_0000_0000_0000
  const TWO_64: int := 0x1_0000_0000_0000_0000
  const TWO_127: int := 0x8000_0000_0000_0000_0000_0000_0000_0000
  const TWO_128: int := 0x1_0000_0000_0000_0000_0000_0000_0000_0000

  type byte = b: int | 0 <= b < 0x100
  type u32 = x: int | 0 <= x < 0x1_0000_0000
  type u64 = x: int | 0 <= x < 0x1_0000_0000_0000_0000
  type u128 = x: int | 0 <= x < 0x1_0000_0000_0000_0000_0000_0000_0000_0000
  type i64 = x: int | -0x8000_0000_0000_0000 <= x < 0x8000_0000_0000_0000
  type i128 = x: int | -0x8000_0000_0000_0000_0000_0000_0000_0000 <= x < 0x8000_0000_0000_0000_0000_0000_0000_0000

  const U64_MAX: u64 := 0xFFFF_FFFF_FFFF_FFFF
  const U128_MAX: u128 := 0xFFFF_FFFF_FFFF_FFFF_FFFF_FFFF_FFFF_FFFF

  /** `i128::unsigned_abs`: the magnitude, which fits a u128 even for i128::MIN. */
  function UnsignedAbs(x: i128): (r: u128)
    ensures r == x || r == -(x as int)
    ensures r >= 0 && (r == 0 <==> x == 0)
  {
    if x < 0 then -(x as int) else x
  }

  /** Two's-complement wrap-around of an i128 addition (release-mode `+`). */
  function WrapI128(x: int): (r: i128)
    ensures (r - x) % TWO_128 == 0
    ensures -TWO_127 <= x < TWO_127 ==> r == x
  {
    (x + TWO_127) % TWO_128 - TWO_127
  }

  /** A truncating `as u64` cast (or a release-mode wrapping u64 addition). */
  function TruncU64(x: nat): (r: u64)
    ensures (x - r) % TWO_64 == 0
    ensures x < TWO_64 ==> r == x
  {
    x % TWO_64
  }

  /** A release-mode wrapping u128 multiplication result. */
  function WrapU128(x: nat): (r: u128)
    ensures (x - r) % TWO_128 == 0
    ensures x < TWO_128 ==> r == x
  {
    x % TWO_128
  }

  /** `u64 as i64`: the same 64 bits read as a signed number. */
  function AsI64(x: u64): (r: i64)
    ensures (r - x) % TWO_64 == 0
    ensures x < TWO_63 ==> r == x
  {
    if x < TWO_63 then x else x - TWO_64
  }

  /** `u64::saturating_add`. */
  function SaturatingAdd(a: u64, b: u64): (r: u64)
    ensures r == a + b || (r == U64_MAX && a + b > U64_MAX)
    ensures a <= r
  {
    if a + b > U64_MAX then U64_MAX else a + b
  }

  /** `u64::saturating_sub`. */
  function SaturatingSub(a: u64, b: u64): (r: u64)
    ensures r == a - b || (r == 0 && a < b)
    ensures r <= a
  {
    if a < b then 0 else a - b
  }

  function Min(a: int, b: int): (r: int)
    ensures r <= a && r <= b && (r == a || r == b)
  {
    if a <= b then a else b
  }
}
