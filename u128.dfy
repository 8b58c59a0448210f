/** Rust's `u128` and the two saturating operations the contract uses on it. */
module U128 {

  /** The largest value of a `u128`, 2^128 - 1. */
  const U128_MAX: int := 0xffff_ffff_ffff_ffff_ffff_ffff_ffff_ffff

  /** An unsigned 128-bit integer. */
  type u128 = x: int | 0 <= x <= U128_MAX

  /** `u128::saturating_add`: the mathematical sum, clamped to `U128_MAX`. */
  function SaturatingAdd(a: u128, b: u128): (r: u128)
    ensures a + b <= U128_MAX ==> r == a + b
    ensures a + b > U128_MAX ==> r == U128_MAX
    ensures a <= r && b <= r
  {
    if a + b > U128_MAX then U128_MAX else a + b
  }

  /** `u128::saturating_sub`: the mathematical difference, clamped to 0. */
  function SaturatingSub(a: u128, b: u128): (r: u128)
    ensures b <= a ==> r == a - b
    ensures a < b ==> r == 0
    ensures r <= a
  {
    if a < b then 0 else a - b
  }
}
