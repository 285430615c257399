/** Machine integers of the node: unsigned 64-bit words with the overflow behaviour each call site asks for. */
module Numbers {

  const U64_MAX: nat := 0xFFFF_FFFF_FFFF_FFFF
  const U128_MAX: nat := 0xFFFF_FFFF_FFFF_FFFF_FFFF_FFFF_FFFF_FFFF

  type u64 = x: nat | x <= U64_MAX
  type u128 = x: nat | x <= U128_MAX

  function Min(a: nat, b: nat): nat {
    if a <= b then a else b
  }

  /** `u64::saturating_add`. */
  function SaturatingAdd(a: u64, b: u64): u64 {
    if a + b <= U64_MAX then a + b else U64_MAX
  }

  /** `u64::saturating_sub`. */
  function SaturatingSub(a: u64, b: u64): u64 {
    if b <= a then a - b else 0
  }

  /** Plain `+` on `u64` in a release build: it wraps. */
  function WrappingAdd(a: u64, b: u64): u64 {
    if a + b <= U64_MAX then a + b else a + b - U64_MAX - 1
  }

  function SaturatingAdd128(a: u128, b: u128): u128 {
    if a + b <= U128_MAX then a + b else U128_MAX
  }

  function SaturatingSub128(a: u128, b: u128): u128 {
    if b <= a then a - b else 0
  }
}

/** Failure-carrying results shared by every component. */
module Wrappers {
  datatype Option<+T> = None | Some(value: T)
  datatype Result<+T, +E> = Success(value: T) | Failure(error: E)
}
