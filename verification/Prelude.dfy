/** Small shared vocabulary: optional values, results, bytes and the integer widths of the gateway. */
module Prelude {

  datatype Option<+T> = None | Some(value: T)

  datatype Result<+T, +E> = Ok(value: T) | Err(error: E)

  type byte = b: nat | b < 256

  const I64_MAX: int := 0x7FFF_FFFF_FFFF_FFFF
  const I32_MAX: int := 0x7FFF_FFFF

  type i64 = x: int | -I64_MAX - 1 <= x <= I64_MAX

  /** Rust's `i64::saturating_add` for a non-negative second operand. */
  function SaturatingAdd(a: int, b: nat): (r: int)
    ensures r == a + b || (r == I64_MAX && a + b > I64_MAX)
    ensures a <= I64_MAX ==> r <= I64_MAX
  {
    if a + b > I64_MAX then I64_MAX else a + b
  }
}
