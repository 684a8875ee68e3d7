/** Vocabulary shared by every component: optional values, results and the
    64-bit saturating arithmetic that the program uses for its counters. */
module Prelude {

  datatype Option<+T> = None | Some(value: T)

  datatype Result<+T, +E> = Ok(value: T) | Err(error: E)

  const U64_MAX: nat := 0xFFFF_FFFF_FFFF_FFFF

  type U64 = x: nat | x <= U64_MAX

  function Min(a: int, b: int): int {
    if a <= b then a else b
  }

  function Max(a: int, b: int): int {
    if a <= b then b else a
  }

  /** `u64::saturating_add` */
  function SatAdd(a: U64, b: U64): U64 {
    if a + b <= U64_MAX then a + b else U64_MAX
  }

  /** `u64::saturating_sub` */
  function SatSub(a: U64, b: U64): U64 {
    if b <= a then a - b else 0
  }

  /** Lower-case hexadecimal digit. */
  function HexDigit(n: nat): char
    requires n < 16
  {
    if n < 10 then ('0' as int + n) as char else ('a' as int + (n - 10)) as char
  }

  // ---- Durations, in nanoseconds

  const NANOS: nat := 1_000_000_000

  const DURATION_MAX: nat := U64_MAX * NANOS + (NANOS - 1)

  type Duration = d: nat | d <= DURATION_MAX

  /** `Duration::saturating_add` */
  function SatAddDuration(a: Duration, b: Duration): Duration {
    if a + b <= DURATION_MAX then a + b else DURATION_MAX
  }
}
