/**
  Fixed-point and integer-width vocabulary of the vault program: the Rust
  integer types as subset types of `int`, the program's constants, its error
  codes, and Rust's truncating division and saturating arithmetic written out.
 */
module Numeric {

  // ---------------------------------------------------------------------
  // Rust integer widths
  // ---------------------------------------------------------------------

  const U8_MAX: int := 0xFF
  const U16_MAX: int := 0xFFFF
  const U32_MAX: int := 0xFFFF_FFFF
  const U64_MAX: int := 0xFFFF_FFFF_FFFF_FFFF
  const U128_MAX: int := 0xFFFF_FFFF_FFFF_FFFF_FFFF_FFFF_FFFF_FFFF
  const I16_MIN: int := -0x8000
  const I16_MAX: int := 0x7FFF
  const I32_MIN: int := -0x8000_0000
  const I32_MAX: int := 0x7FFF_FFFF
  const I64_MIN: int := -0x8000_0000_0000_0000
  const I64_MAX: int := 0x7FFF_FFFF_FFFF_FFFF
  const I128_MIN: int := -0x8000_0000_0000_0000_0000_0000_0000_0000
  const I128_MAX: int := 0x7FFF_FFFF_FFFF_FFFF_FFFF_FFFF_FFFF_FFFF

  type U8 = x: int | 0 <= x <= U8_MAX
  type U16 = x: int | 0 <= x <= U16_MAX
  type U32 = x: int | 0 <= x <= U32_MAX
  type U64 = x: int | 0 <= x <= U64_MAX
  type U128 = x: int | 0 <= x <= U128_MAX
  type I16 = x: int | I16_MIN <= x <= I16_MAX
  type I32 = x: int | I32_MIN <= x <= I32_MAX
  type I64 = x: int | I64_MIN <= x <= I64_MAX

  predicate InI128(x: int) { I128_MIN <= x <= I128_MAX }

  // ---------------------------------------------------------------------
  // Program constants
  // ---------------------------------------------------------------------

  const N_RETURNS: int := 32
  /** Returns and prices are both scaled by 1e6. */
  const FP_SCALE: int := 1_000_000
  const BPS_DENOM: int := 10_000
  const MAX_VOL_BPS: int := 10_000
  const MAX_RETURN_ABS_FP: int := 250_000
  const MAX_PRICE_FP: int := 10_000_000_000_000
  const MAX_VAR_FP2: int := 10_000_000_000_000_000

  const VOL_MODE_STDEV: int := 0
  const VOL_MODE_EWMA: int := 1
  const VOL_MODE_MAD: int := 2

  const FEED_SOL_USD: int := 1
  const FEED_SOL_USDC: int := 2
  const FEED_AUTO: int := 3

  // ---------------------------------------------------------------------
  // Errors
  // ---------------------------------------------------------------------

  /** The program's error codes that the modelled core can raise. `Panic` stands
      for a Rust arithmetic overflow check aborting the transaction. */
  datatype Error =
    | Paused
    | OracleNotReady
    | OracleDegradedHedgeBlocked
    | HedgeTooSoon
    | DriftNotMet
    | NoOutstandingRequest
    | WrongRequestId
    | PolicyCooldown
    | InvalidParams
    | MathOverflow
    | VolOutOfRange
    | CapExceeded
    | LeverageExceeded
    | ReserveTooLow
    | Panic

  datatype Result<+T> = Ok(value: T) | Err(error: Error) {
    predicate IsFailure() { Err? }
    function PropagateFailure<U>(): Result<U> requires Err? { Err(error) }
    function Extract(): T requires Ok? { value }
  }

  datatype Outcome = Pass | Fail(error: Error)

  // ---------------------------------------------------------------------
  // Arithmetic helpers
  // ---------------------------------------------------------------------

  function Abs(x: int): nat { if x < 0 then -x else x }

  function Min(a: int, b: int): int { if a <= b then a else b }

  function Max(a: int, b: int): int { if a >= b then a else b }

  /** Rust's `/` on signed integers: the quotient is truncated toward zero. */
  function TruncDiv(a: int, b: int): (q: int)
    requires b > 0
    ensures a >= 0 ==> q >= 0
    ensures a <= 0 ==> q <= 0
    ensures Abs(q) * b <= Abs(a) < (Abs(q) + 1) * b
  {
    var m := Abs(a) / b;
    DivBounds(Abs(a), b);
    if a >= 0 then m else -m
  }

  /** Floor division of a natural number brackets the dividend. */
  lemma DivBounds(a: nat, b: int)
    requires b > 0
    ensures 0 <= a / b && (a / b) * b <= a < (a / b + 1) * b
  {
    assert a == (a / b) * b + a % b;
  }

  /** Truncation agrees with Dafny's division on non-negative dividends. */
  lemma TruncDivNonneg(a: int, b: int)
    requires a >= 0 && b > 0
    ensures TruncDiv(a, b) == a / b
  {
  }

  /** Rust's `saturating_add` on `u32`. */
  function SatAddU32(a: U32, b: U32): U32 {
    if a + b > U32_MAX then U32_MAX else a + b
  }

  /** Rust's `saturating_add` on `u64`. */
  function SatAddU64(a: U64, b: U64): U64 {
    if a + b > U64_MAX then U64_MAX else a + b
  }

  /** Saturation of an exact result to the `i32` range. */
  function SatI32(x: int): (r: I32)
    ensures I32_MIN <= x <= I32_MAX ==> r == x
    ensures x > I32_MAX ==> r == I32_MAX
    ensures x < I32_MIN ==> r == I32_MIN
  {
    if x > I32_MAX then I32_MAX else if x < I32_MIN then I32_MIN else x
  }

  /** `checked_sub` that falls back to a default on underflow (`unwrap_or`). */
  function SubOr(a: U64, b: U64, default: U64): U64 {
    if a >= b then a - b else default
  }

  /** Multiplying both sides by a natural keeps the order. */
  lemma MulLe(k: nat, x: int, y: int)
    requires x <= y
    ensures k * x <= k * y
  {
  }
}
