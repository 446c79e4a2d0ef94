/**
  The oracle-driven return series: a fixed ring of 32 clamped per-update
  returns (1e6 fixed point) and the count of its non-zero entries, which the
  policy engine uses as its sample-size gate.
 */
module ReturnSeries {
  import opened Numeric

  /** Number of entries of `s` that are not zero. */
  function CountNonzero(s: seq<int>): (c: nat)
    ensures c <= |s|
  {
    if |s| == 0 then 0 else CountNonzero(s[..|s| - 1]) + (if s[|s| - 1] != 0 then 1 else 0)
  }

  /** An all-zero ring has no samples. */
  lemma {:induction false} CountNonzeroAllZero(s: seq<int>)
    requires forall k :: 0 <= k < |s| ==> s[k] == 0
    ensures CountNonzero(s) == 0
  {
    if |s| > 0 {
      CountNonzeroAllZero(s[..|s| - 1]);
    }
  }

  /** Overwriting one entry changes the count only by that entry's transition. */
  lemma {:induction false} CountNonzeroUpdate(s: seq<int>, i: nat, v: int)
    requires i < |s|
    ensures CountNonzero(s[i := v]) ==
              CountNonzero(s) - (if s[i] != 0 then 1 else 0) + (if v != 0 then 1 else 0)
    decreases |s|
  {
    var n := |s| - 1;
    if i < n {
      assert s[i := v][..n] == s[..n][i := v];
      CountNonzeroUpdate(s[..n], i, v);
    } else {
      assert s[i := v][..n] == s[..n];
    }
  }

  /** The one-update return `(p - p0) * 1e6 / p0`, truncated toward zero as in
      Rust, clamped to +/-25%. The `i128` arithmetic cannot overflow for `i64` prices. */
  function ClampedReturn(priceFp: I64, prevPriceFp: I64): (r: I32)
    requires prevPriceFp > 0
    ensures -MAX_RETURN_ABS_FP <= r <= MAX_RETURN_ABS_FP
    ensures r == 0 <==> Abs(priceFp - prevPriceFp) * FP_SCALE < prevPriceFp
    ensures priceFp >= prevPriceFp ==> r >= 0
    ensures priceFp <= prevPriceFp ==> r <= 0
    ensures Abs(r) < MAX_RETURN_ABS_FP ==>
              Abs(r) * prevPriceFp <= Abs(priceFp - prevPriceFp) * FP_SCALE < (Abs(r) + 1) * prevPriceFp
  {
    var diff := priceFp - prevPriceFp;
    assert Abs(diff * FP_SCALE) == Abs(diff) * FP_SCALE;
    var ret := TruncDiv(diff * FP_SCALE, prevPriceFp);
    QuotientZeroIff(Abs(diff) * FP_SCALE, prevPriceFp, Abs(ret));
    if ret > MAX_RETURN_ABS_FP then MAX_RETURN_ABS_FP
    else if ret < -MAX_RETURN_ABS_FP then -MAX_RETURN_ABS_FP
    else ret
  }

  /** A bracketed quotient is zero exactly when the dividend is below the divisor. */
  lemma QuotientZeroIff(a: nat, d: int, q: nat)
    requires d > 0 && q * d <= a < (q + 1) * d
    ensures q == 0 <==> a < d
  {
    if q >= 1 {
      assert q * d >= 1 * d;
    }
  }

  /** A 10% rise over the previous price records a return of 0.1 in 1e6 fixed point. */
  lemma ClampedReturnTenPercent()
    ensures ClampedReturn(110_000_000, 100_000_000) == 100_000
    ensures ClampedReturn(90_000_000, 100_000_000) == -100_000
    ensures ClampedReturn(200_000_000, 100_000_000) == MAX_RETURN_ABS_FP
  {
  }

  /** The spacing gate of `try_record_oracle_return`: after the first recorded
      update, a new one is skipped until `min_spacing` slots have passed (a slot
      that went backwards counts as no time at all). */
  predicate SpacingGated(lastReturnSlot: U64, slot: U64, minSpacingSlots: U64) {
    lastReturnSlot != 0 && SubOr(slot, lastReturnSlot, 0) < minSpacingSlots
  }

  /** The squared return fed to the EWMA variance, capped at `MAX_VAR_FP2`. */
  function SquaredReturn(ret: I32): (r: U128)
    ensures r <= MAX_VAR_FP2
    ensures Abs(ret) <= MAX_RETURN_ABS_FP ==> r == ret * ret
  {
    if Abs(ret) <= MAX_RETURN_ABS_FP then
      MulLe(Abs(ret), Abs(ret), MAX_RETURN_ABS_FP);
      MulLe(MAX_RETURN_ABS_FP, Abs(ret), MAX_RETURN_ABS_FP);
      Min(Abs(ret) * Abs(ret), MAX_VAR_FP2)
    else
      Min(Abs(ret) * Abs(ret), MAX_VAR_FP2)
  }
}
