/**
  The deterministic basis-point helpers behind the policy engine and the hedge
  controller: the blended volatility score, the linear band/interval mapping,
  the carry bias, the slew limiter, price drift and fill slippage, the EWMA
  helpers, hedge sizing, the guardrails and the NAV components.
 */
module PolicyMath {
  import opened Numeric

  // ---------------------------------------------------------------------
  // Volatility score
  // ---------------------------------------------------------------------

  /** Blend of realized and implied volatility, weights in bps, capped at 100%. */
  function WeightedVolScoreBps(realizedBps: U16, impliedBps: U16, wRealizedBps: U16, wImpliedBps: U16): (r: int)
    ensures 0 <= r <= MAX_VOL_BPS
    ensures wRealizedBps + wImpliedBps == BPS_DENOM && realizedBps <= MAX_VOL_BPS && impliedBps <= MAX_VOL_BPS
            ==> Min(realizedBps, impliedBps) <= r <= Max(realizedBps, impliedBps)
  {
    var sum := wRealizedBps * realizedBps + wImpliedBps * impliedBps;
    if wRealizedBps + wImpliedBps == BPS_DENOM then
      ConvexCombinationBounds(realizedBps, impliedBps, wRealizedBps, wImpliedBps);
      Min(sum / BPS_DENOM, MAX_VOL_BPS)
    else
      Min(sum / BPS_DENOM, MAX_VOL_BPS)
  }

  /** A bps-weighted sum of two values, floored, lies between them. */
  lemma ConvexCombinationBounds(a: nat, b: nat, wa: nat, wb: nat)
    requires wa + wb == BPS_DENOM
    ensures Min(a, b) * BPS_DENOM <= wa * a + wb * b <= Max(a, b) * BPS_DENOM
    ensures Min(a, b) <= (wa * a + wb * b) / BPS_DENOM <= Max(a, b)
  {
    var lo, hi := Min(a, b), Max(a, b);
    assert wa * lo <= wa * a <= wa * hi by { MulLe(wa, lo, a); MulLe(wa, a, hi); }
    assert wb * lo <= wb * b <= wb * hi by { MulLe(wb, lo, b); MulLe(wb, b, hi); }
    assert wa * lo + wb * lo == lo * BPS_DENOM;
    assert wa * hi + wb * hi == hi * BPS_DENOM;
    DivMonotone(lo * BPS_DENOM, wa * a + wb * b, BPS_DENOM);
    DivMonotone(wa * a + wb * b, hi * BPS_DENOM, BPS_DENOM);
  }

  lemma DivMonotone(x: int, y: int, d: int)
    requires 0 <= x <= y && d > 0
    ensures x / d <= y / d
  {
    DivBounds(x, d);
    DivBounds(y, d);
    if x / d > y / d {
      MulLe(d, y / d + 1, x / d);
      assert false;
    }
  }

  // ---------------------------------------------------------------------
  // Linear mapping of a score onto [min, max]
  // ---------------------------------------------------------------------

  /** `min + score * (max - min) / 10000`, the interpolation both widths share. */
  function LinearMap(scoreBps: nat, minV: nat, maxV: nat): (r: nat)
    requires minV <= maxV
    ensures scoreBps <= BPS_DENOM ==> minV <= r <= maxV
    ensures scoreBps == 0 ==> r == minV
    ensures scoreBps == BPS_DENOM ==> r == maxV
  {
    var span := maxV - minV;
    if scoreBps <= BPS_DENOM then
      MulLe(span, scoreBps, BPS_DENOM);
      DivMonotone(scoreBps * span, BPS_DENOM * span, BPS_DENOM);
      minV + scoreBps * span / BPS_DENOM
    else
      minV + scoreBps * span / BPS_DENOM
  }

  /** A higher score never maps to a lower value. */
  lemma LinearMapMonotone(s1: nat, s2: nat, minV: nat, maxV: nat)
    requires minV <= maxV && s1 <= s2
    ensures LinearMap(s1, minV, maxV) <= LinearMap(s2, minV, maxV)
  {
    MulLe(maxV - minV, s1, s2);
    DivMonotone(s1 * (maxV - minV), s2 * (maxV - minV), BPS_DENOM);
  }

  /** `map_u16_by_bps`: the `as u16` cast is written out. */
  function MapU16ByBps(scoreBps: U16, minV: U16, maxV: U16): (r: Result<U16>)
    ensures minV > maxV ==> r == Err(InvalidParams)
    ensures minV <= maxV ==> r.Ok?
    ensures minV <= maxV && scoreBps <= BPS_DENOM ==> minV <= r.value <= maxV
    ensures minV <= maxV && scoreBps == 0 ==> r.value == minV
    ensures minV <= maxV && scoreBps == BPS_DENOM ==> r.value == maxV
  {
    if minV == maxV then Ok(minV)
    else if minV > maxV then Err(InvalidParams)
    else Ok(LinearMap(scoreBps, minV, maxV) % (U16_MAX + 1))
  }

  /** `map_u64_by_bps`: the `as u64` cast is written out. */
  function MapU64ByBps(scoreBps: U16, minV: U64, maxV: U64): (r: Result<U64>)
    ensures minV > maxV ==> r == Err(InvalidParams)
    ensures minV <= maxV ==> r.Ok?
    ensures minV <= maxV && scoreBps <= BPS_DENOM ==> minV <= r.value <= maxV
    ensures minV <= maxV && scoreBps == 0 ==> r.value == minV
    ensures minV <= maxV && scoreBps == BPS_DENOM ==> r.value == maxV
  {
    if minV == maxV then Ok(minV)
    else if minV > maxV then Err(InvalidParams)
    else Ok(LinearMap(scoreBps, minV, maxV) % (U64_MAX + 1))
  }

  // ---------------------------------------------------------------------
  // Carry bias
  // ---------------------------------------------------------------------

  /** `expected_carry_bps`: staking + funding - borrow, each step saturating in i32. */
  function ExpectedCarryBps(stakingBps: I32, fundingBps: I32, borrowBps: I32): (r: I32)
    ensures I32_MIN <= stakingBps + fundingBps <= I32_MAX && I32_MIN <= stakingBps + fundingBps - borrowBps <= I32_MAX
            ==> r == stakingBps + fundingBps - borrowBps
  {
    SatI32(SatI32(stakingBps + fundingBps) - borrowBps)
  }

  /** `carry_policy_bias_bps`: +2% on both targets for a carry of at least +50 bps/day,
      -2% for at most -50 bps/day, nothing in between. */
  function CarryPolicyBiasBps(carryBps: I32): (r: (I16, I16))
    ensures r.0 == r.1
    ensures r.0 > 0 <==> carryBps >= 50
    ensures r.0 < 0 <==> carryBps <= -50
    ensures Abs(r.0) == 0 || Abs(r.0) == 200
  {
    if carryBps >= 50 then (200, 200)
    else if carryBps <= -50 then (-200, -200)
    else (0, 0)
  }

  /** The signed adjustment `v * bias / 10000`, truncated toward zero as in Rust. */
  function BiasAdjustment(v: nat, biasBps: I16): (adj: int)
    ensures biasBps >= 0 ==> adj >= 0
    ensures biasBps <= 0 ==> adj <= 0
    ensures Abs(adj) * BPS_DENOM <= v * Abs(biasBps) < (Abs(adj) + 1) * BPS_DENOM
  {
    assert Abs(v * biasBps) == v * Abs(biasBps);
    TruncDiv(v * biasBps, BPS_DENOM)
  }

  /** `apply_bps_bias_u16`: the biased value, clamped to the `u16` range. */
  function ApplyBpsBiasU16(v: U16, biasBps: I16): (r: U16)
    ensures biasBps == 0 ==> r == v
    ensures biasBps >= 0 ==> r >= v
    ensures biasBps <= 0 ==> r <= v
    ensures r == 0 || r == U16_MAX || Abs(r - v) * BPS_DENOM <= v * Abs(biasBps) < (Abs(r - v) + 1) * BPS_DENOM
  {
    if biasBps == 0 then v
    else
      var out := v + BiasAdjustment(v, biasBps);
      if out < 0 then 0 else if out > U16_MAX then U16_MAX else out
  }

  /** `apply_bps_bias_u64` as the program writes it: `out.max(0) as u64`, so an
      out-of-range result wraps modulo 2^64 instead of saturating. */
  function ApplyBpsBiasU64AsWritten(v: U64, biasBps: I16): U64 {
    if biasBps == 0 then v
    else
      var out := v + BiasAdjustment(v, biasBps);
      Max(out, 0) % (U64_MAX + 1)
  }

  /** A positive bias on an interval near `u64::MAX` wraps to a small value. */
  lemma ApplyBpsBiasU64WrapsNearMax()
    ensures ApplyBpsBiasU64AsWritten(U64_MAX, 200) == 368934881474191031
    ensures ApplyBpsBiasU64AsWritten(U64_MAX, 200) < U64_MAX
  {
    assert BiasAdjustment(U64_MAX, 200) == 368934881474191032;
  }

  /** `apply_bps_bias_u64` as evidently intended: the biased value saturated to the
      `u64` range, like the `u16` variant. The rest of the model uses this one. */
  function ApplyBpsBiasU64(v: U64, biasBps: I16): (r: U64)
    ensures biasBps == 0 ==> r == v
    ensures biasBps >= 0 ==> r >= v
    ensures biasBps <= 0 ==> r <= v
    ensures r == 0 || r == U64_MAX || Abs(r - v) * BPS_DENOM <= v * Abs(biasBps) < (Abs(r - v) + 1) * BPS_DENOM
  {
    if biasBps == 0 then v
    else
      var out := v + BiasAdjustment(v, biasBps);
      if out < 0 then 0 else if out > U64_MAX then U64_MAX else out
  }

  /** Wherever the written cast does not wrap, the two agree. */
  lemma ApplyBpsBiasU64AgreesInRange(v: U64, biasBps: I16)
    requires v + BiasAdjustment(v, biasBps) <= U64_MAX
    ensures ApplyBpsBiasU64AsWritten(v, biasBps) == ApplyBpsBiasU64(v, biasBps)
  {
  }

  // ---------------------------------------------------------------------
  // Slew-rate limiting
  // ---------------------------------------------------------------------

  /** Largest move allowed from `current`: `current * slew / 10000`, at least 1. */
  function SlewStep(current: nat, maxSlewBps: nat): nat {
    Max(current * maxSlewBps / BPS_DENOM, 1)
  }

  /** The slew limiter's promise about moving from `current` toward `target`. */
  predicate SlewLimited(current: int, target: int, r: int, step: nat) {
    && Min(current, target) <= r <= Max(current, target)
    && (current == 0 ==> r == target)
    && (current != 0 ==> Abs(r - current) <= step)
    && (current != 0 && Abs(target - current) <= step ==> r == target)
    && (current != 0 && Abs(target - current) > step ==> Abs(r - current) == step)
  }

  /** `slew_limit_u16`. */
  function SlewLimitU16(current: U16, target: U16, maxSlewBps: U16): (r: U16)
    ensures SlewLimited(current, target, r, SlewStep(current, maxSlewBps))
  {
    if current == target then current
    else if current == 0 then target
    else
      var maxDelta := SlewStep(current, maxSlewBps);
      if Abs(target - current) <= maxDelta then target
      else if target > current then current + maxDelta
      else current - maxDelta
  }

  /** `slew_limit_u64` as the program writes it: `current + max_delta` is cast to
      `u64` before it is compared with the target, so near `u64::MAX` it wraps. */
  function SlewLimitU64AsWritten(current: U64, target: U64, maxSlewBps: U16): U64 {
    if current == target then current
    else if current == 0 then target
    else
      var maxDelta := SlewStep(current, maxSlewBps);
      if target > current then Min((current + maxDelta) % (U64_MAX + 1), target)
      else Max(current - Min(maxDelta, current), target)
  }

  /** An upward move near `u64::MAX` lands below `current`, away from the target. */
  lemma SlewLimitU64WrapsNearMax()
    ensures SlewLimitU64AsWritten(U64_MAX - 10, U64_MAX, 10000) == U64_MAX - 21
    ensures SlewLimitU64AsWritten(U64_MAX - 10, U64_MAX, 10000) < U64_MAX - 10
  {
    assert SlewStep(U64_MAX - 10, 10000) == U64_MAX - 10;
  }

  /** `slew_limit_u64` as evidently intended: the step is capped at the target
      before narrowing to `u64`. The rest of the model uses this one. */
  function SlewLimitU64(current: U64, target: U64, maxSlewBps: U16): (r: U64)
    ensures SlewLimited(current, target, r, SlewStep(current, maxSlewBps))
  {
    if current == target then current
    else if current == 0 then target
    else
      var maxDelta := SlewStep(current, maxSlewBps);
      if target > current then Min(current + maxDelta, target)
      else Max(current - Min(maxDelta, current), target)
  }

  /** Wherever the written cast does not wrap, the two agree. */
  lemma SlewLimitU64AgreesInRange(current: U64, target: U64, maxSlewBps: U16)
    requires current + SlewStep(current, maxSlewBps) <= U64_MAX
    ensures SlewLimitU64AsWritten(current, target, maxSlewBps) == SlewLimitU64(current, target, maxSlewBps)
  {
  }

  // ---------------------------------------------------------------------
  // Policy targets
  // ---------------------------------------------------------------------

  /** Re-targeting happens when the score moved by at least the hysteresis, or on the first update. */
  function HysteresisPass(scoreBps: int, lastScoreBps: int, hysteresisBps: int): bool {
    Abs(scoreBps - lastScoreBps) >= hysteresisBps || lastScoreBps == 0
  }

  /** The band the policy steers toward: the score mapped onto [min, max], then carry-biased. */
  function BandTarget(scoreBps: U16, minBandBps: U16, maxBandBps: U16, carryBps: I32): (r: U16)
    requires minBandBps <= maxBandBps
    ensures CarryPolicyBiasBps(carryBps).0 == 0 && scoreBps <= BPS_DENOM ==> minBandBps <= r <= maxBandBps
    ensures scoreBps <= BPS_DENOM ==> r * BPS_DENOM <= maxBandBps * (BPS_DENOM + 200)
    ensures scoreBps <= BPS_DENOM ==> minBandBps * (BPS_DENOM - 200) <= r * BPS_DENOM
  {
    var base := MapU16ByBps(scoreBps, minBandBps, maxBandBps).value;
    var bias := CarryPolicyBiasBps(carryBps).0;
    BiasWithinTwoPercent(base, bias, U16_MAX);
    ApplyBpsBiasU16(base, bias)
  }

  /** The minimum hedge interval the policy steers toward, built the same way. */
  function IntervalTarget(scoreBps: U16, minIntervalSlots: U64, maxIntervalSlots: U64, carryBps: I32): (r: U64)
    requires minIntervalSlots <= maxIntervalSlots
    ensures CarryPolicyBiasBps(carryBps).1 == 0 && scoreBps <= BPS_DENOM ==> minIntervalSlots <= r <= maxIntervalSlots
    ensures scoreBps <= BPS_DENOM ==> r * BPS_DENOM <= maxIntervalSlots * (BPS_DENOM + 200)
    ensures scoreBps <= BPS_DENOM ==> minIntervalSlots * (BPS_DENOM - 200) <= r * BPS_DENOM
  {
    var base := MapU64ByBps(scoreBps, minIntervalSlots, maxIntervalSlots).value;
    var bias := CarryPolicyBiasBps(carryBps).1;
    BiasWithinTwoPercent(base, bias, U64_MAX);
    ApplyBpsBiasU64(base, bias)
  }

  /** A +/-2% bias, clamped to [0, cap], moves a value by at most 2% and never to 0. */
  lemma BiasWithinTwoPercent(v: nat, bias: I16, cap: nat)
    requires v <= cap && Abs(bias) <= 200
    ensures var out := v + BiasAdjustment(v, bias);
            var r := if out < 0 then 0 else if out > cap then cap else out;
            r * BPS_DENOM <= v * (BPS_DENOM + 200) && v * (BPS_DENOM - 200) <= r * BPS_DENOM
  {
    var adj := BiasAdjustment(v, bias);
    MulLe(v, Abs(bias), 200);
    var a := Abs(adj);
    assert a * BPS_DENOM <= v * 200;
    var out := v + adj;
    assert v - a <= out <= v + a;
    assert out >= 0;
  }

  /** The carry bias can push the band target past `max_band_bps`: containment in
      [min, max] is not an invariant of the policy. */
  lemma BandTargetCanExceedMax()
    ensures BandTarget(10000, 100, 1000, 50) == 1020
  {
    assert MapU16ByBps(10000, 100, 1000).value == 1000;
    assert BiasAdjustment(1000, 200) == 20;
  }

  /** The mid score maps halfway: 100..1000 at 50% gives 550. */
  lemma BandTargetMidpoint()
    ensures BandTarget(5000, 100, 1000, 0) == 550
  {
    assert MapU16ByBps(5000, 100, 1000).value == 550;
  }

  // ---------------------------------------------------------------------
  // Relative price moves
  // ---------------------------------------------------------------------

  /** `|p - p0| * 10000 / p0`, capped at 100%. */
  function RelativeMoveBps(p: int, p0: int): (r: int)
    requires p0 > 0
    ensures 0 <= r <= MAX_VOL_BPS
    ensures r * p0 <= Abs(p - p0) * BPS_DENOM
    ensures r == MAX_VOL_BPS || Abs(p - p0) * BPS_DENOM < (r + 1) * p0
    ensures p == p0 ==> r == 0
  {
    var bps := Abs(p - p0) * BPS_DENOM / p0;
    DivBounds(Abs(p - p0) * BPS_DENOM, p0);
    Min(bps, MAX_VOL_BPS)
  }

  /** `compute_price_drift_bps`: no drift without a current price, maximal drift without an anchor. */
  function PriceDriftBps(currentPriceFp: I64, anchorPriceFp: I64): (r: int)
    ensures 0 <= r <= MAX_VOL_BPS
    ensures currentPriceFp <= 0 ==> r == 0
    ensures currentPriceFp > 0 && anchorPriceFp <= 0 ==> r == MAX_VOL_BPS
    ensures currentPriceFp > 0 && anchorPriceFp > 0 ==> r == RelativeMoveBps(currentPriceFp, anchorPriceFp)
  {
    if currentPriceFp <= 0 then 0
    else if anchorPriceFp <= 0 then MAX_VOL_BPS
    else RelativeMoveBps(currentPriceFp, anchorPriceFp)
  }

  /** `compute_slippage_bps`: a non-positive reference price is rejected. */
  function SlippageBps(fillPriceFp: I64, refPriceFp: I64): (r: Result<U16>)
    ensures refPriceFp <= 0 <==> r == Err(InvalidParams)
    ensures r.Ok? ==> r.value <= MAX_VOL_BPS && r.value == RelativeMoveBps(fillPriceFp, refPriceFp)
  {
    if refPriceFp <= 0 then Err(InvalidParams) else Ok(RelativeMoveBps(fillPriceFp, refPriceFp))
  }

  // ---------------------------------------------------------------------
  // EWMA helpers
  // ---------------------------------------------------------------------

  /** `ewma_u16`: `prev * (1 - alpha) + x * alpha`, each term floored. */
  function EwmaU16(prev: U16, x: U16, alphaBps: U16): (r: Result<U16>)
    ensures alphaBps > BPS_DENOM <==> r == Err(MathOverflow)
    ensures r.Ok? ==> r.value <= Max(prev, x) && Min(prev, x) <= r.value + 1
    ensures r.Ok? && alphaBps == 0 ==> r.value == prev
    ensures r.Ok? && alphaBps == BPS_DENOM ==> r.value == x
  {
    if alphaBps > BPS_DENOM then Err(MathOverflow)
    else
      var left := prev * (BPS_DENOM - alphaBps) / BPS_DENOM;
      var right := x * alphaBps / BPS_DENOM;
      EwmaBounds(prev, x, alphaBps);
      Ok(Min(left + right, U16_MAX))
  }

  /** The two floored terms of an EWMA step stay within [min - 1, max]. */
  lemma EwmaBounds(prev: nat, x: nat, alphaBps: nat)
    requires alphaBps <= BPS_DENOM
    ensures var s := prev * (BPS_DENOM - alphaBps) / BPS_DENOM + x * alphaBps / BPS_DENOM;
            0 <= s <= Max(prev, x) && Min(prev, x) <= s + 1
  {
    MulLe(prev, 0, BPS_DENOM - alphaBps);
    MulLe(x, 0, alphaBps);
    ConvexCombinationBounds(prev, x, BPS_DENOM - alphaBps, alphaBps);
    FlooredSumBounds(prev * (BPS_DENOM - alphaBps), x * alphaBps, Min(prev, x), Max(prev, x));
  }

  /** Flooring two terms separately loses less than one unit of their sum. */
  lemma FlooredSumBounds(l: nat, r: nat, lo: int, hi: int)
    requires lo * BPS_DENOM <= l + r <= hi * BPS_DENOM
    ensures 0 <= l / BPS_DENOM + r / BPS_DENOM <= hi
    ensures lo <= l / BPS_DENOM + r / BPS_DENOM + 1
  {
    DivBounds(l, BPS_DENOM);
    DivBounds(r, BPS_DENOM);
  }

  /** `ewma_update_u128`, with the `u128` overflow checks written out. */
  function EwmaUpdateU128(prev: U128, x: U128, alphaBps: U16): (r: Result<U128>)
    ensures alphaBps > BPS_DENOM ==> r == Err(MathOverflow)
    ensures alphaBps <= BPS_DENOM && prev <= MAX_VAR_FP2 && x <= MAX_VAR_FP2 ==> r.Ok? && r.value <= Max(prev, x)
    ensures r.Ok? ==> r.value <= Max(prev, x)
  {
    if alphaBps > BPS_DENOM then Err(MathOverflow)
    else if prev * (BPS_DENOM - alphaBps) > U128_MAX || x * alphaBps > U128_MAX then
      assert prev <= MAX_VAR_FP2 && x <= MAX_VAR_FP2 ==> false by {
        if prev <= MAX_VAR_FP2 && x <= MAX_VAR_FP2 {
          MulLe(BPS_DENOM - alphaBps, prev, MAX_VAR_FP2);
          MulLe(alphaBps, x, MAX_VAR_FP2);
        }
      }
      Err(MathOverflow)
    else
      var left := prev * (BPS_DENOM - alphaBps) / BPS_DENOM;
      var right := x * alphaBps / BPS_DENOM;
      EwmaBounds(prev, x, alphaBps);
      if left + right > U128_MAX then Err(MathOverflow) else Ok(left + right)
  }

  // ---------------------------------------------------------------------
  // Hedge request helpers
  // ---------------------------------------------------------------------

  /** `compute_reason_code`: bit 0 says the interval was met, bit 1 that the drift was. */
  function ReasonCode(intervalOk: bool, driftOk: bool): (r: int)
    ensures 0 <= r <= 3
    ensures r % 2 == 1 <==> intervalOk
    ensures r / 2 == 1 <==> driftOk
  {
    match (intervalOk, driftOk)
    case (true, true) => 3
    case (true, false) => 1
    case (false, true) => 2
    case (false, false) => 0
  }

  /** `staked_sol * price / 1e6`, the USD value of a SOL amount (no `i128` overflow is possible). */
  function StakedValueFp(stakedSol: U64, priceFp: int): (v: nat)
    requires priceFp > 0
  {
    stakedSol * priceFp / FP_SCALE
  }

  /** `compute_target_hedge_notional_usd_delta`: a short hedge of
      `staked value * target delta * beta`, saturated to `-i64::MAX`. */
  function TargetHedgeNotionalUsdDelta(stakedSol: U64, priceFp: I64, targetDeltaBps: U16, betaFp: I64): (r: Result<I64>)
    ensures stakedSol == 0 || priceFp <= 0 ==> r == Ok(0)
    ensures r.Ok? ==> -I64_MAX <= r.value <= 0
    ensures r.Err? ==> r.error == MathOverflow
  {
    if stakedSol == 0 || priceFp <= 0 then Ok(0)
    else
      var stakedValue := StakedValueFp(stakedSol, priceFp);
      var withDelta := stakedValue * targetDeltaBps / BPS_DENOM;
      var product := withDelta * betaFp;
      if !InI128(product) then Err(MathOverflow)
      else
        var withBeta := TruncDiv(product, FP_SCALE);
        Ok(-Min(Abs(withBeta), I64_MAX))
  }

  /** With full delta and a beta of 1.0 the hedge exactly offsets the staked value. */
  lemma FullDeltaHedgeOffsetsStake(stakedSol: U64, priceFp: I64)
    requires stakedSol > 0 && priceFp > 0
    requires StakedValueFp(stakedSol, priceFp) <= I64_MAX
    ensures TargetHedgeNotionalUsdDelta(stakedSol, priceFp, BPS_DENOM as U16, FP_SCALE as I64)
            == Ok(-(StakedValueFp(stakedSol, priceFp) as int))
  {
    var v := StakedValueFp(stakedSol, priceFp);
    assert v * BPS_DENOM / BPS_DENOM == v;
    assert v * FP_SCALE / FP_SCALE == v;
    assert InI128(v * FP_SCALE);
  }

  // ---------------------------------------------------------------------
  // Guardrails
  // ---------------------------------------------------------------------

  /** `enforce_leverage_guardrail`: |hedge| <= staked * max_hedge_per_sol / 1e6, and no
      hedge at all without stake. `abs_i64(i64::MIN)` aborts the transaction. */
  function LeverageGuardrail(stakedSol: U64, hedgeUsd: I64, maxHedgePerSolFp: I64): (r: Outcome)
    ensures r == Pass <==>
              (stakedSol == 0 ==> hedgeUsd == 0)
              && (stakedSol > 0 ==> maxHedgePerSolFp > 0 && hedgeUsd != I64_MIN
                                    && Abs(hedgeUsd) * FP_SCALE <= stakedSol * maxHedgePerSolFp)
    ensures r != Pass ==> r.error in {LeverageExceeded, InvalidParams, Panic}
  {
    if stakedSol == 0 then (if hedgeUsd == 0 then Pass else Fail(LeverageExceeded))
    else if maxHedgePerSolFp <= 0 then Fail(InvalidParams)
    else if hedgeUsd == I64_MIN then Fail(Panic)
    else
      var rhs := stakedSol * maxHedgePerSolFp / FP_SCALE;
      DivBounds(stakedSol * maxHedgePerSolFp, FP_SCALE);
      if Abs(hedgeUsd) <= rhs then Pass else Fail(LeverageExceeded)
  }

  /** `set_hedge_notional_checked`: the absolute cap first, then the leverage guardrail. */
  function SetHedgeNotionalChecked(hedgeUsd: I64, maxAbsHedgeUsd: I64, stakedSol: U64, maxHedgePerSolFp: I64): (r: Outcome)
    ensures hedgeUsd == I64_MIN ==> r == Fail(Panic)
    ensures hedgeUsd != I64_MIN && Abs(hedgeUsd) > maxAbsHedgeUsd ==> r == Fail(CapExceeded)
    ensures r == Pass <==> hedgeUsd != I64_MIN && Abs(hedgeUsd) <= maxAbsHedgeUsd
                           && LeverageGuardrail(stakedSol, hedgeUsd, maxHedgePerSolFp) == Pass
  {
    if hedgeUsd == I64_MIN then Fail(Panic)
    else if Abs(hedgeUsd) > maxAbsHedgeUsd then Fail(CapExceeded)
    else LeverageGuardrail(stakedSol, hedgeUsd, maxHedgePerSolFp)
  }

  /** More stake never invalidates a hedge that passed the checks: the guardrail's
      allowance grows with the stake. */
  lemma LeverageMonotoneInStake(stakedSol: U64, newStakedSol: U64, hedgeUsd: I64, maxAbsHedgeUsd: I64, maxHedgePerSolFp: I64)
    requires stakedSol <= newStakedSol && maxHedgePerSolFp > 0
    requires SetHedgeNotionalChecked(hedgeUsd, maxAbsHedgeUsd, stakedSol, maxHedgePerSolFp) == Pass
    ensures SetHedgeNotionalChecked(hedgeUsd, maxAbsHedgeUsd, newStakedSol, maxHedgePerSolFp) == Pass
  {
    MulLe(maxHedgePerSolFp, stakedSol, newStakedSol);
  }

  /** `enforce_reserve_ratio`: reserve >= staked * min_reserve_bps / 10000. */
  function ReserveRatio(stakedSol: U64, reserveSol: U64, minReserveBps: U16): (r: Outcome)
    ensures r == Pass <==> (reserveSol + 1) * BPS_DENOM > stakedSol * minReserveBps
    ensures r != Pass ==> r == Fail(ReserveTooLow)
  {
    DivBounds(stakedSol * minReserveBps, BPS_DENOM);
    if reserveSol >= stakedSol * minReserveBps / BPS_DENOM then Pass else Fail(ReserveTooLow)
  }

  // ---------------------------------------------------------------------
  // NAV
  // ---------------------------------------------------------------------

  /** `staked_value_usd` / `reserve_value_usd`: zero for no holdings, otherwise needs a price. */
  function ValueUsd(amountSol: U64, priceFp: I64): (r: Result<I64>)
    ensures amountSol == 0 ==> r == Ok(0)
    ensures amountSol > 0 && priceFp <= 0 ==> r == Err(OracleNotReady)
    ensures amountSol > 0 && priceFp > 0 ==> r.Ok? && r.value == Min(StakedValueFp(amountSol, priceFp), I64_MAX)
    ensures r.Ok? ==> r.value >= 0
  {
    if amountSol == 0 then Ok(0)
    else if priceFp <= 0 then Err(OracleNotReady)
    else Ok(Min(StakedValueFp(amountSol, priceFp), I64_MAX))
  }

  /** `unrealized_pnl_usd`: hedge PnL accrual is not implemented by the program. */
  function UnrealizedPnlUsd(): int { 0 }

  /** `compute_nav_usd`: staked + reserve + unrealized PnL + accrued staking yield,
      each addition checked in `i64`. */
  function ComputeNavUsd(stakedSol: U64, reserveSol: U64, priceFp: I64, stakingAccruedUsd: I64): (r: Result<I64>)
    ensures (stakedSol > 0 || reserveSol > 0) && priceFp <= 0 ==> r == Err(OracleNotReady)
    ensures stakedSol == 0 && reserveSol == 0 ==> r == Ok(stakingAccruedUsd)
    ensures r.Ok? ==> r.value >= stakingAccruedUsd
    ensures r.Err? ==> r.error in {OracleNotReady, MathOverflow}
  {
    var st :- ValueUsd(stakedSol, priceFp);
    var rs :- ValueUsd(reserveSol, priceFp);
    var pnl := UnrealizedPnlUsd();
    if st + rs > I64_MAX then Err(MathOverflow)
    else if st + rs + pnl > I64_MAX then Err(MathOverflow)
    else if st + rs + pnl + stakingAccruedUsd > I64_MAX then Err(MathOverflow)
    else Ok(st + rs + pnl + stakingAccruedUsd)
  }
}
