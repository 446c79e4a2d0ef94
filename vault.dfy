/**
  The vault account and its instructions. Every instruction is all-or-nothing:
  on an error the account is left exactly as it was, since the runtime discards
  all writes of a failed transaction. The slot and the unix time are parameters;
  the price accounts arrive already decoded.
 */
module Vault {
  import opened Numeric
  import PolicyMath
  import OracleGate
  import ReturnSeries
  import Estimators

  /** The configuration `initialize_vault` accepts. */
  datatype InitializeParams = InitializeParams(
    minBandBps: U16, maxBandBps: U16, minIntervalSlots: U64, maxIntervalSlots: U64,
    volWeightRealizedBps: U16, volWeightImpliedBps: U16,
    minSamples: U8, minReturnSpacingSlots: U64,
    policyUpdateMinSlots: U64, maxPolicySlewBps: U16, hysteresisBps: U16,
    maxStakedSol: U64, maxAbsHedgeNotionalUsd: I64, maxHedgePerSolUsdFp: I64, minReserveBps: U16,
    volMode: U8, ewmaAlphaBps: U16,
    maxPriceAgeSlots: U64, maxConfidenceBps: U16, maxPriceJumpBps: U16, oracleFeedChoice: U8,
    targetDeltaBps: U16, lstBetaFp: I64,
    maxConfirmDelaySlots: U64, extremeDriftBps: U16, maxUpdatesPerEpoch: U16)

  /** The parameter checks of `initialize_vault`; every failure is `InvalidParams`. */
  predicate ParamsValid(p: InitializeParams) {
    // policy bounds
    && p.minBandBps <= p.maxBandBps <= MAX_VOL_BPS
    && p.minIntervalSlots <= p.maxIntervalSlots
    // score weights sum to 100%
    && p.volWeightRealizedBps <= BPS_DENOM && p.volWeightImpliedBps <= BPS_DENOM
    && p.volWeightRealizedBps + p.volWeightImpliedBps == BPS_DENOM
    // stability
    && 0 < p.minSamples <= N_RETURNS
    && p.minReturnSpacingSlots > 0
    && p.policyUpdateMinSlots > 0
    && 0 < p.maxPolicySlewBps <= BPS_DENOM
    && p.hysteresisBps <= BPS_DENOM
    // caps and guardrails
    && p.maxStakedSol > 0 && p.maxAbsHedgeNotionalUsd > 0 && p.maxHedgePerSolUsdFp > 0
    && p.minReserveBps <= BPS_DENOM
    // volatility model
    && p.volMode in {VOL_MODE_STDEV, VOL_MODE_EWMA, VOL_MODE_MAD}
    && (p.volMode == VOL_MODE_EWMA ==> 0 < p.ewmaAlphaBps <= BPS_DENOM)
    // oracle (the age limit is in seconds)
    && p.maxPriceAgeSlots > 0
    && p.maxConfidenceBps <= BPS_DENOM && p.maxPriceJumpBps <= BPS_DENOM
    && p.oracleFeedChoice in {FEED_SOL_USD, FEED_SOL_USDC, FEED_AUTO}
    // hedge sizing and confirmation
    && p.targetDeltaBps <= BPS_DENOM && p.lstBetaFp > 0
    && p.maxConfirmDelaySlots > 0
    && p.maxUpdatesPerEpoch > 0
  }

  /** What `update_epoch_and_policy` reports: the NAV snapshot and the decisions it took. */
  datatype EpochReport = EpochReport(navUsd: I64, realizedUpdated: bool, retargeted: bool)

  /** The hedge intent `request_hedge` emits. */
  datatype HedgeIntent = HedgeIntent(requestId: U64, targetHedgeNotionalUsd: I64, deltaGapUsd: I64,
                                     reasonCode: int, driftBps: int)

  /** The fill record `confirm_hedge` emits. */
  datatype FillRecord = FillRecord(refPriceFp: I64, slippageBps: U16, avgFillSlippageBps: U16)

  /** The policy outputs one re-targeting step leaves. */
  datatype Retargeting = Retargeting(bandBps: U16, minHedgeIntervalSlots: U64, lastVolScoreBps: U16, retargeted: bool)

  /** The hysteresis decision, re-targeting with the carry bias and the slew limit of
      `update_epoch_and_policy`. Without a re-target the limiter is still applied, toward
      the current values, and leaves them where they are. */
  function Retarget(cfg: InitializeParams, scoreBps: U16, lastScoreBps: U16, bandBps: U16,
                    intervalSlots: U64, carryBps: I32): (r: Retargeting)
    requires ParamsValid(cfg)
    ensures r.retargeted == PolicyMath.HysteresisPass(scoreBps, lastScoreBps, cfg.hysteresisBps)
    ensures !r.retargeted ==> r == Retargeting(bandBps, intervalSlots, lastScoreBps, false)
    ensures r.retargeted ==>
              && r.lastVolScoreBps == scoreBps
              && PolicyMath.SlewLimited(bandBps, PolicyMath.BandTarget(scoreBps, cfg.minBandBps, cfg.maxBandBps, carryBps),
                                        r.bandBps, PolicyMath.SlewStep(bandBps, cfg.maxPolicySlewBps))
              && PolicyMath.SlewLimited(intervalSlots, PolicyMath.IntervalTarget(scoreBps, cfg.minIntervalSlots, cfg.maxIntervalSlots, carryBps),
                                        r.minHedgeIntervalSlots, PolicyMath.SlewStep(intervalSlots, cfg.maxPolicySlewBps))
  {
    if PolicyMath.HysteresisPass(scoreBps, lastScoreBps, cfg.hysteresisBps) then
      var targetBand := PolicyMath.BandTarget(scoreBps, cfg.minBandBps, cfg.maxBandBps, carryBps);
      var targetInterval := PolicyMath.IntervalTarget(scoreBps, cfg.minIntervalSlots, cfg.maxIntervalSlots, carryBps);
      Retargeting(PolicyMath.SlewLimitU16(bandBps, targetBand, cfg.maxPolicySlewBps),
                  PolicyMath.SlewLimitU64(intervalSlots, targetInterval, cfg.maxPolicySlewBps), scoreBps, true)
    else
      Retargeting(PolicyMath.SlewLimitU16(bandBps, bandBps, cfg.maxPolicySlewBps),
                  PolicyMath.SlewLimitU64(intervalSlots, intervalSlots, cfg.maxPolicySlewBps), lastScoreBps, false)
  }

  class VaultState {
    /** The configuration set by `initialize_vault` and the authority's setters. */
    var config: InitializeParams

    // epoch and cooldown
    var epoch: U64
    var lastPolicyUpdateSlot: U64

    // exposures
    var stakedSol: U64
    var reserveSol: U64
    var hedgeNotionalUsd: I64

    // oracle-driven return ring
    const returnsRing: array<I32>
    var returnsIdx: U8
    var nonzeroSamples: U16
    var lastReturnSlot: U64

    // realized volatility (EWMA mode), volatility outputs
    var ewmaVarFp2: U128
    var realizedVolBps: U16
    var impliedVolBps: U16
    var volScoreBps: U16
    var lastVolScoreBps: U16

    // policy outputs
    var bandBps: U16
    var minHedgeIntervalSlots: U64

    // last oracle observation (the publish "slot" holds a unix publish time)
    var oraclePriceFp: I64
    var oracleEmaPriceFp: I64
    var oracleConfFp: I64
    var oraclePublishSlot: U64
    var oracleOk: bool
    var lastOraclePriceFp: I64
    var lastOracleEmaPriceFp: I64

    // circuit breaker
    var oracleDegraded: bool

    // carry inputs, bps per day
    var fundingBpsPerDay: I32
    var borrowBpsPerDay: I32
    var stakingBpsPerDay: I32

    /** Never written by the program; the zero-initialised account leaves it 0. */
    var stakingAccruedUsd: I64

    // hedge timing, request and confirmation
    var lastHedgeSlot: U64
    var lastHedgeEmaPriceFp: I64
    var lastHedgeRequestSlot: U64
    var lastHedgeRequestId: U64
    var requestOutstanding: bool
    var lastFillSlot: U64
    var hedgeFillCount: U64
    var avgFillSlippageBps: U16
    var missedConfirms: U32

    var paused: bool

    /** The configuration passes the checks of `initialize_vault`. */
    predicate ConfigValid()
      reads this`config
    {
      ParamsValid(config)
    }

    /** The ring has 32 entries within the return clamp, and the counter counts its non-zero ones. */
    ghost predicate RingValid()
      reads this`nonzeroSamples, returnsRing
    {
      && returnsRing.Length == N_RETURNS
      && nonzeroSamples == ReturnSeries.CountNonzero(returnsRing[..])
      && (forall k :: 0 <= k < returnsRing.Length ==> -MAX_RETURN_ABS_FP <= returnsRing[k] <= MAX_RETURN_ABS_FP)
    }

    /** Volatility figures stay within 100% and the EWMA variance within its cap. */
    predicate VolValid()
      reads this`ewmaVarFp2, this`realizedVolBps, this`impliedVolBps, this`volScoreBps, this`lastVolScoreBps
    {
      && ewmaVarFp2 <= MAX_VAR_FP2
      && realizedVolBps <= MAX_VOL_BPS && impliedVolBps <= MAX_VOL_BPS
      && volScoreBps <= MAX_VOL_BPS && lastVolScoreBps <= MAX_VOL_BPS
    }

    /** The hedge respects the absolute cap and the leverage guardrail. */
    predicate HedgeWithinLimits()
      reads this`config, this`stakedSol, this`hedgeNotionalUsd
    {
      PolicyMath.SetHedgeNotionalChecked(hedgeNotionalUsd, config.maxAbsHedgeNotionalUsd, stakedSol, config.maxHedgePerSolUsdFp) == Pass
    }

    /** Stake is under its cap, the hedge within limits and the reserve ratio met. */
    predicate ExposureValid()
      reads this`config, this`stakedSol, this`reserveSol, this`hedgeNotionalUsd, this`stakingAccruedUsd
    {
      && stakedSol <= config.maxStakedSol
      && HedgeWithinLimits()
      && PolicyMath.ReserveRatio(stakedSol, reserveSol, config.minReserveBps) == Pass
      && stakingAccruedUsd == 0
    }

    /** The account invariant every instruction keeps, together with `ExposureValid`.
        The two are kept apart because only the deposits and `confirm_hedge` write the
        exposure fields; every other instruction's `modifies` clause leaves all that
        `ExposureValid` reads untouched, so it keeps that half by its frame alone. */
    ghost predicate Valid()
      reads this`config, this`nonzeroSamples, returnsRing
      reads this`ewmaVarFp2, this`realizedVolBps, this`impliedVolBps, this`volScoreBps, this`lastVolScoreBps
    {
      ConfigValid() && RingValid() && VolValid()
    }

    /** The account as `initialize_vault` leaves it: the configuration stored, the band and
        interval at their minimum, the ring zeroed, and every other field zero or false —
        in particular the zero sentinels the first cooldown, spacing, re-target, return
        bootstrap and hedge drift rely on. */
    ghost predicate Initial(p: InitializeParams)
      reads this, returnsRing
    {
      && config == p
      // epoch and cooldown
      && epoch == 0 && lastPolicyUpdateSlot == 0
      // exposures
      && stakedSol == 0 && reserveSol == 0 && hedgeNotionalUsd == 0
      // return ring
      && returnsRing[..] == seq(N_RETURNS, _ => 0) && returnsIdx == 0 && nonzeroSamples == 0 && lastReturnSlot == 0
      // volatility
      && ewmaVarFp2 == 0
      && realizedVolBps == 0 && impliedVolBps == 0 && volScoreBps == 0 && lastVolScoreBps == 0
      // policy outputs
      && bandBps == p.minBandBps && minHedgeIntervalSlots == p.minIntervalSlots
      // oracle observation and latches
      && oraclePriceFp == 0 && oracleEmaPriceFp == 0 && oracleConfFp == 0 && oraclePublishSlot == 0 && !oracleOk
      && lastOraclePriceFp == 0 && lastOracleEmaPriceFp == 0
      && !oracleDegraded
      // carry inputs
      && fundingBpsPerDay == 0 && borrowBpsPerDay == 0 && stakingBpsPerDay == 0
      && stakingAccruedUsd == 0
      // hedge timing, request and confirmation
      && lastHedgeSlot == 0 && lastHedgeEmaPriceFp == 0
      && lastHedgeRequestSlot == 0 && lastHedgeRequestId == 0 && !requestOutstanding
      && lastFillSlot == 0 && hedgeFillCount == 0 && avgFillSlippageBps == 0 && missedConfirms == 0
      && !paused
    }

    /** `initialize_vault` once its checks have passed. */
    constructor (p: InitializeParams)
      requires ParamsValid(p)
      ensures fresh(returnsRing)
      ensures Initial(p)
      ensures Valid() && ExposureValid()
    {
      config := p;
      epoch, lastPolicyUpdateSlot := 0, 0;
      stakedSol, reserveSol, hedgeNotionalUsd := 0, 0, 0;
      returnsRing := new I32[N_RETURNS](_ => 0);
      returnsIdx, nonzeroSamples, lastReturnSlot := 0, 0, 0;
      ewmaVarFp2 := 0;
      realizedVolBps, impliedVolBps, volScoreBps, lastVolScoreBps := 0, 0, 0, 0;
      bandBps, minHedgeIntervalSlots := p.minBandBps, p.minIntervalSlots;
      oraclePriceFp, oracleEmaPriceFp, oracleConfFp, oraclePublishSlot, oracleOk := 0, 0, 0, 0, false;
      lastOraclePriceFp, lastOracleEmaPriceFp := 0, 0;
      oracleDegraded := false;
      fundingBpsPerDay, borrowBpsPerDay, stakingBpsPerDay := 0, 0, 0;
      stakingAccruedUsd := 0;
      lastHedgeSlot, lastHedgeEmaPriceFp := 0, 0;
      lastHedgeRequestSlot, lastHedgeRequestId, requestOutstanding := 0, 0, false;
      lastFillSlot, hedgeFillCount, avgFillSlippageBps, missedConfirms := 0, 0, 0, 0;
      paused := false;
      new;
      ReturnSeries.CountNonzeroAllZero(returnsRing[..]);
    }

    /** `initialize_vault`: rejects an invalid configuration, otherwise creates the account. */
    static method InitializeVault(p: InitializeParams) returns (r: Result<VaultState>)
      ensures r.Err? <==> !ParamsValid(p)
      ensures r.Err? ==> r.error == InvalidParams
      ensures r.Ok? ==> fresh(r.value) && r.value.Initial(p)
      ensures r.Ok? ==> r.value.Valid() && r.value.ExposureValid()
    {
      if !ParamsValid(p) {
        return Err(InvalidParams);
      }
      var v := new VaultState(p);
      return Ok(v);
    }

    // -------------------------------------------------------------------
    // Setters
    // -------------------------------------------------------------------

    /** `set_paused` (authority only; the authority check is not modelled). */
    method SetPaused(newPaused: bool)
      requires Valid()
      modifies this`paused
      ensures Valid()
      ensures paused == newPaused
    {
      paused := newPaused;
    }

    /** `deposit_and_stake`: add stake up to the cap, keeping the reserve ratio. */
    method DepositAndStake(amountSol: U64) returns (r: Outcome)
      requires Valid() && ExposureValid()
      modifies this`stakedSol
      ensures Valid() && ExposureValid()
      ensures old(paused) ==> r == Fail(Paused)
      ensures !old(paused) && amountSol == 0 ==> r == Fail(InvalidParams)
      ensures !old(paused) && amountSol > 0 && old(stakedSol) + amountSol > old(config.maxStakedSol) ==>
                r == Fail(if old(stakedSol) + amountSol > U64_MAX then MathOverflow else CapExceeded)
      ensures r == Pass <==>
                !old(paused) && amountSol > 0 && old(stakedSol) + amountSol <= old(config.maxStakedSol)
                && PolicyMath.ReserveRatio(old(stakedSol) + amountSol, reserveSol, config.minReserveBps) == Pass
      ensures r == Pass ==> stakedSol == old(stakedSol) + amountSol
      ensures r != Pass ==> stakedSol == old(stakedSol)
    {
      if paused {
        return Fail(Paused);
      }
      if amountSol == 0 {
        return Fail(InvalidParams);
      }
      if stakedSol + amountSol > U64_MAX {
        return Fail(MathOverflow);
      }
      var newStaked: U64 := stakedSol + amountSol;
      if newStaked > config.maxStakedSol {
        return Fail(CapExceeded);
      }
      var ratio := PolicyMath.ReserveRatio(newStaked, reserveSol, config.minReserveBps);
      if ratio != Pass {
        return ratio;
      }
      PolicyMath.LeverageMonotoneInStake(stakedSol, newStaked, hedgeNotionalUsd, config.maxAbsHedgeNotionalUsd, config.maxHedgePerSolUsdFp);
      stakedSol := newStaked;
      return Pass;
    }

    /** `deposit_reserve`: add to the slashing buffer, then re-check the reserve ratio. */
    method DepositReserve(amountSol: U64) returns (r: Outcome)
      requires Valid() && ExposureValid()
      modifies this`reserveSol
      ensures Valid() && ExposureValid()
      ensures old(paused) ==> r == Fail(Paused)
      ensures !old(paused) && amountSol == 0 ==> r == Fail(InvalidParams)
      ensures !old(paused) && amountSol > 0 && old(reserveSol) + amountSol > U64_MAX ==> r == Fail(MathOverflow)
      ensures r == Pass <==>
                !old(paused) && amountSol > 0 && old(reserveSol) + amountSol <= U64_MAX
                && PolicyMath.ReserveRatio(stakedSol, old(reserveSol) + amountSol, config.minReserveBps) == Pass
      ensures r == Pass ==> reserveSol == old(reserveSol) + amountSol
      ensures r != Pass ==> reserveSol == old(reserveSol)
    {
      if paused {
        return Fail(Paused);
      }
      if amountSol == 0 {
        return Fail(InvalidParams);
      }
      if reserveSol + amountSol > U64_MAX {
        return Fail(MathOverflow);
      }
      var newReserve: U64 := reserveSol + amountSol;
      var ratio := PolicyMath.ReserveRatio(stakedSol, newReserve, config.minReserveBps);
      if ratio != Pass {
        return ratio;
      }
      reserveSol := newReserve;
      return Pass;
    }

    /** `update_implied_vol`: implied volatility must be at most 100%. */
    method UpdateImpliedVol(impliedBps: U16) returns (r: Outcome)
      requires Valid()
      modifies this`impliedVolBps
      ensures Valid()
      ensures old(paused) ==> r == Fail(Paused)
      ensures !old(paused) && impliedBps > MAX_VOL_BPS ==> r == Fail(VolOutOfRange)
      ensures r == Pass <==> !old(paused) && impliedBps <= MAX_VOL_BPS
      ensures impliedVolBps == if r == Pass then impliedBps else old(impliedVolBps)
    {
      if paused {
        return Fail(Paused);
      }
      if impliedBps > MAX_VOL_BPS {
        return Fail(VolOutOfRange);
      }
      impliedVolBps := impliedBps;
      return Pass;
    }

    /** `update_carry_inputs`: funding, borrow and staking carry in bps per day. */
    method UpdateCarryInputs(fundingBps: I32, borrowBps: I32, stakingBps: I32) returns (r: Outcome)
      requires Valid()
      modifies this`fundingBpsPerDay, this`borrowBpsPerDay, this`stakingBpsPerDay
      ensures Valid()
      ensures r == Pass <==> !old(paused)
      ensures r == Pass ==> (fundingBpsPerDay, borrowBpsPerDay, stakingBpsPerDay) == (fundingBps, borrowBps, stakingBps)
      ensures r != Pass ==> r == Fail(Paused) && unchanged(this)
    {
      if paused {
        return Fail(Paused);
      }
      fundingBpsPerDay, borrowBpsPerDay, stakingBpsPerDay := fundingBps, borrowBps, stakingBps;
      return Pass;
    }

    /** `expected_carry_bps` of the current carry inputs. */
    function ExpectedCarry(): I32
      reads this`stakingBpsPerDay, this`fundingBpsPerDay, this`borrowBpsPerDay
    {
      PolicyMath.ExpectedCarryBps(stakingBpsPerDay, fundingBpsPerDay, borrowBpsPerDay)
    }

    // -------------------------------------------------------------------
    // Return ring
    // -------------------------------------------------------------------

    /** Overwrite the oldest ring entry with `ret`, advance the wrapping `u8` cursor and
        keep the non-zero counter in step with the entry's transition. */
    method PushReturn(ret: I32)
      requires RingValid() && -MAX_RETURN_ABS_FP <= ret <= MAX_RETURN_ABS_FP
      modifies returnsRing, this`returnsIdx, this`nonzeroSamples
      ensures RingValid()
      ensures returnsRing[..] == old(returnsRing[..])[old(returnsIdx) % N_RETURNS := ret]
      ensures returnsIdx == (old(returnsIdx) + 1) % (U8_MAX + 1)
    {
      var idx := returnsIdx % N_RETURNS;
      var prev := returnsRing[idx];
      ghost var before := returnsRing[..];
      returnsRing[idx] := ret;
      assert returnsRing[..] == before[idx := ret];
      ReturnSeries.CountNonzeroUpdate(before, idx, ret);
      returnsIdx := (returnsIdx + 1) % (U8_MAX + 1);
      if prev == 0 && ret != 0 {
        nonzeroSamples := nonzeroSamples + 1;
      } else if prev != 0 && ret == 0 {
        nonzeroSamples := nonzeroSamples - 1;
      }
    }

    /** The return series, cursor, last return slot and EWMA variance are as given
        (the slot may have moved on while nothing was recorded). */
    ghost predicate SeriesKept(oldRing: seq<I32>, oldIdx: U8, lastSlot: U64, oldEwma: U128)
      reads returnsRing, this`returnsIdx, this`lastReturnSlot, this`ewmaVarFp2
    {
      returnsRing[..] == oldRing && returnsIdx == oldIdx && lastReturnSlot == lastSlot && ewmaVarFp2 == oldEwma
    }

    /** `ret` was recorded at `slot`: written at the cursor, the cursor advanced, and in
        EWMA mode the variance updated with the clamped square of `ret`. */
    ghost predicate SeriesRecorded(oldRing: seq<I32>, oldIdx: U8, oldEwma: U128, slot: U64, ret: I32)
      requires ConfigValid() && oldEwma <= MAX_VAR_FP2 && |oldRing| == N_RETURNS
      reads returnsRing, this`returnsIdx, this`lastReturnSlot, this`ewmaVarFp2, this`config
    {
      && returnsRing[..] == oldRing[oldIdx % N_RETURNS := ret]
      && returnsIdx == (oldIdx + 1) % (U8_MAX + 1)
      && lastReturnSlot == slot
      && ewmaVarFp2 == (if config.volMode == VOL_MODE_EWMA
                        then PolicyMath.EwmaUpdateU128(oldEwma, ReturnSeries.SquaredReturn(ret), config.ewmaAlphaBps).value
                        else oldEwma)
    }

    /** `try_record_oracle_return`: a spacing-gated write of one clamped return into
        the ring, with the non-zero counter and, in EWMA mode, the variance kept up. */
    method TryRecordOracleReturn(slot: U64, priceFp: I64) returns (r: Outcome)
      requires Valid()
      modifies returnsRing, this`returnsIdx, this`nonzeroSamples, this`ewmaVarFp2,
               this`lastReturnSlot, this`lastOraclePriceFp
      ensures Valid()
      ensures r == Pass
      ensures ReturnSeries.SpacingGated(old(lastReturnSlot), slot, config.minReturnSpacingSlots) ==>
                unchanged(this) && returnsRing[..] == old(returnsRing[..])
      ensures !ReturnSeries.SpacingGated(old(lastReturnSlot), slot, config.minReturnSpacingSlots) ==>
                lastReturnSlot == slot && lastOraclePriceFp == priceFp
      ensures !ReturnSeries.SpacingGated(old(lastReturnSlot), slot, config.minReturnSpacingSlots) && old(lastOraclePriceFp) <= 0 ==>
                SeriesKept(old(returnsRing[..]), old(returnsIdx), slot, old(ewmaVarFp2))
      ensures !ReturnSeries.SpacingGated(old(lastReturnSlot), slot, config.minReturnSpacingSlots) && old(lastOraclePriceFp) > 0 ==>
                SeriesRecorded(old(returnsRing[..]), old(returnsIdx), old(ewmaVarFp2), slot,
                               ReturnSeries.ClampedReturn(priceFp, old(lastOraclePriceFp)))
    {
      if ReturnSeries.SpacingGated(lastReturnSlot, slot, config.minReturnSpacingSlots) {
        return Pass;
      }
      if lastOraclePriceFp <= 0 {
        lastOraclePriceFp := priceFp;
        lastReturnSlot := slot;
        return Pass;
      }
      var ret := ReturnSeries.ClampedReturn(priceFp, lastOraclePriceFp);
      PushReturn(ret);
      if config.volMode == VOL_MODE_EWMA {
        var updated := PolicyMath.EwmaUpdateU128(ewmaVarFp2, ReturnSeries.SquaredReturn(ret), config.ewmaAlphaBps);
        ewmaVarFp2 := updated.value;
      }
      lastReturnSlot := slot;
      lastOraclePriceFp := priceFp;
      return Pass;
    }

    // -------------------------------------------------------------------
    // Oracle update
    // -------------------------------------------------------------------

    /** The oracle fields and the circuit breaker after a successful read of `q`. */
    predicate Observed(q: OracleGate.Reading)
      reads this`oraclePriceFp, this`oracleEmaPriceFp, this`oracleConfFp, this`oraclePublishSlot,
            this`oracleOk, this`oracleDegraded
    {
      && oraclePriceFp == q.spotFp && oracleEmaPriceFp == q.emaFp && oracleConfFp == q.confFp
      && oraclePublishSlot == q.publishTime && oracleOk == q.ok && oracleDegraded == !q.ok
    }

    /** The last good prices after reading `q`: they move to it only when it passed. */
    predicate Latched(q: OracleGate.Reading, oldLastPriceFp: I64, oldLastEmaPriceFp: I64)
      reads this`lastOraclePriceFp, this`lastOracleEmaPriceFp
    {
      if q.ok then lastOraclePriceFp == q.spotFp && lastOracleEmaPriceFp == q.emaFp
      else lastOraclePriceFp == oldLastPriceFp && lastOracleEmaPriceFp == oldLastEmaPriceFp
    }

    /** The oracle fields written from every successful reading. */
    method StoreObservation(q: OracleGate.Reading)
      modifies this`oraclePriceFp, this`oracleEmaPriceFp, this`oracleConfFp, this`oraclePublishSlot, this`oracleOk
      ensures oraclePriceFp == q.spotFp && oracleEmaPriceFp == q.emaFp && oracleConfFp == q.confFp
      ensures oraclePublishSlot == q.publishTime && oracleOk == q.ok
    {
      oraclePriceFp, oracleEmaPriceFp, oracleConfFp, oraclePublishSlot, oracleOk := q.spotFp, q.emaFp, q.confFp, q.publishTime, q.ok;
    }

    /** The circuit breaker: a failed gate marks the oracle degraded; a passing one clears
        the flag and becomes the last good price. */
    method TrackBreaker(q: OracleGate.Reading)
      modifies this`oracleDegraded, this`lastOraclePriceFp, this`lastOracleEmaPriceFp
      ensures oracleDegraded == !q.ok
      ensures q.ok ==> lastOraclePriceFp == q.spotFp && lastOracleEmaPriceFp == q.emaFp
      ensures !q.ok ==> lastOraclePriceFp == old(lastOraclePriceFp) && lastOracleEmaPriceFp == old(lastOracleEmaPriceFp)
    {
      if !q.ok {
        oracleDegraded := true;
      } else {
        oracleDegraded := false;
        lastOraclePriceFp := q.spotFp;
        lastOracleEmaPriceFp := q.emaFp;
      }
    }

    /** What a successful read does to the account, in the program's order: store the
        observation, run the circuit breaker (which latches the last good price), then,
        for a passing reading, record the return. The latch happens first, so the return
        is measured against the price just latched and is always 0: past the spacing
        gate, a passing reading overwrites the oldest sample with 0. */
    method ApplyReading(slot: U64, q: OracleGate.Reading)
      requires Valid()
      requires q.ok ==> q.spotFp > 0
      modifies returnsRing, this`returnsIdx, this`nonzeroSamples, this`ewmaVarFp2, this`lastReturnSlot,
               this`oraclePriceFp, this`oracleEmaPriceFp, this`oracleConfFp, this`oraclePublishSlot, this`oracleOk,
               this`oracleDegraded, this`lastOraclePriceFp, this`lastOracleEmaPriceFp
      ensures Valid()
      ensures Observed(q) && Latched(q, old(lastOraclePriceFp), old(lastOracleEmaPriceFp))
      ensures !q.ok || ReturnSeries.SpacingGated(old(lastReturnSlot), slot, config.minReturnSpacingSlots) ==>
                SeriesKept(old(returnsRing[..]), old(returnsIdx), old(lastReturnSlot), old(ewmaVarFp2))
                && nonzeroSamples == old(nonzeroSamples)
      ensures q.ok && !ReturnSeries.SpacingGated(old(lastReturnSlot), slot, config.minReturnSpacingSlots) ==>
                SeriesRecorded(old(returnsRing[..]), old(returnsIdx), old(ewmaVarFp2), slot, 0)
      ensures forall k :: 0 <= k < N_RETURNS ==> returnsRing[k] == old(returnsRing[k]) || returnsRing[k] == 0
      ensures nonzeroSamples <= old(nonzeroSamples)
    {
      StoreObservation(q);
      TrackBreaker(q);
      if q.ok {
        ghost var before := returnsRing[..];
        var _ := TryRecordOracleReturn(slot, q.spotFp);
        assert ReturnSeries.ClampedReturn(q.spotFp, q.spotFp) == 0;
        if returnsRing[..] != before {
          ReturnSeries.CountNonzeroUpdate(before, old(returnsIdx) % N_RETURNS, 0);
        }
      }
    }

    /** The same with the return recorded before the latch, as evidently intended: a
        passing reading records its return against the previous good price. */
    method ApplyReadingReturnFirst(slot: U64, q: OracleGate.Reading)
      requires Valid()
      modifies returnsRing, this`returnsIdx, this`nonzeroSamples, this`ewmaVarFp2, this`lastReturnSlot,
               this`oraclePriceFp, this`oracleEmaPriceFp, this`oracleConfFp, this`oraclePublishSlot, this`oracleOk,
               this`oracleDegraded, this`lastOraclePriceFp, this`lastOracleEmaPriceFp
      ensures Valid()
      ensures Observed(q) && Latched(q, old(lastOraclePriceFp), old(lastOracleEmaPriceFp))
      ensures !q.ok || ReturnSeries.SpacingGated(old(lastReturnSlot), slot, config.minReturnSpacingSlots) ==>
                SeriesKept(old(returnsRing[..]), old(returnsIdx), old(lastReturnSlot), old(ewmaVarFp2))
                && nonzeroSamples == old(nonzeroSamples)
      ensures q.ok && !ReturnSeries.SpacingGated(old(lastReturnSlot), slot, config.minReturnSpacingSlots)
              && old(lastOraclePriceFp) <= 0 ==>
                SeriesKept(old(returnsRing[..]), old(returnsIdx), slot, old(ewmaVarFp2))
                && nonzeroSamples == old(nonzeroSamples)
      ensures q.ok && !ReturnSeries.SpacingGated(old(lastReturnSlot), slot, config.minReturnSpacingSlots)
              && old(lastOraclePriceFp) > 0 ==>
                SeriesRecorded(old(returnsRing[..]), old(returnsIdx), old(ewmaVarFp2), slot,
                               ReturnSeries.ClampedReturn(q.spotFp, old(lastOraclePriceFp)))
    {
      StoreObservation(q);
      if q.ok {
        var _ := TryRecordOracleReturn(slot, q.spotFp);
      }
      TrackBreaker(q);
    }

    /** `update_oracle_price` as the program writes it: read the configured feed (with
        fallback), then apply the reading in the program's order. */
    method UpdateOraclePrice(slot: U64, nowUnixTs: I64, solUsd: OracleGate.PriceAccount, solUsdc: OracleGate.PriceAccount)
      returns (r: Result<OracleGate.FeedReading>)
      requires Valid()
      modifies returnsRing, this`returnsIdx, this`nonzeroSamples, this`ewmaVarFp2, this`lastReturnSlot,
               this`oraclePriceFp, this`oracleEmaPriceFp, this`oracleConfFp, this`oraclePublishSlot, this`oracleOk,
               this`oracleDegraded, this`lastOraclePriceFp, this`lastOracleEmaPriceFp
      ensures Valid()
      ensures old(paused) ==> r == Err(Paused)
      ensures !old(paused) ==> r == OracleGate.ReadPythBestEffort(config.oracleFeedChoice, solUsd, solUsdc, nowUnixTs,
                                    config.maxPriceAgeSlots, config.maxConfidenceBps, config.maxPriceJumpBps, old(lastOraclePriceFp))
      ensures r.Err? ==> unchanged(this) && returnsRing[..] == old(returnsRing[..])
      ensures r.Ok? ==> Observed(r.value.reading) && Latched(r.value.reading, old(lastOraclePriceFp), old(lastOracleEmaPriceFp))
      ensures r.Ok? && (!r.value.reading.ok || ReturnSeries.SpacingGated(old(lastReturnSlot), slot, config.minReturnSpacingSlots)) ==>
                SeriesKept(old(returnsRing[..]), old(returnsIdx), old(lastReturnSlot), old(ewmaVarFp2))
                && nonzeroSamples == old(nonzeroSamples)
      ensures r.Ok? && r.value.reading.ok && !ReturnSeries.SpacingGated(old(lastReturnSlot), slot, config.minReturnSpacingSlots) ==>
                SeriesRecorded(old(returnsRing[..]), old(returnsIdx), old(ewmaVarFp2), slot, 0)
      ensures forall k :: 0 <= k < N_RETURNS ==> returnsRing[k] == old(returnsRing[k]) || returnsRing[k] == 0
      ensures nonzeroSamples <= old(nonzeroSamples)
    {
      if paused {
        return Err(Paused);
      }
      r := OracleGate.ReadPythBestEffort(config.oracleFeedChoice, solUsd, solUsdc, nowUnixTs,
                                         config.maxPriceAgeSlots, config.maxConfidenceBps, config.maxPriceJumpBps, lastOraclePriceFp);
      if r.Ok? {
        ApplyReading(slot, r.value.reading);
      }
    }

    /** `update_oracle_price` with the return recorded before the latch. */
    method UpdateOraclePriceReturnFirst(slot: U64, nowUnixTs: I64, solUsd: OracleGate.PriceAccount, solUsdc: OracleGate.PriceAccount)
      returns (r: Result<OracleGate.FeedReading>)
      requires Valid()
      modifies returnsRing, this`returnsIdx, this`nonzeroSamples, this`ewmaVarFp2, this`lastReturnSlot,
               this`oraclePriceFp, this`oracleEmaPriceFp, this`oracleConfFp, this`oraclePublishSlot, this`oracleOk,
               this`oracleDegraded, this`lastOraclePriceFp, this`lastOracleEmaPriceFp
      ensures Valid()
      ensures old(paused) ==> r == Err(Paused)
      ensures !old(paused) ==> r == OracleGate.ReadPythBestEffort(config.oracleFeedChoice, solUsd, solUsdc, nowUnixTs,
                                    config.maxPriceAgeSlots, config.maxConfidenceBps, config.maxPriceJumpBps, old(lastOraclePriceFp))
      ensures r.Err? ==> unchanged(this) && returnsRing[..] == old(returnsRing[..])
      ensures r.Ok? ==> Observed(r.value.reading) && Latched(r.value.reading, old(lastOraclePriceFp), old(lastOracleEmaPriceFp))
      ensures r.Ok? && (!r.value.reading.ok || ReturnSeries.SpacingGated(old(lastReturnSlot), slot, config.minReturnSpacingSlots)) ==>
                SeriesKept(old(returnsRing[..]), old(returnsIdx), old(lastReturnSlot), old(ewmaVarFp2))
                && nonzeroSamples == old(nonzeroSamples)
      ensures r.Ok? && r.value.reading.ok && !ReturnSeries.SpacingGated(old(lastReturnSlot), slot, config.minReturnSpacingSlots)
              && old(lastOraclePriceFp) <= 0 ==>
                SeriesKept(old(returnsRing[..]), old(returnsIdx), slot, old(ewmaVarFp2))
                && nonzeroSamples == old(nonzeroSamples)
      ensures r.Ok? && r.value.reading.ok && !ReturnSeries.SpacingGated(old(lastReturnSlot), slot, config.minReturnSpacingSlots)
              && old(lastOraclePriceFp) > 0 ==>
                SeriesRecorded(old(returnsRing[..]), old(returnsIdx), old(ewmaVarFp2), slot,
                               ReturnSeries.ClampedReturn(r.value.reading.spotFp, old(lastOraclePriceFp)))
    {
      if paused {
        return Err(Paused);
      }
      r := OracleGate.ReadPythBestEffort(config.oracleFeedChoice, solUsd, solUsdc, nowUnixTs,
                                         config.maxPriceAgeSlots, config.maxConfidenceBps, config.maxPriceJumpBps, lastOraclePriceFp);
      if r.Ok? {
        ApplyReadingReturnFirst(slot, r.value.reading);
      }
    }

    // -------------------------------------------------------------------
    // Policy engine
    // -------------------------------------------------------------------

    /** What one policy step leaves, given the values it started from: the realized
        volatility recomputed when the ring holds enough non-zero samples, the blended
        score, and the band and interval re-targeted as `Retarget` says. */
    ghost predicate PolicyRefreshed(oldRealized: U16, oldLastScore: U16, oldBand: U16, oldInterval: U64,
                                    realizedUpdated: bool, retargeted: bool)
      requires ConfigValid() && returnsRing.Length == N_RETURNS
      reads this`config, this`nonzeroSamples, returnsRing, this`ewmaVarFp2, this`impliedVolBps
      reads this`realizedVolBps, this`volScoreBps, this`lastVolScoreBps, this`bandBps, this`minHedgeIntervalSlots
      reads this`stakingBpsPerDay, this`fundingBpsPerDay, this`borrowBpsPerDay
    {
      && realizedUpdated == (nonzeroSamples >= config.minSamples)
      && realizedVolBps == (if realizedUpdated
                            then Estimators.RealizedVolBpsOf(config.volMode, returnsRing[..], ewmaVarFp2)
                            else oldRealized)
      && volScoreBps == PolicyMath.WeightedVolScoreBps(realizedVolBps, impliedVolBps,
                                                       config.volWeightRealizedBps, config.volWeightImpliedBps)
      && Retarget(config, volScoreBps, oldLastScore, oldBand, oldInterval, ExpectedCarry())
         == Retargeting(bandBps, minHedgeIntervalSlots, lastVolScoreBps, retargeted)
    }

    /** The policy step of `update_epoch_and_policy` when the oracle is not degraded. */
    method RefreshPolicy() returns (realizedUpdated: bool, retargeted: bool)
      requires Valid()
      modifies this`realizedVolBps, this`volScoreBps, this`lastVolScoreBps, this`bandBps, this`minHedgeIntervalSlots
      ensures Valid()
      ensures PolicyRefreshed(old(realizedVolBps), old(lastVolScoreBps), old(bandBps), old(minHedgeIntervalSlots),
                              realizedUpdated, retargeted)
    {
      realizedUpdated := false;
      if nonzeroSamples >= config.minSamples {
        var realized := Estimators.ComputeRealizedVolBpsMode(config.volMode, returnsRing, ewmaVarFp2);
        realizedVolBps := realized.value;
        realizedUpdated := true;
      }
      volScoreBps := PolicyMath.WeightedVolScoreBps(realizedVolBps, impliedVolBps, config.volWeightRealizedBps, config.volWeightImpliedBps);
      var step := Retarget(config, volScoreBps, lastVolScoreBps, bandBps, minHedgeIntervalSlots, ExpectedCarry());
      bandBps, minHedgeIntervalSlots, lastVolScoreBps := step.bandBps, step.minHedgeIntervalSlots, step.lastVolScoreBps;
      retargeted := step.retargeted;
    }

    /** The policy-update cooldown is running: skipped before the first update, and a
        slot that went backwards counts as no time. */
    predicate CoolingDown(slot: U64)
      reads this`config, this`lastPolicyUpdateSlot
    {
      lastPolicyUpdateSlot != 0 && SubOr(slot, lastPolicyUpdateSlot, 0) < config.policyUpdateMinSlots
    }

    /** The checks of `update_epoch_and_policy` that can fail, and the NAV snapshot it
        reports: the cooldown since the last update, the epoch counter's headroom, and
        the NAV. The policy step in between cannot fail, so checking the NAV first
        decides the same outcome as the program's check at the end. */
    function EpochGate(slot: U64): (r: Result<I64>)
      reads this`config, this`lastPolicyUpdateSlot, this`epoch, this`stakedSol, this`reserveSol,
            this`oraclePriceFp, this`stakingAccruedUsd
      ensures CoolingDown(slot) ==> r == Err(PolicyCooldown)
      ensures !CoolingDown(slot) && epoch == U64_MAX ==> r == Err(MathOverflow)
      ensures !CoolingDown(slot) && epoch < U64_MAX ==>
                r == PolicyMath.ComputeNavUsd(stakedSol, reserveSol, oraclePriceFp, stakingAccruedUsd)
      ensures r.Err? ==> r.error in {PolicyCooldown, MathOverflow, OracleNotReady}
    {
      if CoolingDown(slot) then Err(PolicyCooldown)
      else if epoch + 1 > U64_MAX then Err(MathOverflow)
      else PolicyMath.ComputeNavUsd(stakedSol, reserveSol, oraclePriceFp, stakingAccruedUsd)
    }

    /** `update_epoch_and_policy`: cooldown, epoch bump, then (unless the oracle is
        degraded, which freezes the policy) the policy step; finally the NAV snapshot,
        whose failure undoes everything. */
    method UpdateEpochAndPolicy(slot: U64) returns (r: Result<EpochReport>)
      requires Valid()
      modifies this`lastPolicyUpdateSlot, this`epoch, this`realizedVolBps, this`volScoreBps,
               this`lastVolScoreBps, this`bandBps, this`minHedgeIntervalSlots
      ensures Valid()
      ensures old(paused) ==> r == Err(Paused)
      ensures !old(paused) && old(EpochGate(slot)).Err? ==> r == Err(old(EpochGate(slot)).error)
      ensures !old(paused) && old(EpochGate(slot)).Ok? ==> r.Ok?
      ensures r.Err? ==> unchanged(this)
      ensures r.Ok? ==>
                && epoch == old(epoch) + 1 && lastPolicyUpdateSlot == slot
                && old(EpochGate(slot)) == Ok(r.value.navUsd)
      ensures r.Ok? && oracleDegraded ==>
                && bandBps == old(bandBps) && minHedgeIntervalSlots == old(minHedgeIntervalSlots)
                && realizedVolBps == old(realizedVolBps) && volScoreBps == old(volScoreBps)
                && lastVolScoreBps == old(lastVolScoreBps) && !r.value.realizedUpdated && !r.value.retargeted
      ensures r.Ok? && !oracleDegraded ==>
                PolicyRefreshed(old(realizedVolBps), old(lastVolScoreBps), old(bandBps), old(minHedgeIntervalSlots),
                                r.value.realizedUpdated, r.value.retargeted)
    {
      if paused {
        return Err(Paused);
      }
      var nav := EpochGate(slot);
      if nav.Err? {
        return Err(nav.error);
      }
      lastPolicyUpdateSlot, epoch := slot, epoch + 1;
      var realizedUpdated, retargeted := false, false;
      if !oracleDegraded {
        realizedUpdated, retargeted := RefreshPolicy();
      }
      return Ok(EpochReport(nav.value, realizedUpdated, retargeted));
    }

    /** `set_policy_bounds` (authority only): new bounds, and the band and interval
        slew-limited toward the current score's mapping onto them. */
    method SetPolicyBounds(newMinBand: U16, newMaxBand: U16, newMinInterval: U64, newMaxInterval: U64) returns (r: Outcome)
      requires Valid() && ExposureValid()
      modifies this`config, this`bandBps, this`minHedgeIntervalSlots
      ensures Valid() && ExposureValid()
      ensures r == Pass <==> newMinBand <= newMaxBand <= MAX_VOL_BPS && newMinInterval <= newMaxInterval
      ensures r != Pass ==> r == Fail(InvalidParams) && unchanged(this)
      ensures r == Pass ==>
                && config == old(config).(minBandBps := newMinBand, maxBandBps := newMaxBand,
                                          minIntervalSlots := newMinInterval, maxIntervalSlots := newMaxInterval)
                && bandBps == PolicyMath.SlewLimitU16(old(bandBps),
                     PolicyMath.MapU16ByBps(volScoreBps, newMinBand, newMaxBand).value, config.maxPolicySlewBps)
                && minHedgeIntervalSlots == PolicyMath.SlewLimitU64(old(minHedgeIntervalSlots),
                     PolicyMath.MapU64ByBps(volScoreBps, newMinInterval, newMaxInterval).value, config.maxPolicySlewBps)
    {
      if !(newMinBand <= newMaxBand) || newMaxBand > MAX_VOL_BPS || !(newMinInterval <= newMaxInterval) {
        return Fail(InvalidParams);
      }
      var targetBand := PolicyMath.MapU16ByBps(volScoreBps, newMinBand, newMaxBand).value;
      var targetInterval := PolicyMath.MapU64ByBps(volScoreBps, newMinInterval, newMaxInterval).value;
      config := config.(minBandBps := newMinBand, maxBandBps := newMaxBand,
                        minIntervalSlots := newMinInterval, maxIntervalSlots := newMaxInterval);
      bandBps := PolicyMath.SlewLimitU16(bandBps, targetBand, config.maxPolicySlewBps);
      minHedgeIntervalSlots := PolicyMath.SlewLimitU64(minHedgeIntervalSlots, targetInterval, config.maxPolicySlewBps);
      return Pass;
    }

    // -------------------------------------------------------------------
    // Hedge controller
    // -------------------------------------------------------------------

    /** The price used for sizing and as the fill reference: spot when the oracle is ok, else EMA. */
    function ReferencePrice(): I64
      reads this`oracleOk, this`oraclePriceFp, this`oracleEmaPriceFp
    {
      if oracleOk && oraclePriceFp > 0 then oraclePriceFp else oracleEmaPriceFp
    }

    /** The hedge interval has elapsed since the last hedge (a slot that went
        backwards counts as elapsed). */
    predicate HedgeIntervalElapsed(slot: U64)
      reads this`lastHedgeSlot, this`minHedgeIntervalSlots
    {
      SubOr(slot, lastHedgeSlot, U64_MAX) >= minHedgeIntervalSlots
    }

    /** The EMA price's drift from the anchor set at the last hedge, in bps. */
    function DriftSinceHedge(): int
      reads this`oracleEmaPriceFp, this`lastHedgeEmaPriceFp
    {
      PolicyMath.PriceDriftBps(oracleEmaPriceFp, lastHedgeEmaPriceFp)
    }

    /** The checks and the sizing of `request_hedge` on the current state: a ready EMA,
        the hedge interval elapsed (a slot that went backwards counts as elapsed), and an
        EMA drift since the last hedge of at least the band, or at least the extreme
        drift while the oracle is degraded. */
    function HedgeDecision(slot: U64): (r: Result<HedgeIntent>)
      reads this`config, this`oracleEmaPriceFp, this`lastHedgeSlot, this`minHedgeIntervalSlots, this`bandBps
      reads this`lastHedgeEmaPriceFp, this`oracleDegraded, this`stakedSol, this`hedgeNotionalUsd
      reads this`oracleOk, this`oraclePriceFp, this`lastHedgeRequestId
      ensures oracleEmaPriceFp <= 0 ==> r == Err(OracleNotReady)
      ensures oracleEmaPriceFp > 0 && !HedgeIntervalElapsed(slot) ==> r == Err(HedgeTooSoon)
      ensures (oracleEmaPriceFp > 0 && HedgeIntervalElapsed(slot) && oracleDegraded
               && DriftSinceHedge() < config.extremeDriftBps) ==> r == Err(OracleDegradedHedgeBlocked)
      ensures (oracleEmaPriceFp > 0 && HedgeIntervalElapsed(slot) && !oracleDegraded
               && DriftSinceHedge() < bandBps) ==> r == Err(DriftNotMet)
      ensures r.Ok? ==>
                && oracleEmaPriceFp > 0 && HedgeIntervalElapsed(slot)
                && (if oracleDegraded then DriftSinceHedge() >= config.extremeDriftBps else DriftSinceHedge() >= bandBps)
                && r.value.driftBps == DriftSinceHedge()
                && r.value.reasonCode == PolicyMath.ReasonCode(true, DriftSinceHedge() >= bandBps)
      ensures r.Ok? ==>
                && r.value.requestId == SatAddU64(lastHedgeRequestId, 1)
                && PolicyMath.TargetHedgeNotionalUsdDelta(stakedSol, ReferencePrice(), config.targetDeltaBps, config.lstBetaFp)
                   == Ok(r.value.targetHedgeNotionalUsd)
                && r.value.targetHedgeNotionalUsd <= 0
                && (stakedSol == 0 ==> r.value.targetHedgeNotionalUsd == 0)
                && r.value.deltaGapUsd == r.value.targetHedgeNotionalUsd - hedgeNotionalUsd
      ensures r.Err? ==> r.error in {OracleNotReady, HedgeTooSoon, OracleDegradedHedgeBlocked, DriftNotMet, MathOverflow}
    {
      var intervalOk := HedgeIntervalElapsed(slot);
      if oracleEmaPriceFp <= 0 then Err(OracleNotReady)
      else
        var drift := DriftSinceHedge();
        var driftOk := drift >= bandBps;
        if !intervalOk then Err(HedgeTooSoon)
        else if oracleDegraded && drift < config.extremeDriftBps then Err(OracleDegradedHedgeBlocked)
        else if !oracleDegraded && !driftOk then Err(DriftNotMet)
        else
          var target :- PolicyMath.TargetHedgeNotionalUsdDelta(stakedSol, ReferencePrice(), config.targetDeltaBps, config.lstBetaFp);
          if !(I64_MIN <= target - hedgeNotionalUsd <= I64_MAX) then Err(MathOverflow)
          else Ok(HedgeIntent(SatAddU64(lastHedgeRequestId, 1), target, target - hedgeNotionalUsd,
                              PolicyMath.ReasonCode(intervalOk, driftOk), drift))
    }

    /** The missed-confirmation counter once a request is made at `slot`: one more
        (saturating) when a request is still outstanding past the confirm delay. */
    function MissedConfirmsAfter(slot: U64): (r: U32)
      reads this`config, this`requestOutstanding, this`lastHedgeRequestSlot, this`missedConfirms
      ensures r == missedConfirms || (r == missedConfirms + 1 && missedConfirms < U32_MAX)
      ensures r != missedConfirms <==>
                && requestOutstanding && missedConfirms < U32_MAX
                && SubOr(slot, lastHedgeRequestSlot, U64_MAX) > config.maxConfirmDelaySlots
    {
      if requestOutstanding && SubOr(slot, lastHedgeRequestSlot, U64_MAX) > config.maxConfirmDelaySlots
      then SatAddU32(missedConfirms, 1)
      else missedConfirms
    }

    /** `request_hedge`: permissionless. On success it counts a missed confirmation when
        the previous request is overdue, re-anchors the drift to the current EMA and opens
        a new request. */
    method RequestHedge(slot: U64) returns (r: Result<HedgeIntent>)
      requires Valid()
      modifies this`lastHedgeSlot, this`lastHedgeEmaPriceFp, this`lastHedgeRequestId,
               this`lastHedgeRequestSlot, this`requestOutstanding, this`missedConfirms
      ensures Valid()
      ensures old(paused) ==> r == Err(Paused)
      ensures !old(paused) ==> r == old(HedgeDecision(slot))
      ensures r.Err? ==> unchanged(this)
      ensures r.Ok? ==>
                && requestOutstanding
                && lastHedgeRequestId == r.value.requestId
                && lastHedgeRequestSlot == slot && lastHedgeSlot == slot
                && lastHedgeEmaPriceFp == oracleEmaPriceFp
                && missedConfirms == old(MissedConfirmsAfter(slot))
    {
      if paused {
        return Err(Paused);
      }
      r := HedgeDecision(slot);
      if r.Err? {
        return;
      }
      missedConfirms := MissedConfirmsAfter(slot);
      lastHedgeSlot, lastHedgeEmaPriceFp := slot, oracleEmaPriceFp;
      lastHedgeRequestId := r.value.requestId;
      lastHedgeRequestSlot := slot;
      requestOutstanding := true;
    }

    /** `set_hedge_notional_checked` on the current stake and limits, before it commits. */
    function NotionalCheck(newHedgeNotionalUsd: I64): Outcome
      reads this`config, this`stakedSol
    {
      PolicyMath.SetHedgeNotionalChecked(newHedgeNotionalUsd, config.maxAbsHedgeNotionalUsd,
                                         stakedSol, config.maxHedgePerSolUsdFp)
    }

    /** The checks and the fill accounting of `confirm_hedge` on the current state: a sane
        fill price, the outstanding request's id, a new notional within the cap and the
        leverage guardrail, and a usable reference price; the slippage feeds a 20% EWMA. */
    function FillDecision(requestId: U64, newHedgeNotionalUsd: I64, fillPriceFp: I64): (r: Result<FillRecord>)
      reads this`config, this`requestOutstanding, this`lastHedgeRequestId, this`stakedSol, this`avgFillSlippageBps
      reads this`oracleOk, this`oraclePriceFp, this`oracleEmaPriceFp
      ensures !(0 < fillPriceFp <= MAX_PRICE_FP) ==> r == Err(InvalidParams)
      ensures 0 < fillPriceFp <= MAX_PRICE_FP && !requestOutstanding ==> r == Err(NoOutstandingRequest)
      ensures 0 < fillPriceFp <= MAX_PRICE_FP && requestOutstanding && requestId != lastHedgeRequestId ==>
                r == Err(WrongRequestId)
      ensures (0 < fillPriceFp <= MAX_PRICE_FP && requestOutstanding && requestId == lastHedgeRequestId
               && NotionalCheck(newHedgeNotionalUsd).Fail?) ==> r == Err(NotionalCheck(newHedgeNotionalUsd).error)
      ensures r.Ok? ==> NotionalCheck(newHedgeNotionalUsd) == Pass
      ensures r.Ok? ==>
                && requestOutstanding && requestId == lastHedgeRequestId
                && r.value.refPriceFp == ReferencePrice() && r.value.refPriceFp > 0
                && PolicyMath.SlippageBps(fillPriceFp, r.value.refPriceFp) == Ok(r.value.slippageBps)
                && PolicyMath.EwmaU16(avgFillSlippageBps, r.value.slippageBps, 2000) == Ok(r.value.avgFillSlippageBps)
                && r.value.avgFillSlippageBps <= Max(avgFillSlippageBps, r.value.slippageBps)
    {
      if !(0 < fillPriceFp <= MAX_PRICE_FP) then Err(InvalidParams)
      else if !requestOutstanding then Err(NoOutstandingRequest)
      else if requestId != lastHedgeRequestId then Err(WrongRequestId)
      else
        var check := NotionalCheck(newHedgeNotionalUsd);
        var refPriceFp := ReferencePrice();
        if check != Pass then Err(check.error)
        else if refPriceFp <= 0 then Err(OracleNotReady)
        else
          var slip :- PolicyMath.SlippageBps(fillPriceFp, refPriceFp);
          var avg :- PolicyMath.EwmaU16(avgFillSlippageBps, slip, 2000);
          Ok(FillRecord(refPriceFp, slip, avg))
    }

    /** `confirm_hedge`: a keeper reports the fill of the outstanding request, which sets
        the hedge notional and closes the request. */
    method ConfirmHedge(slot: U64, requestId: U64, newHedgeNotionalUsd: I64, fillPriceFp: I64) returns (r: Result<FillRecord>)
      requires Valid() && ExposureValid()
      modifies this`hedgeNotionalUsd, this`avgFillSlippageBps, this`lastFillSlot, this`hedgeFillCount,
               this`requestOutstanding
      ensures Valid() && ExposureValid()
      ensures old(paused) ==> r == Err(Paused)
      ensures !old(paused) ==> r == old(FillDecision(requestId, newHedgeNotionalUsd, fillPriceFp))
      ensures r.Err? ==> unchanged(this)
      ensures r.Ok? ==>
                && !requestOutstanding
                && hedgeNotionalUsd == newHedgeNotionalUsd
                && avgFillSlippageBps == r.value.avgFillSlippageBps
                && hedgeFillCount == SatAddU64(old(hedgeFillCount), 1)
                && lastFillSlot == slot
    {
      if paused {
        return Err(Paused);
      }
      r := FillDecision(requestId, newHedgeNotionalUsd, fillPriceFp);
      if r.Err? {
        return;
      }
      hedgeNotionalUsd := newHedgeNotionalUsd;
      avgFillSlippageBps := r.value.avgFillSlippageBps;
      lastFillSlot := slot;
      hedgeFillCount := SatAddU64(hedgeFillCount, 1);
      requestOutstanding := false;
    }
  }
}
