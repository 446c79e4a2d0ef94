# Volatility-weighted staking vault: a verified model

This project models the risk-policy engine of the `vol_weighted_staking` Solana
program. The program keeps one vault account. Keepers feed it an oracle price
(spot and EMA, from Pyth), implied volatility and carry inputs. Once per epoch it
computes the realized volatility of the oracle-driven return series, blends it
with implied volatility into a score, and maps the score to a drift band and a
minimum hedge interval. Hysteresis, a carry bias and a slew limit apply to that
mapping. A permissionless `request_hedge` emits a delta-hedge intent when the EMA
price has drifted far enough since the last hedge. `confirm_hedge` closes the
request, checks the new notional against a cap and a leverage guardrail, and
tracks fill slippage.

Modules, one per part of the program:

- `Numeric`: integer widths as subset types (`U8` … `U128`, `I16` … `I64`),
  the program's constants and error codes, and `Result`/`Outcome`. It also has
  Rust's truncating signed division (`TruncDiv`) and the saturating additions.
- `PolicyMath`: the expression-only helpers. These are the score, the linear
  maps, the carry bias, the slew limiters, price drift and slippage, the two
  EWMAs, the reason code, hedge sizing, the guardrails and the NAV.
- `OracleGate`: Pyth fixed-point scaling (`pow10_i128` as a loop method), the
  gate of `read_pyth_checked` on an already-decoded quote, and the feed choice
  of `read_pyth_best_effort`.
- `ReturnSeries`: the count of non-zero ring entries, the clamped per-update
  return and its square.
- `Estimators`: the integer square root (a Newton loop) and the in-place
  insertion-sort median, as methods on arrays. Also the stdev and MAD loops
  and the mode switch. Each method is proved against a specification
  function: `FloorSqrt`, `SortSeq`/`MedianOf`, `StdevVolBpsOf`, `MadVolBpsOf`
  and `RealizedVolBpsOf`.
- `Vault`: the `VaultState` class with the account's fields and one method per
  instruction.

How the model works:

- Every instruction is all-or-nothing. When a method returns an error, the
  account is `unchanged`, because the runtime discards the writes of a failed
  transaction. This covers the writes the program makes before a later check
  fails: `last_policy_update_slot` before the NAV step, and
  `set_hedge_notional_checked` writing before it checks.
- The configuration that `initialize_vault` accepts is kept as one `config`
  field of type `InitializeParams`.
- The slot and the unix time are method parameters.
- The Pyth accounts arrive already decoded.
- `request_hedge` and `confirm_hedge` are each split in two:
  - a pure decision function on the current state (`HedgeDecision`,
    `FillDecision`), which states the checks in order and what is computed;
  - a method that commits that decision.

  `update_epoch_and_policy` is split the same way: `EpochGate` decides, and
  `RefreshPolicy` is the policy step.
- Two invariants are kept. `Valid` covers three things:
  - the configuration passes the `initialize_vault` checks;
  - the ring counter equals the number of non-zero ring entries, and every
    entry is within the clamp;
  - volatility figures are within 100%.

  `ExposureValid` covers stake under the cap, the hedge within the cap and
  the leverage guardrail, and the reserve ratio.

The model follows the code where the code and its documentation differ:

- The EWMA alpha is range-checked only in EWMA mode.
- `extreme_drift_bps` is not checked at all.
- `max_price_age_slots` is compared against unix seconds.

## Model

| member | source | states |
|---|---|---|
| Numeric.TruncDiv | vol_weighted_staking/src/lib.rs:2570 | Rust's signed `/`: the quotient takes the sign of the dividend and its magnitude is the floor of the magnitudes' quotient |
| Numeric.SatI32 | vol_weighted_staking/src/lib.rs:1704-1708 | saturation to `i32`: identity in range, the nearer bound outside |
| PolicyMath.WeightedVolScoreBps | vol_weighted_staking/src/lib.rs:2535-2544 | the score never exceeds 10000; with weights summing to 10000 it lies between the realized and the implied volatility |
| PolicyMath.ConvexCombinationBounds | vol_weighted_staking/src/lib.rs:2535-2544 | a bps-weighted average of two values, floored, lies between them |
| PolicyMath.LinearMap | vol_weighted_staking/src/lib.rs:2630-2652 | the score maps into [min, max], to min at score 0 and to max at 10000 |
| PolicyMath.LinearMapMonotone | vol_weighted_staking/src/lib.rs:2630-2652 | a higher score never maps to a smaller value |
| PolicyMath.MapU16ByBps | vol_weighted_staking/src/lib.rs:2630-2640 | `InvalidParams` exactly when min > max; otherwise within [min, max] for score ≤ 10000, min at 0 and max at 10000 |
| PolicyMath.MapU64ByBps | vol_weighted_staking/src/lib.rs:2642-2652 | the same for `u64` bounds |
| PolicyMath.ExpectedCarryBps | vol_weighted_staking/src/lib.rs:1704-1708 | staking + funding − borrow whenever the saturating steps stay in `i32` range |
| PolicyMath.CarryPolicyBiasBps | vol_weighted_staking/src/lib.rs:2749-2757 | both biases are equal; positive exactly when carry ≥ 50 bps, negative exactly when carry ≤ −50, and of magnitude 0 or 200 |
| PolicyMath.BiasAdjustment | vol_weighted_staking/src/lib.rs:2759-2777 | the adjustment has the bias's sign and is the truncated v·bias/10000 |
| PolicyMath.ApplyBpsBiasU16 | vol_weighted_staking/src/lib.rs:2759-2767 | zero bias is the identity; a positive bias never lowers and a negative one never raises the value; the change is the truncated v·bias/10000 unless clamped to 0 or `u16::MAX` |
| PolicyMath.ApplyBpsBiasU64WrapsNearMax | vol_weighted_staking/src/lib.rs:2769-2777 | as written, +2% on `u64::MAX` wraps to 368934881474191031 |
| PolicyMath.ApplyBpsBiasU64 | vol_weighted_staking/src/lib.rs:2769-2777 | the `u16` promises for `u64`, saturating at `u64::MAX` |
| PolicyMath.ApplyBpsBiasU64AgreesInRange | vol_weighted_staking/src/lib.rs:2769-2777 | the corrected and the as-written versions agree whenever no wrap occurs |
| PolicyMath.SlewLimitU16 | vol_weighted_staking/src/lib.rs:2654-2675 | the result lies between current and target; target when current is 0; at most max(1, current·slew/10000) from current; the target exactly when within that step, otherwise exactly one step toward it |
| PolicyMath.SlewLimitU64WrapsNearMax | vol_weighted_staking/src/lib.rs:2677-2695 | as written, an upward step from `u64::MAX − 10` wraps and lands at `u64::MAX − 21`, below current |
| PolicyMath.SlewLimitU64 | vol_weighted_staking/src/lib.rs:2677-2695 | the same slew promise for `u64` |
| PolicyMath.SlewLimitU64AgreesInRange | vol_weighted_staking/src/lib.rs:2677-2695 | the corrected and the as-written versions agree whenever current + step does not overflow |
| PolicyMath.BandTarget | vol_weighted_staking/src/lib.rs:560-566 | with no carry bias the target band lies in [min, max]; with a bias it stays within ±2% of those bounds |
| PolicyMath.IntervalTarget | vol_weighted_staking/src/lib.rs:561-567 | the same for the hedge-interval target, built with the saturating `u64` bias (see "Left out") |
| PolicyMath.BiasWithinTwoPercent | vol_weighted_staking/src/lib.rs:2759-2777 | a ±200 bps bias moves a value by at most 2% |
| PolicyMath.BandTargetCanExceedMax | vol_weighted_staking/src/lib.rs:564-566 | score 10000 on band [100, 1000] with carry 50 targets 1020, above the maximum band |
| PolicyMath.BandTargetMidpoint | vol_weighted_staking/src/lib.rs:2630-2640 | score 5000 on [100, 1000] without bias targets 550 |
| PolicyMath.RelativeMoveBps | vol_weighted_staking/src/lib.rs:2697-2712 | the floor of \|p − p0\|·10000/p0, capped at 10000; 0 when p == p0 |
| PolicyMath.PriceDriftBps | vol_weighted_staking/src/lib.rs:2697-2712 | within [0, 10000]; 0 when current ≤ 0, 10000 when the anchor ≤ 0, otherwise the relative move |
| PolicyMath.SlippageBps | vol_weighted_staking/src/lib.rs:2728-2735 | `InvalidParams` exactly when the reference price is ≤ 0; otherwise the relative move of the fill, at most 10000 |
| PolicyMath.EwmaU16 | vol_weighted_staking/src/lib.rs:2737-2746 | an error exactly when alpha > 10000; the result lies in [min − 1, max] of previous and sample; alpha 0 keeps the previous value and alpha 10000 takes the sample |
| PolicyMath.EwmaBounds | vol_weighted_staking/src/lib.rs:2737-2746 | the sum of two floored weighted terms lies within one unit of the previous/sample range |
| PolicyMath.EwmaUpdateU128 | vol_weighted_staking/src/lib.rs:2620-2628 | an error when alpha > 10000; for inputs within the variance cap, never above the larger input |
| PolicyMath.ReasonCode | vol_weighted_staking/src/lib.rs:2293-2300 | bit 0 is set exactly when the interval is ok, bit 1 exactly when the drift is ok |
| PolicyMath.TargetHedgeNotionalUsdDelta | vol_weighted_staking/src/lib.rs:2714-2726 | 0 with no stake or no price; otherwise never positive (a short); only `MathOverflow` as an error |
| PolicyMath.FullDeltaHedgeOffsetsStake | vol_weighted_staking/src/lib.rs:2714-2726 | at 100% delta and beta 1 the target is exactly minus the staked value |
| PolicyMath.LeverageGuardrail | vol_weighted_staking/src/lib.rs:1677-1693 | passes exactly when a zero stake has a zero hedge and a positive stake has \|h\|·1e6 ≤ staked·max_per_sol |
| PolicyMath.SetHedgeNotionalChecked | vol_weighted_staking/src/lib.rs:1669-1675 | `i64::MIN` aborts; passes exactly when \|h\| is within the cap and the guardrail passes; the cap is checked first |
| PolicyMath.LeverageMonotoneInStake | vol_weighted_staking/src/lib.rs:1677-1693 | more stake never breaks a hedge that passed |
| PolicyMath.ReserveRatio | vol_weighted_staking/src/lib.rs:1695-1702 | passes exactly when (reserve + 1)·10000 > staked·min_reserve_bps, else `ReserveTooLow` |
| PolicyMath.ValueUsd | vol_weighted_staking/src/lib.rs:1773-1797 | 0 for no SOL; `OracleNotReady` without a price; otherwise amount × price / 1e6 saturated to `i64` |
| PolicyMath.ComputeNavUsd | vol_weighted_staking/src/lib.rs:1803-1814 | `OracleNotReady` when there is value but no price; the accrued yield alone when empty; never below the accrued yield; only these two errors |
| OracleGate.Pow10 | vol_weighted_staking/src/lib.rs:2509-2515 | 10^e is at least 1 |
| OracleGate.Pow10Monotone | vol_weighted_staking/src/lib.rs:2509-2515 | 10^a ≤ 10^b for a ≤ b |
| OracleGate.Pow10Checked | vol_weighted_staking/src/lib.rs:2509-2515 | when it succeeds it is 10^e and fits `i128`; otherwise `MathOverflow` |
| OracleGate.Pow10Add | vol_weighted_staking/src/lib.rs:2494-2507 | 10^(a+b) = 10^a · 10^b |
| OracleGate.Pow10CheckedRange | vol_weighted_staking/src/lib.rs:2509-2515 | the checked power succeeds exactly for exponents ≤ 38 |
| OracleGate.Pow10I128 | vol_weighted_staking/src/lib.rs:2509-2515 | the multiply loop returns exactly the checked power |
| OracleGate.ScaleUp | vol_weighted_staking/src/lib.rs:2494-2507 | a success is the exact product and fits `i128`; it always succeeds when the products fit |
| OracleGate.ScaleDown | vol_weighted_staking/src/lib.rs:2494-2507 | fails exactly when the exponent exceeds 38; otherwise price and confidence are divided with truncation toward zero |
| OracleGate.ScaleToFp1e6 | vol_weighted_staking/src/lib.rs:2494-2507 | scales up for expo ≥ −6 and down otherwise; results fit `i128` |
| OracleGate.ScaleExpoMinus8 | vol_weighted_staking/src/lib.rs:2494-2507 | a quote at expo −8 is divided by 100 |
| OracleGate.ScaleExpoMinus6Identity | vol_weighted_staking/src/lib.rs:2494-2507 | a quote at expo −6 is already in 1e6 fixed point |
| OracleGate.ClampI128ToI64 | vol_weighted_staking/src/lib.rs:2517-2525 | below min gives min, inside gives the value, above max gives max |
| OracleGate.PythPriceToFpAndTime | vol_weighted_staking/src/lib.rs:2479-2492 | price and confidence clamped to [0, `MAX_PRICE_FP`]; a negative publish time becomes 0 |
| OracleGate.GateQuote | vol_weighted_staking/src/lib.rs:2378-2418 | ok exactly when the reason is 0; an ok reading has positive, in-range spot and EMA, a past publish time within the age limit, confidence within its bps of the price and, after a first price, a jump within the limit; reason 10 zeroes the prices |
| OracleGate.FirstFailure | vol_weighted_staking/src/lib.rs:2378-2418 | the reported code is 0 or the code of one of the checks |
| OracleGate.FirstFailureZero | vol_weighted_staking/src/lib.rs:2378-2418 | with non-zero codes, the first-failure code is 0 exactly when every check passes |
| OracleGate.GateQuoteIsFirstFailure | vol_weighted_staking/src/lib.rs:2378-2418 | the gate's reason is the code of the first failing check in the order 10, 11, 12, 1, 2, 3; ok exactly when all pass |
| OracleGate.ReadPythChecked | vol_weighted_staking/src/lib.rs:2357-2419 | an unloadable account is `OracleNotReady`; a decoded quote is gated by `GateQuote`; only those two errors |
| OracleGate.ReadPythBestEffort | vol_weighted_staking/src/lib.rs:2423-2476 | a fixed feed choice reads that feed and passes its error on; auto mode fails with SOL/USD's error, takes SOL/USD when ok, else fails with SOL/USDC's error, takes SOL/USDC when ok, and otherwise returns SOL/USD's whole reading (not ok, its own reason) |
| ReturnSeries.CountNonzero | vol_weighted_staking/src/lib.rs:1740-1749 | the counter's meaning: never more than the ring length |
| ReturnSeries.CountNonzeroAllZero | vol_weighted_staking/src/lib.rs:186-188 | the zeroed ring counts no samples |
| ReturnSeries.CountNonzeroUpdate | vol_weighted_staking/src/lib.rs:1740-1749 | overwriting one entry changes the count only on a zero/non-zero transition |
| ReturnSeries.ClampedReturn | vol_weighted_staking/src/lib.rs:1724-1738 | within ±250000; zero exactly when the move is under one millionth; sign of the move; the truncated quotient when unclamped |
| ReturnSeries.QuotientZeroIff | vol_weighted_staking/src/lib.rs:1728-1731 | a truncated quotient is 0 exactly when the dividend is below the divisor |
| ReturnSeries.ClampedReturnTenPercent | vol_weighted_staking/src/lib.rs:1724-1738 | ±10% moves record ±100000, and a doubling is clamped to 250000 |
| ReturnSeries.SquaredReturn | vol_weighted_staking/src/lib.rs:1751-1754 | within the variance cap, and exactly ret² for clamped returns |
| Estimators.FloorSqrt | vol_weighted_staking/src/lib.rs:2779-2790 | r² ≤ n < (r+1)² |
| Estimators.FloorSqrtUnique | vol_weighted_staking/src/lib.rs:2779-2790 | the floor square root is unique |
| Estimators.NewtonStepBound | vol_weighted_staking/src/lib.rs:2783-2788 | every Newton iterate stays above the floor square root |
| Estimators.NewtonSumBound | vol_weighted_staking/src/lib.rs:2783-2788 | the iterates stay in [1, (n+1)/2], so the `u128` sum cannot overflow |
| Estimators.IsqrtU128 | vol_weighted_staking/src/lib.rs:2779-2790 | the Newton loop returns the floor square root |
| Estimators.FloorSqrtOfMaxVar | vol_weighted_staking/src/lib.rs:2546-2549 | the root of a capped variance is at most 1e8 |
| Estimators.FpToBpsValue | vol_weighted_staking/src/lib.rs:2557-2563 | std/100 capped at 10000 |
| Estimators.FpToBps | vol_weighted_staking/src/lib.rs:2557-2563 | `MathOverflow` exactly when std·10000 overflows `u128`; otherwise std/100 capped at 10000 |
| Estimators.Insert | vol_weighted_staking/src/lib.rs:2606-2614 | insertion adds exactly one element |
| Estimators.InsertKeepsSorted | vol_weighted_staking/src/lib.rs:2606-2614 | insertion into a sorted sequence keeps it sorted |
| Estimators.SortSeq | vol_weighted_staking/src/lib.rs:2606-2614 | insertion sort is a permutation |
| Estimators.SortSeqSorted | vol_weighted_staking/src/lib.rs:2606-2614 | insertion sort sorts |
| Estimators.SortedUnique | vol_weighted_staking/src/lib.rs:2606-2614 | two sorted permutations of one multiset are equal |
| Estimators.MedianBounds | vol_weighted_staking/src/lib.rs:2615-2617 | the median lies within any bounds of the entries |
| Estimators.InsertStepPerm | vol_weighted_staking/src/lib.rs:2607-2613 | shifting a prefix right and dropping the key in keeps the multiset |
| Estimators.InsertStepSorted | vol_weighted_staking/src/lib.rs:2607-2613 | the same step extends the sorted prefix by one |
| Estimators.InsertIntoPrefix | vol_weighted_staking/src/lib.rs:2607-2613 | the inner loop extends the sorted prefix in place and permutes the array |
| Estimators.SortI32 | vol_weighted_staking/src/lib.rs:2606-2614 | the array ends sorted and a permutation of its input |
| Estimators.MedianI32 | vol_weighted_staking/src/lib.rs:2605-2618 | the array ends as the sorted input; the result is the truncated mean of its 16th and 17th entries |
| Estimators.StdevVolBpsOf | vol_weighted_staking/src/lib.rs:2565-2585 | the stdev estimator is at most 10000 bps |
| Estimators.DevSquareBound | vol_weighted_staking/src/lib.rs:2574-2576 | a deviation's square fits the accumulator |
| Estimators.RingSum | vol_weighted_staking/src/lib.rs:2566-2569 | the sum loop computes the ring's sum, which fits `i64` |
| Estimators.RingSumSqDev | vol_weighted_staking/src/lib.rs:2572-2578 | the deviation loop computes the sum of squared deviations from the mean without overflow |
| Estimators.StdevVolBps | vol_weighted_staking/src/lib.rs:2565-2585 | never errs on a ring of `i32` returns and equals the stdev estimator |
| Estimators.AbsDevs | vol_weighted_staking/src/lib.rs:2592-2596 | absolute deviations, capped into [0, `i32::MAX`] |
| Estimators.MadVolBpsOf | vol_weighted_staking/src/lib.rs:2587-2603 | the MAD estimator is at most 10000 bps |
| Estimators.AbsDeviations | vol_weighted_staking/src/lib.rs:2591-2596 | the loop fills a fresh array with the absolute deviations |
| Estimators.MadVolBps | vol_weighted_staking/src/lib.rs:2587-2603 | never errs and equals the MAD estimator |
| Estimators.RealizedVolBpsOf | vol_weighted_staking/src/lib.rs:2546-2555 | every mode's estimate is at most 10000 bps |
| Estimators.ComputeRealizedVolBpsMode | vol_weighted_staking/src/lib.rs:2546-2555 | never errs and returns the selected estimator |
| Estimators.SumConstant | vol_weighted_staking/src/lib.rs:2566-2570 | a constant ring sums to length × value |
| Estimators.SumSqDevConstant | vol_weighted_staking/src/lib.rs:2572-2578 | a constant ring has no deviation from its value |
| Estimators.StdevOfConstantIsZero | vol_weighted_staking/src/lib.rs:2565-2585 | a constant ring has zero stdev volatility |
| Estimators.MadOfConstantIsZero | vol_weighted_staking/src/lib.rs:2587-2603 | a constant ring has zero MAD volatility |
| Estimators.EwmaModeIsRootOfVariance | vol_weighted_staking/src/lib.rs:2547-2549 | in EWMA mode the estimate is σ/100 capped at 10000 for variance σ² |
| Vault.Retarget | vol_weighted_staking/src/lib.rs:549-586 | re-targets exactly when the hysteresis passes or it is the first time; otherwise band, interval and last score stay; a re-target records the score and slew-limits toward the biased targets, with the saturating `u64` interval helpers (see "Left out") |
| Vault.VaultState.constructor | vol_weighted_staking/src/lib.rs:161-277 | `Initial(p)`: every modelled field's value after initialisation — the configuration stored, band and interval at their minimum, the ring, cursor and counter zeroed, the cooldown, spacing, hedge and fill slots, the previous score, the last good prices and the hedge anchor price all 0 (the zeros the first-time logic depends on), the variance, volatility, oracle and carry fields 0, the fill count, misses and request id 0, no request outstanding, not degraded, not paused; both invariants hold |
| Vault.VaultState.InitializeVault | vol_weighted_staking/src/lib.rs:96-159 | `InvalidParams` exactly when a parameter check fails; otherwise a fresh account in exactly the `Initial(p)` state, with both invariants holding |
| Vault.VaultState.SetPaused | vol_weighted_staking/src/lib.rs:841-854 | sets the pause flag |
| Vault.VaultState.DepositAndStake | vol_weighted_staking/src/lib.rs:331-352 | `Paused`, then `InvalidParams` for 0, then overflow/`CapExceeded`, then the reserve ratio; adds the amount exactly on success; keeps both invariants |
| Vault.VaultState.DepositReserve | vol_weighted_staking/src/lib.rs:355-371 | `Paused`, `InvalidParams` for 0, `MathOverflow`, then the reserve ratio; adds the amount exactly on success |
| Vault.VaultState.UpdateImpliedVol | vol_weighted_staking/src/lib.rs:374-394 | `VolOutOfRange` above 10000; otherwise stores the value |
| Vault.VaultState.UpdateCarryInputs | vol_weighted_staking/src/lib.rs:397-426 | stores the three carry inputs unless paused |
| Vault.VaultState.PushReturn | vol_weighted_staking/src/lib.rs:1740-1749 | writes the slot `idx % 32`, wraps the `u8` cursor and keeps the counter equal to the number of non-zero entries |
| Vault.VaultState.TryRecordOracleReturn | vol_weighted_staking/src/lib.rs:1710-1771 | changes nothing inside the spacing gate; bootstraps the last price when there is none; otherwise writes the clamped return at the cursor and updates the EWMA variance only in EWMA mode |
| Vault.VaultState.StoreObservation | vol_weighted_staking/src/lib.rs:455-460 | the oracle fields hold the reading |
| Vault.VaultState.TrackBreaker | vol_weighted_staking/src/lib.rs:462-477 | degraded exactly when the reading failed; the last good prices move only on a passing reading |
| Vault.VaultState.ApplyReading | vol_weighted_staking/src/lib.rs:455-482 | all oracle fields hold the reading, degraded exactly when it failed, and both last good prices move only when it passed; a failed or spacing-gated reading leaves ring, cursor, return slot and variance as they were; a passing reading past the gate writes 0 at the cursor, advances it, records the slot and, in EWMA mode, decays the variance with a zero sample |
| Vault.VaultState.ApplyReadingReturnFirst | vol_weighted_staking/src/lib.rs:455-482 | the same oracle fields and latches; with the return recorded before the latch, a passing reading past the gate either bootstraps (no previous price: only the slot moves) or writes its clamped return against the previous good price at the cursor, advances it, records the slot and updates the EWMA variance with its square |
| Vault.VaultState.UpdateOraclePrice | vol_weighted_staking/src/lib.rs:430-499 | `Paused`, else the feed-choice result; a read error changes nothing; on a reading, the full post-state of `ApplyReading`: oracle fields, breaker, latches, and the zero written past the spacing gate; the ring never gains a non-zero sample |
| Vault.VaultState.UpdateOraclePriceReturnFirst | vol_weighted_staking/src/lib.rs:430-499 | the same instruction with the return recorded first: oracle fields, breaker and latches as read, and past the spacing gate either the bootstrap or the clamped return against the previous good price, with cursor, slot and EWMA variance |
| Vault.VaultState.RefreshPolicy | vol_weighted_staking/src/lib.rs:531-596 | realized volatility is recomputed exactly when the non-zero samples reach `min_samples`; the score is the weighted blend; band, interval and last score follow `Retarget` |
| Vault.VaultState.EpochGate | vol_weighted_staking/src/lib.rs:516-523 | `PolicyCooldown` while cooling down, then `MathOverflow` for the epoch counter, then the NAV result of line 610; no other error |
| Vault.VaultState.UpdateEpochAndPolicy | vol_weighted_staking/src/lib.rs:506-661 | `Paused`, then the gate's error with nothing changed; on success the epoch advances, the slot is recorded and the NAV reported; while degraded all policy outputs are frozen, otherwise the policy step runs |
| Vault.VaultState.SetPolicyBounds | vol_weighted_staking/src/lib.rs:974-1010 | `InvalidParams` exactly for unordered or out-of-range bounds; otherwise stores them and slew-limits the band and interval toward the current score's mapping, the interval with the saturating `u64` slew (see "Left out") |
| Vault.VaultState.HedgeDecision | vol_weighted_staking/src/lib.rs:664-714 | errors in order `OracleNotReady`, `HedgeTooSoon` (a backward slot counts as elapsed), `OracleDegradedHedgeBlocked`/`DriftNotMet`; a success has the next request id, a non-positive target (0 without stake), the gap to the current hedge and the reason code |
| Vault.VaultState.MissedConfirmsAfter | vol_weighted_staking/src/lib.rs:686-698 | the counter rises by one exactly when a request is outstanding past the confirm delay and the counter is not saturated |
| Vault.VaultState.RequestHedge | vol_weighted_staking/src/lib.rs:664-760 | `Paused`, else the decision; an error changes nothing; success opens the request, records the slot, re-anchors the drift at the EMA and counts a missed confirmation; the hedge notional is untouched |
| Vault.VaultState.FillDecision | vol_weighted_staking/src/lib.rs:776-792 | errors in order: fill outside (0, `MAX_PRICE_FP`], no outstanding request, wrong id, then the notional cap/guardrail; a success carries the reference price, the slippage and a new average no larger than max(previous, slippage) |
| Vault.VaultState.ConfirmHedge | vol_weighted_staking/src/lib.rs:763-813 | `Paused`, else the decision; an error changes nothing; success closes the request, sets the notional and the average slippage, counts the fill (saturating) and records the slot; both invariants hold |

## Left out

- Pyth account decoding (`load_price_feed_from_account_info` and the unchecked getters) is a foreign library call. A price account is an input that is either unloadable or a decoded spot/EMA quote.
- `Clock::get()` is replaced by slot and unix-time parameters, and `emit!` events are not modelled. The hedge intent, the fill record and the epoch report are returned as values.
- Signer and role checks are not modelled: authority, keeper admin, keeper feeders, `has_one`, and the two-step authority transfer. The keeper table (add/remove, heartbeats, miss counts, the per-epoch update rate limit and keeper bonds) is not modelled either, so `keeper_updates_this_epoch` and `keeper_bond_required_lamports` are absent.
- `bump_config_version_and_hash` and `recompute_config_hash` are not modelled. They call the foreign `hashv`.
- Several admin setters are not modelled because they only write parameters after range checks:
  - `set_emergency_withdraw_enabled`
  - `set_policy_stability`
  - `set_vol_model`
  - `set_oracle_config`
  - `set_hedge_sizing`
  - `set_risk_caps`
  - `set_keeper_controls`
  - `set_confirm_config`

  `set_paused` and `set_policy_bounds` are modelled.
- Anchor account layout, `SPACE` and serialization are not modelled.
- `staking_accrued_usd` is never written by the program. The model keeps it at 0 as part of `ExposureValid`.
- `unrealized_pnl_usd` is the constant 0.
- PolicyMath.IntervalTarget: uses the corrected, saturating `ApplyBpsBiasU64`, where the program's `apply_bps_bias_u64` wraps. The two agree whenever the biased interval fits `u64` (`ApplyBpsBiasU64AgreesInRange`), which needs an interval above about `u64::MAX / 1.02` to fail.
- Vault.Retarget: slews the interval with the corrected `SlewLimitU64` toward the corrected `IntervalTarget`, where the program's `slew_limit_u64` and `apply_bps_bias_u64` wrap near `u64::MAX`. They agree whenever no wrap occurs (`SlewLimitU64AgreesInRange`, `ApplyBpsBiasU64AgreesInRange`). `RefreshPolicy` and `UpdateEpochAndPolicy` inherit this through `Retarget`.
- Vault.VaultState.SetPolicyBounds: slews the interval with the corrected `SlewLimitU64`, where the program's `slew_limit_u64` wraps for intervals within one slew step of `u64::MAX`. The two agree whenever no wrap occurs (`SlewLimitU64AgreesInRange`).
- Estimators.IsqrtU128: requires n < `u128::MAX`. Every caller passes a variance capped at 1e16. At exactly `u128::MAX` the source's `n + 1` would overflow.
- PolicyMath.SetHedgeNotionalChecked: `abs_i64(i64::MIN)` is modelled as an aborting `Panic` error, on the assumption that overflow checks are on. With them off, the value would wrap.
- Vault.VaultState.UpdateEpochAndPolicy: the NAV is checked before the policy step rather than after it. The policy step cannot fail on a valid account, so the outcome and the final state are the same.
- Vault.VaultState.TryRecordOracleReturn: its `MathOverflow` paths are omitted. The `i128` return arithmetic cannot overflow for `i64` prices, and the counter's checked add and subtract are kept within bounds by `RingValid`. Its result is therefore always success.

## Findings

| source | as written | input that shows it | evidently intended | confidence | as-written member | corrected member |
|---|---|---|---|---|---|---|
| vol_weighted_staking/src/lib.rs:475-481 | `update_oracle_price` latches `last_oracle_price_fp` to the new spot before `try_record_oracle_return`. That function reads the same field as the previous price, so every recorded return is 0 and the bootstrap branch is unreachable on this path | any passing reading past the spacing gate with a previous good price 100 and a new spot 110 records 0 instead of 100000 | record the return against the previous good price, then latch | high (not executed) | Vault.VaultState.ApplyReading | Vault.VaultState.ApplyReadingReturnFirst |
| vol_weighted_staking/src/lib.rs:2769-2777 | `apply_bps_bias_u64` clamps the biased value to `i128 ≥ 0` only and then casts with `as u64`, which wraps | interval `u64::MAX` with a +200 bps bias gives 368934881474191031 | saturate at `u64::MAX` | high (not executed) | PolicyMath.ApplyBpsBiasU64WrapsNearMax | PolicyMath.ApplyBpsBiasU64 |
| vol_weighted_staking/src/lib.rs:2677-2695 | `slew_limit_u64` computes `current + max_delta` in `u128` and casts it to `u64` before taking the minimum with the target, so the sum wraps | current `u64::MAX − 10`, target `u64::MAX`, slew 10000 gives `u64::MAX − 21`, a move away from the target | take the minimum before narrowing, so the step reaches the target | high (not executed) | PolicyMath.SlewLimitU64WrapsNearMax | PolicyMath.SlewLimitU64 |
