/**
  The Pyth oracle gate: conversion of a Pyth price (mantissa, confidence,
  decimal exponent, publish time) to the 1e6 fixed-point scale, and the checks
  that decide whether a quote may be trusted (sanity, staleness, confidence,
  jump), with the per-feed choice and the USD-then-USDC fallback.
 */
module OracleGate {
  import opened Numeric
  import PolicyMath

  // ---------------------------------------------------------------------
  // Data
  // ---------------------------------------------------------------------

  /** A Pyth price as the feed reports it: `price * 10^expo`, `conf` in the same units. */
  datatype PythPrice = PythPrice(price: I64, conf: U64, expo: I32, publishTime: I64)

  /** A price account passed to the program: it either fails to decode, or holds the
      spot price and its EMA. Account decoding itself is not part of this model. */
  datatype PriceAccount = Unloadable | Loaded(spot: PythPrice, ema: PythPrice)

  /** A Pyth price scaled to 1e6 fixed point. */
  datatype ScaledPrice = ScaledPrice(priceFp: I64, confFp: I64, publishTime: U64)

  /** The outcome of gating one feed; `reason` is 0 when `ok`, else the first failed check. */
  datatype Reading = Reading(spotFp: I64, emaFp: I64, confFp: I64, publishTime: U64, ok: bool, reason: U8)

  /** A reading tagged with the feed it came from (1 = SOL/USD, 2 = SOL/USDC). */
  datatype FeedReading = FeedReading(feedUsed: U8, reading: Reading)

  // Reason codes of a failed gate.
  const REASON_STALE: int := 1
  const REASON_CONFIDENCE: int := 2
  const REASON_JUMP: int := 3
  const REASON_NOT_READY: int := 10
  const REASON_NO_PUBLISH_TIME: int := 11
  const REASON_FUTURE_PUBLISH: int := 12

  // ---------------------------------------------------------------------
  // Powers of ten
  // ---------------------------------------------------------------------

  function Pow10(e: nat): (p: nat)
    ensures p >= 1
  {
    if e == 0 then 1 else 10 * Pow10(e - 1)
  }

  lemma {:induction false} Pow10Monotone(a: nat, b: nat)
    requires a <= b
    ensures Pow10(a) <= Pow10(b)
    decreases b - a
  {
    if a < b {
      Pow10Monotone(a + 1, b);
    }
  }

  /** `10^e` as an `i128`, or an overflow error. */
  function Pow10Checked(e: nat): (r: Result<int>)
    ensures r.Ok? ==> r.value == Pow10(e) && InI128(r.value)
    ensures r.Err? ==> r.error == MathOverflow
  {
    if Pow10(e) > I128_MAX then Err(MathOverflow) else Ok(Pow10(e))
  }

  /** Adding exponents multiplies powers. */
  lemma {:induction false} Pow10Add(a: nat, b: nat)
    ensures Pow10(a + b) == Pow10(a) * Pow10(b)
  {
    if a > 0 {
      Pow10Add(a - 1, b);
    }
  }

  /** `10^38` is the largest power of ten an `i128` holds. */
  lemma Pow10CheckedRange(e: nat)
    ensures Pow10Checked(e).Ok? <==> e <= 38
  {
    assert Pow10(10) == 10_000_000_000;
    assert Pow10(8) == 100_000_000;
    assert Pow10(9) == 1_000_000_000;
    Pow10Add(10, 10);
    Pow10Add(20, 10);
    Pow10Add(30, 8);
    Pow10Add(30, 9);
    if e <= 38 {
      Pow10Monotone(e, 38);
    } else {
      Pow10Monotone(39, e);
    }
  }

  /** `pow10_i128`: repeated checked multiplication by ten. */
  method Pow10I128(exp: U32) returns (r: Result<int>)
    ensures r == Pow10Checked(exp)
  {
    var v := 1;
    var i := 0;
    while i < exp
      invariant 0 <= i <= exp
      invariant v == Pow10(i) && v <= I128_MAX
    {
      if v * 10 > I128_MAX {
        Pow10Monotone(i + 1, exp);
        return Err(MathOverflow);
      }
      v := v * 10;
      i := i + 1;
    }
    return Ok(v);
  }

  // ---------------------------------------------------------------------
  // Scaling to 1e6 fixed point
  // ---------------------------------------------------------------------

  /** Multiplication by `10^k`, checked in `i128`. */
  function ScaleUp(price: int, conf: int, k: nat): (r: Result<(int, int)>)
    ensures r.Err? ==> r.error == MathOverflow
    ensures r.Ok? ==> r.value == (price * Pow10(k), conf * Pow10(k)) && InI128(r.value.0) && InI128(r.value.1)
    ensures k <= 38 && InI128(price * Pow10(k)) && InI128(conf * Pow10(k)) ==> r.Ok?
  {
    Pow10CheckedRange(k);
    var m :- Pow10Checked(k);
    if !InI128(price * m) || !InI128(conf * m) then Err(MathOverflow)
    else Ok((price * m, conf * m))
  }

  /** Truncating division by `10^k`; only `10^k` itself can overflow. */
  function ScaleDown(price: int, conf: int, k: nat): (r: Result<(int, int)>)
    requires InI128(price) && InI128(conf)
    ensures r.Err? <==> k > 38
    ensures r.Err? ==> r.error == MathOverflow
    ensures r.Ok? ==> InI128(r.value.0) && InI128(r.value.1)
    ensures r.Ok? ==> Abs(r.value.0) * Pow10(k) <= Abs(price) < (Abs(r.value.0) + 1) * Pow10(k)
    ensures r.Ok? ==> Abs(r.value.1) * Pow10(k) <= Abs(conf) < (Abs(r.value.1) + 1) * Pow10(k)
  {
    Pow10CheckedRange(k);
    var d :- Pow10Checked(k);
    Ok((TruncDiv(price, d), TruncDiv(conf, d)))
  }

  /** `scale_to_fp_1e6`: multiply by `10^(expo+6)`, or divide (truncating) by
      `10^-(expo+6)`, with `i128` overflow checks. */
  function ScaleToFp1e6(price: int, conf: int, expo: I32): (r: Result<(int, int)>)
    requires InI128(price) && InI128(conf)
    ensures r.Err? ==> r.error == MathOverflow
    ensures r.Ok? ==> InI128(r.value.0) && InI128(r.value.1)
    ensures expo + 6 >= 0 ==> r == ScaleUp(price, conf, expo + 6)
    ensures expo + 6 < 0 ==> r == ScaleDown(price, conf, -(expo + 6))
  {
    var expoAdj := expo + 6;
    if expoAdj >= 0 then ScaleUp(price, conf, expoAdj) else ScaleDown(price, conf, -expoAdj)
  }

  /** With Pyth's usual exponent of -8, scaling drops the last two digits. */
  lemma ScaleExpoMinus8()
    ensures ScaleToFp1e6(15_012_345_678, 2_000_000, -8) == Ok((150_123_456, 20_000))
  {
    assert Pow10(2) == 100;
    Pow10CheckedRange(2);
  }

  /** An exponent of -6 already is the 1e6 scale. */
  lemma ScaleExpoMinus6Identity(price: I64, conf: U64)
    ensures ScaleToFp1e6(price, conf, -6) == Ok((price, conf))
  {
    Pow10CheckedRange(0);
  }

  /** `clamp_i128_to_i64`: below `min` gives `min`, above `max` gives `max`. */
  function ClampI128ToI64(x: int, min: I64, max: I64): (r: I64)
    ensures x < min ==> r == min
    ensures min <= x <= max ==> r == x
    ensures min <= x && x > max ==> r == max
    ensures min <= max ==> min <= r <= max
  {
    if x < min then min else if x > max then max else x
  }

  /** `pyth_price_to_fp_and_time`: both price and confidence end up in
      [0, MAX_PRICE_FP]; a non-positive publish time becomes 0. */
  function PythPriceToFpAndTime(p: PythPrice): (r: Result<ScaledPrice>)
    ensures r.Err? ==> r.error == MathOverflow
    ensures r.Ok? ==> 0 <= r.value.priceFp <= MAX_PRICE_FP && 0 <= r.value.confFp <= MAX_PRICE_FP
    ensures r.Ok? ==> r.value.publishTime == Max(p.publishTime, 0)
    ensures r.Ok? && p.expo == -6 ==> r.value.priceFp == ClampI128ToI64(p.price, 0, MAX_PRICE_FP)
  {
    ScaleExpoMinus6Identity(p.price, p.conf);
    var scaled :- ScaleToFp1e6(p.price, p.conf, p.expo);
    var priceFp := ClampI128ToI64(scaled.0, 0, MAX_PRICE_FP);
    var confFp := ClampI128ToI64(scaled.1, 0, MAX_PRICE_FP);
    var publishTime := if p.publishTime <= 0 then 0 else p.publishTime;
    Ok(ScaledPrice(priceFp, confFp, publishTime))
  }

  // ---------------------------------------------------------------------
  // The gate
  // ---------------------------------------------------------------------

  /** The clock as an unsigned count of seconds: non-positive becomes 0. */
  function NowU64(nowUnixTs: I64): U64 {
    if nowUnixTs <= 0 then 0 else nowUnixTs
  }

  /** The largest confidence interval accepted for a spot price, in price units. */
  function MaxConfFp(spotFp: int, maxConfBps: U16): int
    requires spotFp >= 0
  {
    Max(spotFp * maxConfBps / BPS_DENOM, 0)
  }

  /** The checks of `read_pyth_checked` once both prices are scaled, in their order. */
  function GateQuote(spot: ScaledPrice, emaFp: I64, nowUnixTs: I64, maxAgeSeconds: U64,
                     maxConfBps: U16, maxJumpBps: U16, lastPriceFp: I64): (r: Reading)
    requires 0 <= spot.priceFp && 0 <= spot.confFp
    ensures r.ok <==> r.reason == 0
    ensures r.ok ==> 0 < r.spotFp <= MAX_PRICE_FP && 0 < r.emaFp <= MAX_PRICE_FP
    ensures r.ok ==> 0 < r.publishTime <= NowU64(nowUnixTs) && NowU64(nowUnixTs) - r.publishTime <= maxAgeSeconds
    ensures r.ok ==> r.confFp <= MaxConfFp(r.spotFp, maxConfBps)
    ensures r.ok && lastPriceFp > 0 ==> PolicyMath.PriceDriftBps(r.spotFp, lastPriceFp) <= maxJumpBps
    ensures r.reason == REASON_NOT_READY ==> r.spotFp == 0 && r.emaFp == 0 && r.confFp == 0
    ensures r.reason != REASON_NOT_READY ==> r.spotFp == spot.priceFp && r.emaFp == emaFp && r.confFp == spot.confFp
    ensures r.publishTime == spot.publishTime
  {
    var spotFp, confFp, t := spot.priceFp, spot.confFp, spot.publishTime;
    if spotFp <= 0 || spotFp > MAX_PRICE_FP || emaFp <= 0 || emaFp > MAX_PRICE_FP then
      Reading(0, 0, 0, t, false, REASON_NOT_READY)
    else if t == 0 then
      Reading(spotFp, emaFp, confFp, t, false, REASON_NO_PUBLISH_TIME)
    else if NowU64(nowUnixTs) < t then
      Reading(spotFp, emaFp, confFp, t, false, REASON_FUTURE_PUBLISH)
    else if NowU64(nowUnixTs) - t > maxAgeSeconds then
      Reading(spotFp, emaFp, confFp, t, false, REASON_STALE)
    else if confFp > MaxConfFp(spotFp, maxConfBps) then
      Reading(spotFp, emaFp, confFp, t, false, REASON_CONFIDENCE)
    else if lastPriceFp > 0 && PolicyMath.PriceDriftBps(spotFp, lastPriceFp) > maxJumpBps then
      Reading(spotFp, emaFp, confFp, t, false, REASON_JUMP)
    else
      Reading(spotFp, emaFp, confFp, t, true, 0)
  }

  /** One named check of the gate, as an independent reference for its verdict. */
  datatype Check = Check(code: U8, passes: bool)

  /** The code of the first check that fails, or 0 when all pass. */
  function FirstFailure(checks: seq<Check>): (code: int)
    ensures code == 0 || exists i :: 0 <= i < |checks| && checks[i].code == code
  {
    if |checks| == 0 then 0
    else if !checks[0].passes then checks[0].code
    else
      var rest := FirstFailure(checks[1..]);
      assert rest != 0 ==> exists i :: 0 <= i < |checks[1..]| && checks[1..][i].code == rest;
      assert rest != 0 ==> exists i :: 0 <= i < |checks| && checks[i].code == rest by {
        if rest != 0 {
          var i :| 0 <= i < |checks[1..]| && checks[1..][i].code == rest;
          assert checks[i + 1].code == rest;
        }
      }
      rest
  }

  lemma {:induction false} FirstFailureZero(checks: seq<Check>)
    requires forall i :: 0 <= i < |checks| ==> checks[i].code != 0
    ensures FirstFailure(checks) == 0 <==> forall i :: 0 <= i < |checks| ==> checks[i].passes
  {
    if |checks| > 0 && checks[0].passes {
      FirstFailureZero(checks[1..]);
      assert forall i :: 1 <= i < |checks| ==> checks[i] == checks[1..][i - 1];
    }
  }

  /** The gate's requirements, each stated on its own, in the order they are checked. */
  function GateChecks(spot: ScaledPrice, emaFp: I64, nowUnixTs: I64, maxAgeSeconds: U64,
                      maxConfBps: U16, maxJumpBps: U16, lastPriceFp: I64): seq<Check>
    requires 0 <= spot.priceFp
  {
    var now := NowU64(nowUnixTs);
    [ Check(REASON_NOT_READY as U8, 0 < spot.priceFp <= MAX_PRICE_FP && 0 < emaFp <= MAX_PRICE_FP),
      Check(REASON_NO_PUBLISH_TIME as U8, spot.publishTime != 0),
      Check(REASON_FUTURE_PUBLISH as U8, spot.publishTime <= now),
      Check(REASON_STALE as U8, now <= spot.publishTime + maxAgeSeconds),
      Check(REASON_CONFIDENCE as U8, spot.confFp <= MaxConfFp(spot.priceFp, maxConfBps)),
      Check(REASON_JUMP as U8, lastPriceFp <= 0 || PolicyMath.PriceDriftBps(spot.priceFp, lastPriceFp) <= maxJumpBps) ]
  }

  /** The gate reports exactly the first failing requirement, and passes exactly when all hold. */
  lemma GateQuoteIsFirstFailure(spot: ScaledPrice, emaFp: I64, nowUnixTs: I64, maxAgeSeconds: U64,
                                maxConfBps: U16, maxJumpBps: U16, lastPriceFp: I64)
    requires 0 <= spot.priceFp && 0 <= spot.confFp
    ensures var checks := GateChecks(spot, emaFp, nowUnixTs, maxAgeSeconds, maxConfBps, maxJumpBps, lastPriceFp);
            var r := GateQuote(spot, emaFp, nowUnixTs, maxAgeSeconds, maxConfBps, maxJumpBps, lastPriceFp);
            && r.reason == FirstFailure(checks)
            && (r.ok <==> forall i :: 0 <= i < |checks| ==> checks[i].passes)
  {
    var checks := GateChecks(spot, emaFp, nowUnixTs, maxAgeSeconds, maxConfBps, maxJumpBps, lastPriceFp);
    FirstFailureZero(checks);
    var s1 := checks[1..];
    var s2 := s1[1..];
    var s3 := s2[1..];
    var s4 := s3[1..];
    var s5 := s4[1..];
    var s6 := s5[1..];
    assert s6 == [];
    assert FirstFailure(s5) == if !checks[5].passes then checks[5].code else FirstFailure(s6);
    assert FirstFailure(s4) == if !checks[4].passes then checks[4].code else FirstFailure(s5);
    assert FirstFailure(s3) == if !checks[3].passes then checks[3].code else FirstFailure(s4);
    assert FirstFailure(s2) == if !checks[2].passes then checks[2].code else FirstFailure(s3);
    assert FirstFailure(s1) == if !checks[1].passes then checks[1].code else FirstFailure(s2);
  }

  // ---------------------------------------------------------------------
  // Reading a feed
  // ---------------------------------------------------------------------

  /** `read_pyth_checked`: decode, scale both prices, then gate the spot price.
      A missing account aborts with `OracleNotReady`; a failed check does not abort. */
  function ReadPythChecked(acct: PriceAccount, nowUnixTs: I64, maxAgeSeconds: U64,
                           maxConfBps: U16, maxJumpBps: U16, lastPriceFp: I64): (r: Result<Reading>)
    ensures acct.Unloadable? ==> r == Err(OracleNotReady)
    ensures r.Err? ==> r.error in {OracleNotReady, MathOverflow}
    ensures r.Ok? ==> (r.value.ok <==> r.value.reason == 0)
    ensures r.Ok? && r.value.ok ==> 0 < r.value.spotFp <= MAX_PRICE_FP && 0 < r.value.emaFp <= MAX_PRICE_FP
    ensures r.Ok? && r.value.ok && lastPriceFp > 0 ==> PolicyMath.PriceDriftBps(r.value.spotFp, lastPriceFp) <= maxJumpBps
    ensures acct.Loaded? && PythPriceToFpAndTime(acct.spot).Ok? && PythPriceToFpAndTime(acct.ema).Ok? ==>
              r == Ok(GateQuote(PythPriceToFpAndTime(acct.spot).value, PythPriceToFpAndTime(acct.ema).value.priceFp,
                                nowUnixTs, maxAgeSeconds, maxConfBps, maxJumpBps, lastPriceFp))
  {
    match acct
    case Unloadable => Err(OracleNotReady)
    case Loaded(spotRaw, emaRaw) =>
      var spot :- PythPriceToFpAndTime(spotRaw);
      var ema :- PythPriceToFpAndTime(emaRaw);
      Ok(GateQuote(spot, ema.priceFp, nowUnixTs, maxAgeSeconds, maxConfBps, maxJumpBps, lastPriceFp))
  }

  /** `read_pyth_best_effort`: feed 1 or 2 when configured, otherwise SOL/USD first and
      SOL/USDC if SOL/USD fails its checks. When both fail, the SOL/USD reading is
      reported as it is: not ok, with its own non-zero reason. */
  function ReadPythBestEffort(choice: U8, solUsd: PriceAccount, solUsdc: PriceAccount, nowUnixTs: I64,
                              maxAgeSeconds: U64, maxConfBps: U16, maxJumpBps: U16, lastPriceFp: I64): (r: Result<FeedReading>)
    ensures r.Ok? ==> (r.value.reading.ok <==> r.value.reading.reason == 0)
    ensures r.Ok? ==> r.value.feedUsed == FEED_SOL_USD || r.value.feedUsed == FEED_SOL_USDC
    ensures r.Ok? && r.value.reading.ok ==> 0 < r.value.reading.spotFp <= MAX_PRICE_FP
    ensures var a := ReadPythChecked(solUsd, nowUnixTs, maxAgeSeconds, maxConfBps, maxJumpBps, lastPriceFp);
            var b := ReadPythChecked(solUsdc, nowUnixTs, maxAgeSeconds, maxConfBps, maxJumpBps, lastPriceFp);
            && (choice == FEED_SOL_USD ==> r == (if a.Ok? then Ok(FeedReading(FEED_SOL_USD, a.value)) else Err(a.error)))
            && (choice == FEED_SOL_USDC ==> r == (if b.Ok? then Ok(FeedReading(FEED_SOL_USDC, b.value)) else Err(b.error)))
            && (choice != FEED_SOL_USD && choice != FEED_SOL_USDC ==>
                  && (a.Err? ==> r == Err(a.error))
                  && (a.Ok? && a.value.ok ==> r == Ok(FeedReading(FEED_SOL_USD, a.value)))
                  && (a.Ok? && !a.value.ok && b.Err? ==> r == Err(b.error))
                  && (a.Ok? && !a.value.ok && b.Ok? && b.value.ok ==> r == Ok(FeedReading(FEED_SOL_USDC, b.value)))
                  && (a.Ok? && !a.value.ok && b.Ok? && !b.value.ok ==> r == Ok(FeedReading(FEED_SOL_USD, a.value))))
  {
    var tryOne := (acct: PriceAccount) => ReadPythChecked(acct, nowUnixTs, maxAgeSeconds, maxConfBps, maxJumpBps, lastPriceFp);
    if choice == FEED_SOL_USD then
      var a :- tryOne(solUsd);
      Ok(FeedReading(FEED_SOL_USD, a))
    else if choice == FEED_SOL_USDC then
      var b :- tryOne(solUsdc);
      Ok(FeedReading(FEED_SOL_USDC, b))
    else
      var a :- tryOne(solUsd);
      if a.ok then Ok(FeedReading(FEED_SOL_USD, a))
      else
        var b :- tryOne(solUsdc);
        if b.ok then Ok(FeedReading(FEED_SOL_USDC, b))
        else
          var reason := if a.reason != 0 then a.reason else Max(b.reason, 1);
          Ok(FeedReading(FEED_SOL_USD, a.(ok := false, reason := reason)))
  }
}
