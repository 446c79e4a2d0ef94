/**
  The realized-volatility estimators over the 32-entry return ring: the
  population standard deviation, the median absolute deviation scaled to a
  standard deviation (x 1.4826), and the square root of the EWMA variance.
  Each loop of the program is a method proved against a specification
  function; the integer square root (Newton's method) and the in-place
  insertion-sort median are proved against `FloorSqrt` and `SortSeq`.
 */
module Estimators {
  import opened Numeric

  // ---------------------------------------------------------------------
  // Integer square root
  // ---------------------------------------------------------------------

  lemma SquareMonotone(a: nat, b: nat)
    requires a <= b
    ensures a * a <= b * b
  {
    assert a * a <= a * b <= b * b;
  }

  /** The largest `r` with `r * r <= n`. */
  ghost function FloorSqrt(n: nat): (r: nat)
    ensures r * r <= n < (r + 1) * (r + 1)
  {
    if n == 0 then 0
    else
      var r := FloorSqrt(n - 1);
      if (r + 1) * (r + 1) <= n then
        SquareMonotone(r + 1, r + 2);
        r + 1
      else r
  }

  /** The bracket `r * r <= n < (r + 1)^2` determines `r`. */
  lemma FloorSqrtUnique(n: nat, r: nat)
    requires r * r <= n < (r + 1) * (r + 1)
    ensures r == FloorSqrt(n)
  {
    var s := FloorSqrt(n);
    if r < s {
      SquareMonotone(r + 1, s);
    } else if s < r {
      SquareMonotone(s + 1, r);
    }
  }

  /** Twice the geometric mean never exceeds the sum: `(a + b)^2 >= 4ab`. */
  lemma SquareOfSum(a: int, b: int)
    ensures (a + b) * (a + b) >= 4 * (a * b)
  {
    assert (a + b) * (a + b) == 4 * (a * b) + (a - b) * (a - b);
  }

  /** A Newton step from any positive guess lands at or above the floor square root. */
  lemma NewtonStepBound(x: nat, n: nat)
    requires x >= 1
    ensures var y := (x + n / x) / 2; (y + 1) * (y + 1) > n
  {
    var q := n / x;
    DivBounds(n, x);
    assert n < x * (q + 1);
    var y := (x + q) / 2;
    var twice := 2 * (y + 1);
    SquareOfSum(x, q + 1);
    SquareMonotone(x + q + 1, twice);
    assert twice * twice == 4 * ((y + 1) * (y + 1));
  }

  /** The guesses never exceed the first one, so `x + n / x` fits in a `u128`. */
  lemma NewtonSumBound(x: nat, n: nat)
    requires 1 <= x <= (n + 1) / 2
    ensures x + n / x <= n + 1
    ensures 1 <= (x + n / x) / 2 <= (n + 1) / 2
  {
    var q := n / x;
    DivBounds(n, x);
    if x == 1 {
      assert q == n;
    } else {
      MulLe(q, 2, x);
      assert 2 * q <= n;
    }
  }

  /** `isqrt_u128`: Newton's iteration from `n`, stopping when the guess stops decreasing.
      At `n == u128::MAX` the first `x0 + 1` overflows, which aborts the program. */
  method IsqrtU128(n: U128) returns (r: U128)
    requires n < U128_MAX
    ensures r == FloorSqrt(n)
  {
    if n == 0 {
      return 0;
    }
    var x0: U128 := n;
    var bumped: U128 := x0 + 1;
    var x1: U128 := bumped / 2;
    while x1 < x0
      invariant 1 <= x0 && 1 <= x1 <= (n + 1) / 2
      invariant (x0 + 1) * (x0 + 1) > n
      invariant (x1 + 1) * (x1 + 1) > n
      invariant x1 == (x0 + n / x0) / 2
      decreases x0
    {
      x0 := x1;
      NewtonStepBound(x1, n);
      NewtonSumBound(x1, n);
      var sum: U128 := x1 + n / x1;
      x1 := sum / 2;
    }
    DivBounds(n, x0);
    assert x0 <= n / x0;
    assert x0 * x0 <= (n / x0) * x0 by { MulLeRight(x0, n / x0, x0); }
    FloorSqrtUnique(n, x0);
    return x0;
  }

  lemma MulLeRight(a: int, b: int, k: nat)
    requires a <= b
    ensures a * k <= b * k
  {
  }

  /** The square root of a value up to `MAX_VAR_FP2` is at most `1e8`. */
  lemma FloorSqrtOfMaxVar(v: nat)
    requires v <= MAX_VAR_FP2
    ensures FloorSqrt(v) <= 100_000_000
  {
    var r := FloorSqrt(v);
    if r > 100_000_000 {
      SquareMonotone(100_000_001, r);
    }
  }

  // ---------------------------------------------------------------------
  // Fixed point to basis points
  // ---------------------------------------------------------------------

  /** A 1e6 fixed-point deviation in bps (`x * 10000 / 1e6`, i.e. `x / 100`), capped at 100%. */
  function FpToBpsValue(stdFp: nat): (r: nat)
    ensures r <= MAX_VOL_BPS
    ensures r == Min(stdFp / 100, MAX_VOL_BPS)
  {
    assert stdFp * BPS_DENOM / FP_SCALE == stdFp / 100 by {
      DivBounds(stdFp, 100);
      DivBounds(stdFp * BPS_DENOM, FP_SCALE);
    }
    Min(stdFp * BPS_DENOM / FP_SCALE, MAX_VOL_BPS)
  }

  /** `fp_to_bps`, whose `u128` multiplication is checked. */
  function FpToBps(stdFp: U128): (r: Result<U16>)
    ensures r.Err? <==> stdFp * BPS_DENOM > U128_MAX
    ensures r.Err? ==> r.error == MathOverflow
    ensures r.Ok? ==> r.value == FpToBpsValue(stdFp)
  {
    if stdFp * BPS_DENOM > U128_MAX then Err(MathOverflow) else Ok(FpToBpsValue(stdFp))
  }

  // ---------------------------------------------------------------------
  // Sorting and the median
  // ---------------------------------------------------------------------

  predicate Sorted(s: seq<int>) {
    forall p, q :: 0 <= p < q < |s| ==> s[p] <= s[q]
  }

  predicate SortedUpTo(s: seq<int>, n: int) {
    forall p, q :: 0 <= p < q < n && q < |s| ==> s[p] <= s[q]
  }

  /** Insert `x` into a sorted sequence, before the first element not smaller. */
  function Insert(x: int, s: seq<int>): (r: seq<int>)
    ensures |r| == |s| + 1
    ensures multiset(r) == multiset(s) + multiset{x}
  {
    if |s| == 0 then [x]
    else if x <= s[0] then [x] + s
    else
      assert s == [s[0]] + s[1..];
      [s[0]] + Insert(x, s[1..])
  }

  lemma {:induction false} InsertKeepsSorted(x: int, s: seq<int>)
    requires Sorted(s)
    ensures Sorted(Insert(x, s))
  {
    if |s| > 0 && x > s[0] {
      var t := Insert(x, s[1..]);
      InsertKeepsSorted(x, s[1..]);
      forall k | 0 <= k < |t|
        ensures s[0] <= t[k]
      {
        assert t[k] in multiset(t);
        assert t[k] == x || t[k] in multiset(s[1..]);
        if t[k] != x {
          var m :| 1 <= m < |s| && s[m] == t[k] by {
            assert t[k] in s[1..];
          }
        }
      }
    }
  }

  /** Functional insertion sort: the reference the in-place sort is proved against. */
  function SortSeq(s: seq<int>): (r: seq<int>)
    ensures |r| == |s|
    ensures multiset(r) == multiset(s)
  {
    if |s| == 0 then []
    else
      assert s == [s[0]] + s[1..];
      Insert(s[0], SortSeq(s[1..]))
  }

  lemma {:induction false} SortSeqSorted(s: seq<int>)
    ensures Sorted(SortSeq(s))
  {
    if |s| > 0 {
      SortSeqSorted(s[1..]);
      InsertKeepsSorted(s[0], SortSeq(s[1..]));
    }
  }

  /** A sorted arrangement of a multiset is unique. */
  lemma {:induction false} SortedUnique(a: seq<int>, b: seq<int>)
    requires Sorted(a) && Sorted(b) && multiset(a) == multiset(b)
    ensures a == b
  {
    assert |a| == |multiset(a)| == |b|;
    if |a| > 0 {
      SortedSameHead(a, b);
      assert a == [a[0]] + a[1..];
      assert b == [b[0]] + b[1..];
      assert multiset(a[1..]) == multiset(a) - multiset{a[0]};
      assert multiset(b[1..]) == multiset(b) - multiset{b[0]};
      SortedUnique(a[1..], b[1..]);
    }
  }

  /** Two sorted arrangements of the same non-empty multiset start alike. */
  lemma SortedSameHead(a: seq<int>, b: seq<int>)
    requires Sorted(a) && Sorted(b) && multiset(a) == multiset(b) && 0 < |a| && 0 < |b|
    ensures a[0] == b[0]
  {
    assert a[0] in multiset(b);
    assert b[0] in multiset(a);
    var i :| 0 <= i < |b| && b[i] == a[0];
    var k :| 0 <= k < |a| && a[k] == b[0];
  }

  /** The median of the 32 returns: the truncated midpoint of the 16th and 17th smallest. */
  function MedianOf(s: seq<int>): (m: int)
    requires |s| == N_RETURNS
  {
    var t := SortSeq(s);
    TruncDiv(t[N_RETURNS / 2 - 1] + t[N_RETURNS / 2], 2)
  }

  /** The median lies within any bounds that hold for every entry. */
  lemma MedianBounds(s: seq<int>, lo: int, hi: int)
    requires |s| == N_RETURNS
    requires forall k :: 0 <= k < |s| ==> lo <= s[k] <= hi
    ensures lo <= MedianOf(s) <= hi
  {
    var t := SortSeq(s);
    forall k | 0 <= k < |t|
      ensures lo <= t[k] <= hi
    {
      assert t[k] in multiset(s);
      var m :| 0 <= m < |s| && s[m] == t[k];
    }
  }

  /** One step of the in-place sort: inserting `s[i]` at `j` keeps the contents. */
  lemma InsertStepPerm(s: seq<int>, t: seq<int>, i: int, j: int)
    requires |s| == |t| && 0 <= j <= i < |s|
    requires forall k :: 0 <= k < j ==> t[k] == s[k]
    requires t[j] == s[i]
    requires forall k :: j < k <= i ==> t[k] == s[k - 1]
    requires forall k :: i < k < |s| ==> t[k] == s[k]
    ensures multiset(t) == multiset(s)
  {
    assert t[..j] == s[..j];
    assert t[j + 1..i + 1] == s[j..i];
    assert t[i + 1..] == s[i + 1..];
    assert t == t[..j] + [t[j]] + t[j + 1..i + 1] + t[i + 1..];
    assert s == s[..j] + s[j..i] + [s[i]] + s[i + 1..];
  }

  /** One step of the in-place sort: inserting `s[i]` at `j` extends the sorted prefix. */
  lemma InsertStepSorted(s: seq<int>, t: seq<int>, i: int, j: int)
    requires |s| == |t| && 0 <= j <= i < |s|
    requires SortedUpTo(s, i)
    requires forall k :: 0 <= k < j ==> t[k] == s[k]
    requires t[j] == s[i]
    requires forall k :: j < k <= i ==> t[k] == s[k - 1] && t[k] > s[i]
    requires j == 0 || s[j - 1] <= s[i]
    ensures SortedUpTo(t, i + 1)
  {
    forall p, q | 0 <= p < q < i + 1
      ensures t[p] <= t[q]
    {
      if q < j {
      } else if q == j {
        assert s[p] <= s[j - 1];
      } else if p < j {
        assert s[p] <= s[q - 1];
      } else if p == j {
      } else {
        assert s[p - 1] <= s[q - 1];
      }
    }
  }

  /** One pass of the insertion sort: shifts the larger entries of the sorted
      prefix `a[..i]` right by one and drops `a[i]` into the gap. */
  method InsertIntoPrefix(a: array<I32>, i: int)
    requires 0 < i < a.Length
    requires SortedUpTo(a[..], i)
    modifies a
    ensures SortedUpTo(a[..], i + 1)
    ensures multiset(a[..]) == multiset(old(a[..]))
  {
    var key := a[i];
    var j := i;
    ghost var s := a[..];
    while j > 0 && a[j - 1] > key
      invariant 0 <= j <= i
      invariant forall k :: 0 <= k < j ==> a[k] == s[k]
      invariant forall k :: j < k <= i ==> a[k] == s[k - 1] && a[k] > key
      invariant forall k :: i < k < a.Length ==> a[k] == s[k]
    {
      a[j] := a[j - 1];
      j := j - 1;
    }
    a[j] := key;
    InsertStepPerm(s, a[..], i, j);
    InsertStepSorted(s, a[..], i, j);
  }

  /** The insertion sort of `median_i32`, in place. */
  method SortI32(a: array<I32>)
    modifies a
    ensures Sorted(a[..])
    ensures multiset(a[..]) == multiset(old(a[..]))
  {
    if a.Length == 0 {
      return;
    }
    var i := 1;
    while i < a.Length
      invariant 1 <= i <= a.Length
      invariant SortedUpTo(a[..], i)
      invariant multiset(a[..]) == multiset(old(a[..]))
    {
      InsertIntoPrefix(a, i);
      i := i + 1;
    }
  }

  /** `median_i32`: sorts the array in place and returns the median. */
  method MedianI32(a: array<I32>) returns (m: I32)
    requires a.Length == N_RETURNS
    modifies a
    ensures a[..] == SortSeq(old(a[..]))
    ensures m == MedianOf(old(a[..]))
  {
    SortI32(a);
    SortSeqSorted(old(a[..]));
    SortedUnique(a[..], SortSeq(old(a[..])));
    m := TruncDiv(a[N_RETURNS / 2 - 1] as int + a[N_RETURNS / 2], 2);
  }

  // ---------------------------------------------------------------------
  // Standard deviation
  // ---------------------------------------------------------------------

  function Sum(s: seq<int>): int {
    if |s| == 0 then 0 else Sum(s[..|s| - 1]) + s[|s| - 1]
  }

  function SumSqDev(s: seq<int>, mean: int): nat {
    if |s| == 0 then 0 else SumSqDev(s[..|s| - 1], mean) + Square(s[|s| - 1] - mean)
  }

  /** The square of an integer, as the product of its magnitude with itself. */
  function Square(d: int): nat {
    MulLe(Abs(d), 0, Abs(d));
    Abs(d) * Abs(d)
  }

  /** The population standard deviation of the ring in bps: truncated mean,
      floored variance capped at `MAX_VAR_FP2`, floor square root. */
  ghost function StdevVolBpsOf(s: seq<int>): (r: nat)
    requires |s| == N_RETURNS
    ensures r <= MAX_VOL_BPS
  {
    var mean := TruncDiv(Sum(s), N_RETURNS);
    var variance := Min(SumSqDev(s, mean) / N_RETURNS, MAX_VAR_FP2);
    FpToBpsValue(FloorSqrt(variance))
  }

  lemma DevSquareBound(d: int)
    requires Abs(d) <= 0x1_0000_0000
    ensures Square(d) <= 0x1_0000_0000_0000_0000
  {
    SquareMonotone(Abs(d), 0x1_0000_0000);
  }

  /** The first loop of `stdev_vol_bps`: the `i64` sum of the returns, which cannot overflow. */
  method RingSum(ring: array<I32>) returns (sum: I64)
    requires ring.Length == N_RETURNS
    ensures sum == Sum(ring[..])
    ensures Abs(sum) <= N_RETURNS * 0x8000_0000
  {
    sum := 0;
    var i := 0;
    while i < N_RETURNS
      invariant 0 <= i <= N_RETURNS
      invariant sum == Sum(ring[..i])
      invariant Abs(sum) <= i * 0x8000_0000
    {
      assert ring[..i + 1][..i] == ring[..i];
      sum := sum + ring[i];
      i := i + 1;
    }
    assert ring[..N_RETURNS] == ring[..];
  }

  /** The second loop of `stdev_vol_bps`: the `u128` sum of squared deviations from
      `mean`, which cannot overflow for a mean within the `i32` range. */
  method RingSumSqDev(ring: array<I32>, mean: I64) returns (acc: U128)
    requires ring.Length == N_RETURNS && Abs(mean) <= 0x8000_0000
    ensures acc == SumSqDev(ring[..], mean)
  {
    acc := 0;
    var i := 0;
    while i < N_RETURNS
      invariant 0 <= i <= N_RETURNS
      invariant acc == SumSqDev(ring[..i], mean)
      invariant acc <= i * 0x1_0000_0000_0000_0000
    {
      assert ring[..i + 1][..i] == ring[..i];
      var dev: I64 := ring[i] - mean;
      var devAbs: U128 := Abs(dev);
      DevSquareBound(dev);
      var devSq: U128 := devAbs * devAbs;
      acc := acc + devSq;
      i := i + 1;
    }
    assert ring[..N_RETURNS] == ring[..];
  }

  /** `stdev_vol_bps`. None of its checked operations can overflow on `i32` returns. */
  method StdevVolBps(ring: array<I32>) returns (r: Result<U16>)
    requires ring.Length == N_RETURNS
    ensures r == Ok(StdevVolBpsOf(ring[..]))
  {
    var sum := RingSum(ring);
    var mean: I64 := TruncDiv(sum, N_RETURNS);
    var varAcc := RingSumSqDev(ring, mean);
    var variance: U128 := varAcc / N_RETURNS;
    if variance > MAX_VAR_FP2 {
      variance := MAX_VAR_FP2;
    }
    var stdFp := IsqrtU128(variance);
    FloorSqrtOfMaxVar(variance);
    r := FpToBps(stdFp);
  }

  // ---------------------------------------------------------------------
  // Median absolute deviation
  // ---------------------------------------------------------------------

  /** Absolute deviations from `med`, each capped at `i32::MAX`. */
  function AbsDevs(s: seq<int>, med: int): (d: seq<int>)
    ensures |d| == |s|
    ensures forall k :: 0 <= k < |d| ==> 0 <= d[k] <= I32_MAX
  {
    seq(|s|, k requires 0 <= k < |s| => Min(Abs(s[k] - med), I32_MAX))
  }

  /** The MAD of the ring, scaled by 1.4826 to estimate a standard deviation, in bps. */
  ghost function MadVolBpsOf(s: seq<int>): (r: nat)
    requires |s| == N_RETURNS
    ensures r <= MAX_VOL_BPS
  {
    var devs := AbsDevs(s, MedianOf(s));
    MedianBounds(devs, 0, I32_MAX);
    FpToBpsValue(MedianOf(devs) * 14826 / 10000)
  }

  /** The absolute deviations of the ring from `med`, in a fresh array. */
  method AbsDeviations(ring: array<I32>, med: I32) returns (devs: array<I32>)
    ensures fresh(devs)
    ensures devs[..] == AbsDevs(ring[..], med)
  {
    devs := new I32[ring.Length];
    for i := 0 to ring.Length
      invariant forall k :: 0 <= k < i ==> devs[k] == AbsDevs(ring[..], med)[k]
    {
      devs[i] := Min(Abs(ring[i] as int - med), I32_MAX);
    }
  }

  /** `mad_vol_bps`: the median is taken of a copy, so the ring itself is never reordered. */
  method MadVolBps(ring: array<I32>) returns (r: Result<U16>)
    requires ring.Length == N_RETURNS
    ensures r == Ok(MadVolBpsOf(ring[..]))
  {
    var buf := new I32[N_RETURNS];
    forall k | 0 <= k < N_RETURNS {
      buf[k] := ring[k];
    }
    assert buf[..] == ring[..];
    var med := MedianI32(buf);
    var devs := AbsDeviations(ring, med);
    ghost var d := devs[..];
    var madFp := MedianI32(devs);
    MedianBounds(d, 0, I32_MAX);
    var madScaled: U128 := (madFp as int) * 14826 / 10000;
    r := FpToBps(madScaled);
  }

  // ---------------------------------------------------------------------
  // Mode dispatch
  // ---------------------------------------------------------------------

  /** The realized volatility for a model selector: 1 is EWMA, 2 is MAD, anything else stdev. */
  ghost function RealizedVolBpsOf(mode: U8, s: seq<int>, ewmaVarFp2: U128): (r: nat)
    requires |s| == N_RETURNS
    ensures r <= MAX_VOL_BPS
  {
    if mode == VOL_MODE_EWMA then FpToBpsValue(FloorSqrt(Min(ewmaVarFp2, MAX_VAR_FP2)))
    else if mode == VOL_MODE_MAD then MadVolBpsOf(s)
    else StdevVolBpsOf(s)
  }

  /** `compute_realized_vol_bps_mode`. */
  method ComputeRealizedVolBpsMode(mode: U8, ring: array<I32>, ewmaVarFp2: U128) returns (r: Result<U16>)
    requires ring.Length == N_RETURNS
    ensures r == Ok(RealizedVolBpsOf(mode, ring[..], ewmaVarFp2))
  {
    if mode == VOL_MODE_EWMA {
      var v := Min(ewmaVarFp2, MAX_VAR_FP2);
      var stdFp := IsqrtU128(v);
      FloorSqrtOfMaxVar(v);
      return FpToBps(stdFp);
    }
    if mode == VOL_MODE_MAD {
      r := MadVolBps(ring);
      return;
    }
    r := StdevVolBps(ring);
  }

  // ---------------------------------------------------------------------
  // Properties of the estimators
  // ---------------------------------------------------------------------

  lemma {:induction false} SumConstant(s: seq<int>, c: int)
    requires forall k :: 0 <= k < |s| ==> s[k] == c
    ensures Sum(s) == |s| * c
  {
    if |s| > 0 {
      SumConstant(s[..|s| - 1], c);
    }
  }

  lemma {:induction false} SumSqDevConstant(s: seq<int>, c: int)
    requires forall k :: 0 <= k < |s| ==> s[k] == c
    ensures SumSqDev(s, c) == 0
  {
    if |s| > 0 {
      SumSqDevConstant(s[..|s| - 1], c);
    }
  }

  /** A flat price history has no volatility under the stdev estimator. */
  lemma StdevOfConstantIsZero(s: seq<int>, c: int)
    requires |s| == N_RETURNS
    requires forall k :: 0 <= k < |s| ==> s[k] == c
    ensures StdevVolBpsOf(s) == 0
  {
    SumConstant(s, c);
    assert TruncDiv(N_RETURNS * c, N_RETURNS) == c;
    SumSqDevConstant(s, c);
    FloorSqrtUnique(0, 0);
  }

  /** A flat price history has no volatility under the MAD estimator. */
  lemma MadOfConstantIsZero(s: seq<int>, c: int)
    requires |s| == N_RETURNS
    requires forall k :: 0 <= k < |s| ==> s[k] == c
    ensures MadVolBpsOf(s) == 0
  {
    MedianBounds(s, c, c);
    var devs := AbsDevs(s, c);
    MedianBounds(devs, 0, 0);
  }

  /** EWMA mode reports the square root of the variance, in bps, capped at 100%. */
  lemma EwmaModeIsRootOfVariance(s: seq<int>, v: U128, sigmaFp: nat)
    requires |s| == N_RETURNS
    requires v <= MAX_VAR_FP2 && v == sigmaFp * sigmaFp
    ensures RealizedVolBpsOf(VOL_MODE_EWMA, s, v) == Min(sigmaFp / 100, MAX_VOL_BPS)
  {
    SquareMonotone(sigmaFp, sigmaFp + 1);
    FloorSqrtUnique(v, sigmaFp);
  }
}
