/** Aroon and its oscillator (src/Indicator.cpp): positions of extremes in sliding windows. */
module Aroon {
  import opened Common
  import opened Candles
  import opened RealLemmas

  // ---------------------------------------------------------------- leftmost extremes

  predicate IsFirstMax(s: seq<real>, k: nat) {
    && k < |s|
    && (forall j :: 0 <= j < |s| ==> s[j] <= s[k])
    && (forall j :: 0 <= j < k ==> s[j] < s[k])
  }

  predicate IsFirstMin(s: seq<real>, k: nat) {
    && k < |s|
    && (forall j :: 0 <= j < |s| ==> s[k] <= s[j])
    && (forall j :: 0 <= j < k ==> s[k] < s[j])
  }

  /** Leftmost maximum of the first `n` entries. */
  function FirstMaxTo(s: seq<real>, n: nat): (k: nat)
    requires 0 < n <= |s|
    ensures k < n
  {
    if n == 1 then 0 else
      var k := FirstMaxTo(s, n - 1);
      if s[n - 1] > s[k] then n - 1 else k
  }

  function FirstMinTo(s: seq<real>, n: nat): (k: nat)
    requires 0 < n <= |s|
    ensures k < n
  {
    if n == 1 then 0 else
      var k := FirstMinTo(s, n - 1);
      if s[n - 1] < s[k] then n - 1 else k
  }

  function FirstMax(s: seq<real>): (k: nat)
    requires s != []
  {
    FirstMaxTo(s, |s|)
  }

  function FirstMin(s: seq<real>): (k: nat)
    requires s != []
  {
    FirstMinTo(s, |s|)
  }

  lemma {:induction false} FirstExtremesTo(s: seq<real>, n: nat)
    requires 0 < n <= |s|
    ensures IsFirstMax(s[..n], FirstMaxTo(s, n)) && IsFirstMin(s[..n], FirstMinTo(s, n))
  {
    var b := s[..n];
    if n > 1 {
      FirstExtremesTo(s, n - 1);
      var a := s[..n - 1];
      assert forall j :: 0 <= j < n - 1 ==> b[j] == a[j];
      assert b[n - 1] == s[n - 1];
    }
  }

  /** The recorded indices are the leftmost extremes, and there is only one of each. */
  lemma {:induction false} FirstExtremesExactly(s: seq<real>, k: nat)
    requires s != []
    ensures k == FirstMax(s) <==> IsFirstMax(s, k)
    ensures k == FirstMin(s) <==> IsFirstMin(s, k)
  {
    FirstExtremesTo(s, |s|);
    assert s[..|s|] == s;
  }

  /** The scanning loop shared by all three places that look for extremes. */
  method Scan(high: seq<real>, low: seq<real>) returns (maxIdx: nat, minIdx: nat)
    requires |high| == |low| && high != []
    ensures maxIdx == FirstMax(high) && minIdx == FirstMin(low)
  {
    maxIdx, minIdx := 0, 0;
    var maxVal, minVal := high[0], low[0];
    for j := 1 to |high|
      invariant maxIdx == FirstMaxTo(high, j) && maxVal == high[maxIdx]
      invariant minIdx == FirstMinTo(low, j) && minVal == low[minIdx]
    {
      if high[j] > maxVal {
        maxVal := high[j];
        maxIdx := j;
      }
      if low[j] < minVal {
        minVal := low[j];
        minIdx := j;
      }
    }
  }

  /** The last `length` entries up to and including index `i`. */
  function Back(s: seq<real>, length: nat, i: nat): (w: seq<real>)
    requires i < |s| && length <= i + 1
    ensures |w| == length
  {
    s[i + 1 - length..i + 1]
  }

  /** Entry `j` of the window is row `i + 1 - length + j`. */
  lemma BackRows(s: seq<real>, length: nat, i: nat, j: nat)
    requires i < |s| && j < length <= i + 1
    ensures Back(s, length, i)[j] == s[i + 1 - length + j]
  {
  }

  /** The scan over the last `length` entries up to index `i`. */
  method ScanBack(high: seq<real>, low: seq<real>, length: nat, i: nat) returns (maxIdx: nat, minIdx: nat)
    requires i < |high| == |low| && 0 < length <= i + 1
    ensures maxIdx == FirstMax(Back(high, length, i)) && minIdx == FirstMin(Back(low, length, i))
  {
    maxIdx, minIdx := Scan(high[i + 1 - length..i + 1], low[i + 1 - length..i + 1]);
  }

  // ---------------------------------------------------------------- Aroon

  function Percentage(k: nat, period: nat): real
    requires period > 0
  {
    100.0 * (k as real / period as real)
  }

  function UpAt(highs: seq<real>, period: nat, i: nat): Num
    requires i < |highs| && period > 0
  {
    if i < period then NaN else Val(Percentage(FirstMax(Back(highs, period + 1, i)), period))
  }

  function DownAt(lows: seq<real>, period: nat, i: nat): Num
    requires i < |lows| && period > 0
  {
    if i < period then NaN else Val(Percentage(FirstMin(Back(lows, period + 1, i)), period))
  }

  /** The extreme's position as the comment on the formula counts it, from the most recent bar. */
  function FromNewest(k: nat, period: nat): nat
    requires k <= period
  {
    period - k
  }

  /** The figure of the code and that of the comment add up to 100, and agree exactly on an extreme midway. */
  lemma {:induction false} CommentDiffersExactly(highs: seq<real>, lows: seq<real>, period: nat, i: nat)
    requires 0 < period <= i < |highs| == |lows|
    ensures var up, down := FirstMax(Back(highs, period + 1, i)), FirstMin(Back(lows, period + 1, i));
      && UpAt(highs, period, i).v + Percentage(FromNewest(up, period), period) == 100.0
      && DownAt(lows, period, i).v + Percentage(FromNewest(down, period), period) == 100.0
      && (UpAt(highs, period, i).v == Percentage(FromNewest(up, period), period) <==> 2 * up == period)
      && (DownAt(lows, period, i).v == Percentage(FromNewest(down, period), period) <==> 2 * down == period)
  {
    Complement(FirstMax(Back(highs, period + 1, i)), period);
    Complement(FirstMin(Back(lows, period + 1, i)), period);
  }

  lemma Complement(k: nat, period: nat)
    requires 0 < period && k <= period
    ensures Percentage(k, period) + Percentage(period - k, period) == 100.0
    ensures Percentage(k, period) == Percentage(period - k, period) <==> 2 * k == period
  {
    SharesOfWhole(k as real, (period - k) as real, period as real);
  }

  lemma SharesOfWhole(a: real, b: real, p: real)
    requires 0.0 < p && a + b == p
    ensures 100.0 * (a / p) + 100.0 * (b / p) == 100.0
    ensures 100.0 * (a / p) == 100.0 * (b / p) <==> a == b
  {
    DivAdds(a, b, p);
    DivIs(a + b, p, 1.0);
    SameQuotients(a, b, p);
  }

  lemma SameQuotients(a: real, b: real, p: real)
    requires 0.0 < p
    ensures a / p == b / p <==> a == b
  {
    DivMul(a, p);
    DivMul(b, p);
  }

  datatype AroonResult = AroonResult(down: seq<Num>, up: seq<Num>)

  function UpSeries(highs: seq<real>, period: nat): (r: seq<Num>)
    requires period > 0
    ensures |r| == |highs|
  {
    seq(|highs|, i requires 0 <= i < |highs| => UpAt(highs, period, i))
  }

  function DownSeries(lows: seq<real>, period: nat): (r: seq<Num>)
    requires period > 0
    ensures |r| == |lows|
  {
    seq(|lows|, i requires 0 <= i < |lows| => DownAt(lows, period, i))
  }

  /** What the single-value mode reports for the rows it is given. */
  function LastValues(highs: seq<real>, lows: seq<real>, period: nat): AroonResult
    requires period > 0 && |highs| == |lows|
  {
    if |highs| <= period then AroonResult([NaN], [NaN])
    else AroonResult([DownAt(lows, period, |lows| - 1)], [UpAt(highs, period, |highs| - 1)])
  }

  method Aroon(candles: seq<Candle>, period: int, sequential: bool, warmup: nat) returns (r: Result<AroonResult>)
    ensures r.Err? <==> period <= 0
    ensures r.Ok? ==>
      var cs := SliceCandles(candles, sequential, warmup);
      r.value == if sequential then AroonResult(DownSeries(Lows(cs), period), UpSeries(Highs(cs), period))
                 else LastValues(Highs(cs), Lows(cs), period)
  {
    if period <= 0 { return Err(InvalidArgument); }
    var cs := SliceCandles(candles, sequential, warmup);
    var result := AroonOf(Highs(cs), Lows(cs), period, sequential);
    r := Ok(result);
  }

  /** AROON from the size check on. */
  method AroonOf(highs: seq<real>, lows: seq<real>, period: nat, sequential: bool) returns (r: AroonResult)
    requires 0 < period && |highs| == |lows|
    ensures r == if sequential then AroonResult(DownSeries(lows, period), UpSeries(highs, period))
                 else LastValues(highs, lows, period)
  {
    var size := |highs|;
    if size <= period {
      if sequential {
        var nanVector := seq(size, _ => NaN);
        TooShort(highs, lows, period, nanVector);
        return AroonResult(nanVector, nanVector);
      }
      return AroonResult([NaN], [NaN]);
    }
    if sequential {
      var down, up := AroonLoop(highs, lows, period);
      r := AroonResult(down, up);
    } else {
      r := AroonLast(highs, lows, period);
    }
  }

  lemma {:induction false} TooShort(highs: seq<real>, lows: seq<real>, period: nat, nans: seq<Num>)
    requires 0 < period && |highs| == |lows| == |nans| <= period && forall i :: 0 <= i < |nans| ==> nans[i] == NaN
    ensures nans == DownSeries(lows, period) && nans == UpSeries(highs, period)
  {
  }

  /** The single-value branch: one scan over the last period+1 rows. */
  method AroonLast(highs: seq<real>, lows: seq<real>, period: nat) returns (r: AroonResult)
    requires 0 < period < |highs| == |lows|
    ensures r == AroonResult([DownAt(lows, period, |lows| - 1)], [UpAt(highs, period, |highs| - 1)])
  {
    var size := |highs|;
    var maxIdx, minIdx := ScanBack(highs, lows, period + 1, size - 1);
    r := AroonResult([Val(Percentage(minIdx, period))], [Val(Percentage(maxIdx, period))]);
  }

  /** The sequential loop over all windows of period+1 rows. */
  method AroonLoop(highs: seq<real>, lows: seq<real>, period: nat) returns (down: seq<Num>, up: seq<Num>)
    requires 0 < period < |highs| == |lows|
    ensures down == DownSeries(lows, period) && up == UpSeries(highs, period)
  {
    var size := |highs|;
    var aroonUp, aroonDown := new Num[size](_ => NaN), new Num[size](_ => NaN);
    for i := period to size
      invariant forall j :: 0 <= j < i ==> aroonUp[j] == UpAt(highs, period, j)
      invariant forall j :: 0 <= j < i ==> aroonDown[j] == DownAt(lows, period, j)
    {
      var maxIdx, minIdx := ScanBack(highs, lows, period + 1, i);
      aroonUp[i] := Val(Percentage(maxIdx, period));
      aroonDown[i] := Val(Percentage(minIdx, period));
    }
    down, up := aroonDown[..], aroonUp[..];
  }

  lemma {:induction false} PercentageInRange(k: nat, period: nat)
    requires period > 0 && k <= period
    ensures 0.0 <= Percentage(k, period) <= 100.0
  {
    DivNonneg(k as real, period as real);
    DivAtMost(k as real, period as real, 1.0);
  }

  /** Defined exactly from index `period` on, and then between 0 and 100. */
  lemma {:induction false} AroonInRange(highs: seq<real>, lows: seq<real>, period: nat, i: nat)
    requires period > 0 && i < |highs| == |lows|
    ensures UpAt(highs, period, i).Val? <==> i >= period
    ensures DownAt(lows, period, i).Val? <==> i >= period
    ensures i >= period ==> 0.0 <= UpAt(highs, period, i).v <= 100.0 && 0.0 <= DownAt(lows, period, i).v <= 100.0
  {
    if i >= period {
      PercentageInRange(FirstMax(Back(highs, period + 1, i)), period);
      PercentageInRange(FirstMin(Back(lows, period + 1, i)), period);
    }
  }

  /** The result is the last entry of the full series. */
  predicate LastAgrees(highs: seq<real>, lows: seq<real>, r: AroonResult, period: nat)
    requires period > 0 && |highs| == |lows| && highs != []
  {
    r == AroonResult([DownAt(lows, period, |lows| - 1)], [UpAt(highs, period, |highs| - 1)])
  }

  /**
   * The last sequential value equals the single value exactly unless the warm-up slice is too
   * short for a period the full history could serve.
   */
  lemma {:induction false} LastValueAgreesExactly(candles: seq<Candle>, period: nat, warmup: nat)
    requires period > 0 && candles != []
    ensures
      var cs := SliceCandles(candles, false, warmup);
      LastAgrees(Highs(candles), Lows(candles), LastValues(Highs(cs), Lows(cs), period), period)
      <==> !(warmup <= period < |candles|)
  {
    var cs := SliceCandles(candles, false, warmup);
    SuffixColumns(candles, cs);
    assert |cs| > period || |candles| <= period <==> !(warmup <= period < |candles|);
    LastValueOnSuffix(Highs(candles), Lows(candles), Highs(cs), Lows(cs), period);
  }

  lemma {:induction false} LastValueOnSuffix(
    highs: seq<real>, lows: seq<real>, hs: seq<real>, ls: seq<real>, period: nat)
    requires 0 < period && |hs| == |ls| <= |highs| == |lows| && highs != []
    requires hs == highs[|highs| - |hs|..] && ls == lows[|lows| - |ls|..]
    ensures LastAgrees(highs, lows, LastValues(hs, ls, period), period) <==> |hs| > period || |highs| <= period
  {
    if |hs| > period {
      LastValueShared(highs, lows, hs, ls, period);
    } else {
      SingleNaN(UpAt(highs, period, |highs| - 1), DownAt(lows, period, |lows| - 1));
    }
  }

  lemma SingleNaN(up: Num, down: Num)
    ensures AroonResult([NaN], [NaN]) == AroonResult([down], [up]) <==> up.NaN? && down.NaN?
  {
    if AroonResult([NaN], [NaN]) == AroonResult([down], [up]) {
      assert [NaN][0] == [down][0] && [NaN][0] == [up][0];
    }
  }

  lemma {:induction false} SuffixColumns(candles: seq<Candle>, cs: seq<Candle>)
    requires |cs| <= |candles| && cs == candles[|candles| - |cs|..]
    ensures Highs(cs) == Highs(candles)[|candles| - |cs|..] && Lows(cs) == Lows(candles)[|candles| - |cs|..]
  {
  }

  lemma {:induction false} LastValueShared(highs: seq<real>, lows: seq<real>, hs: seq<real>, ls: seq<real>, period: nat)
    requires 0 < period < |hs| == |ls| <= |highs| == |lows|
    requires hs == highs[|highs| - |hs|..] && ls == lows[|lows| - |ls|..]
    ensures UpAt(hs, period, |hs| - 1) == UpAt(highs, period, |highs| - 1)
    ensures DownAt(ls, period, |ls| - 1) == DownAt(lows, period, |lows| - 1)
  {
    BackShared(highs, hs, period + 1);
    BackShared(lows, ls, period + 1);
  }

  lemma {:induction false} BackShared(s: seq<real>, t: seq<real>, length: nat)
    requires 0 < length <= |t| <= |s| && t == s[|s| - |t|..]
    ensures Back(t, length, |t| - 1) == Back(s, length, |s| - 1)
  {
  }

  /** Row `r` is the first with the maximum of the last `length` rows up to row `i`. */
  ghost predicate FirstHighest(s: seq<real>, length: nat, i: nat, r: nat) {
    && length <= i + 1 <= |s| && i < r + length && r <= i
    && (forall j :: 0 <= j <= i && i < j + length ==> s[j] <= s[r])
    && (forall j :: 0 <= j < r && i < j + length ==> s[j] < s[r])
  }

  ghost predicate FirstLowest(s: seq<real>, length: nat, i: nat, r: nat) {
    && length <= i + 1 <= |s| && i < r + length && r <= i
    && (forall j :: 0 <= j <= i && i < j + length ==> s[r] <= s[j])
    && (forall j :: 0 <= j < r && i < j + length ==> s[r] < s[j])
  }

  lemma {:induction false} ExtremesInRows(highs: seq<real>, lows: seq<real>, length: nat, i: nat, r: nat)
    requires 0 < length <= i + 1 && i < |highs| == |lows|
    ensures FirstHighest(highs, length, i, r) ==> FirstMax(Back(highs, length, i)) == r - (i + 1 - length)
    ensures FirstLowest(lows, length, i, r) ==> FirstMin(Back(lows, length, i)) == r - (i + 1 - length)
  {
    var a := i + 1 - length;
    if FirstHighest(highs, length, i, r) {
      var w := Back(highs, length, i);
      forall j | 0 <= j < length ensures w[j] == highs[a + j] { BackRows(highs, length, i, j); }
      assert w[r - a] == highs[r];
      FirstExtremesExactly(w, r - a);
    }
    if FirstLowest(lows, length, i, r) {
      var w := Back(lows, length, i);
      forall j | 0 <= j < length ensures w[j] == lows[a + j] { BackRows(lows, length, i, j); }
      assert w[r - a] == lows[r];
      FirstExtremesExactly(w, r - a);
    }
  }

  /**
   * Aroon in the rows themselves: period times the figure is 100 times how far the extreme
   * lies behind the oldest row.
   */
  lemma {:induction false} AroonExactly(highs: seq<real>, lows: seq<real>, period: nat, i: nat, r: nat)
    requires 0 < period <= i < |highs| == |lows|
    ensures FirstHighest(highs, period + 1, i, r) ==>
      UpAt(highs, period, i).v * period as real == 100.0 * (r + period - i) as real
    ensures FirstLowest(lows, period + 1, i, r) ==>
      DownAt(lows, period, i).v * period as real == 100.0 * (r + period - i) as real
  {
    ExtremesInRows(highs, lows, period + 1, i, r);
    if 0 <= r + period - i { PercentageScales(r + period - i, period); }
  }

  lemma PercentageScales(k: nat, period: nat)
    requires period > 0
    ensures Percentage(k, period) * period as real == 100.0 * k as real
  {
    DivMul(k as real, period as real);
  }

  // ---------------------------------------------------------------- oscillator

  function OscAt(highs: seq<real>, lows: seq<real>, period: nat, i: nat): Num
    requires i < |highs| == |lows| && period > 0
  {
    if i + 1 < period then NaN
    else Val(Spread(FirstMax(Back(highs, period, i)), FirstMin(Back(lows, period, i)), period))
  }

  /** 100 (best - worst) / period. */
  function Spread(best: nat, worst: nat, period: nat): real
    requires period > 0
  {
    100.0 * (best as real - worst as real) / period as real
  }

  /** The oscillator in the rows themselves: by how many rows the highest comes after the lowest. */
  lemma {:induction false} OscExactly(highs: seq<real>, lows: seq<real>, period: nat, i: nat, b: nat, w: nat)
    requires 0 < period <= i + 1 && i < |highs| == |lows|
    requires FirstHighest(highs, period, i, b) && FirstLowest(lows, period, i, w)
    ensures OscAt(highs, lows, period, i).Val?
    ensures OscAt(highs, lows, period, i).v * period as real == 100.0 * (b - w) as real
  {
    ExtremesInRows(highs, lows, period, i, b);
    ExtremesInRows(highs, lows, period, i, w);
    DivMul(100.0 * (b as real - w as real), period as real);
  }

  /** detail::computeAroonOsc. */
  method ComputeAroonOsc(high: seq<real>, low: seq<real>, period: int) returns (r: seq<Num>)
    requires |high| == |low|
    ensures |r| == |high|
    ensures forall i :: 0 <= i < |high| ==> r[i] == if period <= 0 then NaN else OscAt(high, low, period, i)
  {
    var n := |high|;
    var result := new Num[n](_ => NaN);
    if period <= 0 || n < period { return result[..]; }   // unsigned, such a period exceeds every index
    for i := period - 1 to n
      invariant forall j :: 0 <= j < i ==> result[j] == OscAt(high, low, period, j)
    {
      var bestIdx, worstIdx := ScanBack(high, low, period, i);
      result[i] := Val(Spread(bestIdx, worstIdx, period));
    }
    r := result[..];
  }

  /** p times the oscillator is p-1 times the distance of up and down, and both are defined or neither. */
  predicate ScaledAlike(osc: Num, up: Num, down: Num, p: nat)
    requires p > 0
  {
    && (osc.Val? <==> up.Val? && down.Val?)
    && (osc.Val? ==> osc.v * p as real == (up.v - down.v) * (p - 1) as real)
  }

  /** The p-bar oscillator and Aroon of period p-1 look at the same window. */
  lemma {:induction false} OscillatorMatchesAroon(highs: seq<real>, lows: seq<real>, p: nat, i: nat)
    requires p >= 2 && i < |highs| == |lows|
    ensures ScaledAlike(OscAt(highs, lows, p, i), UpAt(highs, p - 1, i), DownAt(lows, p - 1, i), p)
  {
    if i + 1 >= p {
      var b, w := FirstMax(Back(highs, p, i)), FirstMin(Back(lows, p, i));
      SpreadScales(b, w, p);
    }
  }

  lemma SpreadScales(b: nat, w: nat, p: nat)
    requires p >= 2
    ensures ScaledAlike(Val(Spread(b, w, p)), Val(Percentage(b, p - 1)), Val(Percentage(w, p - 1)), p)
  {
    SpreadOfPercentages(b, w, p);
  }

  lemma SpreadOfPercentages(b: nat, w: nat, p: nat)
    requires p >= 2
    ensures Spread(b, w, p) * p as real == (Percentage(b, p - 1) - Percentage(w, p - 1)) * (p - 1) as real
  {
    OscillatorArithmetic(b as real, w as real, p as real, (p - 1) as real);
  }

  lemma OscillatorArithmetic(b: real, w: real, p: real, q: real)
    requires 0.0 < p && 0.0 < q
    ensures 100.0 * (b - w) / p * p == (100.0 * (b / q) - 100.0 * (w / q)) * q
  {
    DivMul(100.0 * (b - w), p);
    DivMul(b, q);
    DivMul(w, q);
    Unscale(b / q, w / q, q);
  }

  lemma Unscale(x: real, y: real, q: real)
    ensures (100.0 * x - 100.0 * y) * q == 100.0 * (x * q) - 100.0 * (y * q)
  {
  }
}
