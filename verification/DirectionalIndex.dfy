/** Wilder smoothing, ADX and ADXR (src/Indicator.cpp). */
module DirectionalIndex {
  import opened Common
  import opened Candles
  import opened RealLemmas
  import Ema = AccumulationDistribution

  // ---------------------------------------------------------------- one bar

  function TrueRange(prev: Candle, c: Candle): real {
    MaxReal(MaxReal(High(c) - Low(c), Abs(High(c) - Close(prev))), Abs(Low(c) - Close(prev)))
  }

  function PlusMove(prev: Candle, c: Candle): real {
    var up, down := High(c) - High(prev), Low(prev) - Low(c);
    if up > down && up > 0.0 then up else 0.0
  }

  function MinusMove(prev: Candle, c: Candle): real {
    var up, down := High(c) - High(prev), Low(prev) - Low(c);
    if down > up && down > 0.0 then down else 0.0
  }

  /** low <= close <= high. */
  predicate ClosesInside(c: Candle) { Low(c) <= Close(c) <= High(c) }

  ghost predicate AllInside(cs: seq<Candle>) { forall i :: 0 <= i < |cs| ==> ClosesInside(cs[i]) }

  lemma MovesWithinRange(prev: Candle, c: Candle)
    requires ClosesInside(prev) && ClosesInside(c)
    ensures 0.0 <= PlusMove(prev, c) && 0.0 <= MinusMove(prev, c)
    ensures PlusMove(prev, c) + MinusMove(prev, c) <= TrueRange(prev, c)
  {
  }

  /**
   * The moves in numbers: only the larger of the two excursions beyond the previous bar
   * counts, and only if it is one.
   */
  lemma MovesExactly(prev: Candle, c: Candle)
    ensures var up, down := High(c) - High(prev), Low(prev) - Low(c);
      && (up > 0.0 && up > down ==> PlusMove(prev, c) == up && MinusMove(prev, c) == 0.0)
      && (down > 0.0 && down > up ==> PlusMove(prev, c) == 0.0 && MinusMove(prev, c) == down)
      && (up == down || (up <= 0.0 && down <= 0.0) ==> PlusMove(prev, c) == MinusMove(prev, c) == 0.0)
  {
  }

  /** The true range spans the bar and the previous close. */
  lemma RangeExactly(prev: Candle, c: Candle)
    requires Low(c) <= High(c)
    ensures TrueRange(prev, c) == MaxReal(High(c), Close(prev)) - MinReal(Low(c), Close(prev))
  {
  }

  /** Entry 0 of the true-range series is given: 0 in ADX, the first bar's range in ADXR. */
  function TrueRangeAt(cs: seq<Candle>, first: real, i: nat): real
    requires i < |cs|
  {
    if i == 0 then first else TrueRange(cs[i - 1], cs[i])
  }

  function PlusMoveAt(cs: seq<Candle>, i: nat): real
    requires i < |cs|
  {
    if i == 0 then 0.0 else PlusMove(cs[i - 1], cs[i])
  }

  function MinusMoveAt(cs: seq<Candle>, i: nat): real
    requires i < |cs|
  {
    if i == 0 then 0.0 else MinusMove(cs[i - 1], cs[i])
  }

  function TrueRanges(cs: seq<Candle>, first: real): (r: seq<real>)
    ensures |r| == |cs|
  {
    seq(|cs|, i requires 0 <= i < |cs| => TrueRangeAt(cs, first, i))
  }

  function PlusMoves(cs: seq<Candle>): (r: seq<real>)
    ensures |r| == |cs|
  {
    seq(|cs|, i requires 0 <= i < |cs| => PlusMoveAt(cs, i))
  }

  function MinusMoves(cs: seq<Candle>): (r: seq<real>)
    ensures |r| == |cs|
  {
    seq(|cs|, i requires 0 <= i < |cs| => MinusMoveAt(cs, i))
  }

  /** Every entry of the three series is about the bar and the one before it. */
  lemma SeriesExactly(cs: seq<Candle>, first: real, i: nat)
    requires i < |cs|
    ensures i == 0 ==> TrueRanges(cs, first)[0] == first && PlusMoves(cs)[0] == MinusMoves(cs)[0] == 0.0
    ensures i > 0 ==>
      && TrueRanges(cs, first)[i] == TrueRange(cs[i - 1], cs[i])
      && PlusMoves(cs)[i] == PlusMove(cs[i - 1], cs[i]) && MinusMoves(cs)[i] == MinusMove(cs[i - 1], cs[i])
  {
  }

  /** Two non-negative series whose sum stays below a third. */
  ghost predicate Dominated(a: seq<real>, b: seq<real>, c: seq<real>) {
    && |a| == |b| == |c|
    && forall i :: 0 <= i < |a| ==> 0.0 <= a[i] && 0.0 <= b[i] && a[i] + b[i] <= c[i]
  }

  lemma MovesDominated(cs: seq<Candle>, first: real)
    requires AllInside(cs) && 0.0 <= first
    ensures Dominated(PlusMoves(cs), MinusMoves(cs), TrueRanges(cs, first))
  {
    forall i | 0 < i < |cs|
      ensures 0.0 <= PlusMoves(cs)[i] && 0.0 <= MinusMoves(cs)[i]
      ensures PlusMoves(cs)[i] + MinusMoves(cs)[i] <= TrueRanges(cs, first)[i]
    {
      MovesWithinRange(cs[i - 1], cs[i]);
    }
  }

  method Movements(cs: seq<Candle>, first: real) returns (tr: seq<real>, plus: seq<real>, minus: seq<real>)
    ensures tr == TrueRanges(cs, first) && plus == PlusMoves(cs) && minus == MinusMoves(cs)
  {
    var n := |cs|;
    var trs, plusDm, minusDm := new real[n](_ => 0.0), new real[n](_ => 0.0), new real[n](_ => 0.0);
    if n > 0 { trs[0] := first; }
    var i := 1;
    while i < n
      invariant 1 <= i
      invariant forall j :: 0 <= j < i && j < n ==> trs[j] == TrueRangeAt(cs, first, j)
      invariant forall j :: 0 <= j < i && j < n ==> plusDm[j] == PlusMoveAt(cs, j)
      invariant forall j :: 0 <= j < i && j < n ==> minusDm[j] == MinusMoveAt(cs, j)
    {
      trs[i], plusDm[i], minusDm[i] := BarMovement(cs[i - 1], cs[i]);
      i := i + 1;
    }
    tr, plus, minus := trs[..], plusDm[..], minusDm[..];
  }

  /** The body of that loop. */
  method BarMovement(prev: Candle, c: Candle) returns (tr: real, plus: real, minus: real)
    ensures tr == TrueRange(prev, c) && plus == PlusMove(prev, c) && minus == MinusMove(prev, c)
  {
    var hl := High(c) - Low(c);
    var hc := Abs(High(c) - Close(prev));
    var lc := Abs(Low(c) - Close(prev));
    tr, plus, minus := MaxReal(MaxReal(hl, hc), lc), 0.0, 0.0;
    var up := High(c) - High(prev);
    var down := Low(prev) - Low(c);
    if up > down && up > 0.0 { plus := up; }
    if down > up && down > 0.0 { minus := down; }
  }

  // ---------------------------------------------------------------- smoothing

  /** One step of Wilder's recursion. */
  function Decay(s: real, period: nat, x: real): real
    requires period > 0
  {
    s - s / period as real + x
  }

  /** wilderSmooth: zero, then a sum over the first full period, then the recursion. */
  function SmoothAt(arr: seq<real>, period: nat, i: nat): real
    requires i < |arr| && period > 0
  {
    if i < period then 0.0
    else if i == period then SumOf(arr[1..period + 1])
    else Decay(SmoothAt(arr, period, i - 1), period, arr[i])
  }

  function SmoothSeries(arr: seq<real>, period: nat): (r: seq<real>)
    requires period > 0
    ensures |r| == |arr|
  {
    seq(|arr|, i requires 0 <= i < |arr| => SmoothAt(arr, period, i))
  }

  lemma SmoothSeriesFacts(arr: seq<real>, period: nat)
    requires 0 < period < |arr|
    ensures var s := SmoothSeries(arr, period);
      && (forall i :: 0 <= i < period ==> s[i] == 0.0)
      && s[period] == SumOf(arr[1..period + 1])
      && (forall i :: period < i < |arr| ==> s[i] == Decay(s[i - 1], period, arr[i]))
  {
  }

  /** A negative period becomes a huge unsigned one, and the series stays zero. */
  method WilderSmooth(arr: seq<real>, period: int) returns (r: seq<real>)
    requires period != 0
    ensures r == if period < 0 then seq(|arr|, _ => 0.0) else SmoothSeries(arr, period)
  {
    var size := |arr|;
    var result := new real[size](_ => 0.0);
    if period < 0 || size <= period { return result[..]; }
    ghost var want := SmoothSeries(arr, period);
    var sum := FirstSum(arr, period);
    result[period] := sum;
    SmoothSeriesFacts(arr, period);
    for i := period + 1 to size
      invariant forall j :: 0 <= j < i ==> result[j] == want[j]
    {
      result[i] := result[i - 1] - result[i - 1] / period as real + arr[i];
    }
    r := result[..];
  }

  /** The first loop of wilderSmooth. */
  method FirstSum(arr: seq<real>, period: nat) returns (sum: real)
    requires period < |arr|
    ensures sum == SumOf(arr[1..period + 1])
  {
    sum := 0.0;
    for i := 1 to period + 1
      invariant sum == SumOf(arr[1..i])
    {
      SumOfSnoc(arr, 1, i);
      sum := sum + arr[i];
    }
  }

  lemma SumOfSnoc(s: seq<real>, a: nat, b: nat)
    requires a <= b < |s|
    ensures SumOf(s[a..b + 1]) == SumOf(s[a..b]) + s[b]
  {
    assert s[a..b + 1] == s[a..b] + [s[b]];
    SumOfConcat(s[a..b], [s[b]]);
    SpanOfOne(s[b]);
  }

  /** Smoothing in numbers: zeros, the sum of entries 1 to period, then period - 1 parts of the old value. */
  lemma {:induction false} SmoothExactly(arr: seq<real>, period: nat, i: nat)
    requires 0 < period && i < |arr|
    ensures var s := SmoothSeries(arr, period);
      && (i < period ==> s[i] == 0.0)
      && (i == period ==> s[i] == SumOf(arr[1..period + 1]))
      && (i > period ==> s[i] * period as real == s[i - 1] * (period - 1) as real + arr[i] * period as real)
  {
    if i > period { DecayInNumbers(SmoothAt(arr, period, i - 1), period, arr[i]); }
  }

  lemma DecayInNumbers(s: real, period: nat, x: real)
    requires 0 < period
    ensures Decay(s, period, x) * period as real == s * (period - 1) as real + x * period as real
  {
    var p := period as real;
    var q := s / p;
    DivMul(s, p);
    assert (s - q + x) * p == s * p - q * p + x * p;
    assert s * (p - 1.0) == s * p - s;
  }

  lemma DecayDominated(s: real, t: real, u: real, period: nat, x: real, y: real, z: real)
    requires period > 0 && 0.0 <= s && 0.0 <= t && s + t <= u && 0.0 <= x && 0.0 <= y && x + y <= z
    ensures 0.0 <= Decay(s, period, x) && 0.0 <= Decay(t, period, y)
    ensures Decay(s, period, x) + Decay(t, period, y) <= Decay(u, period, z)
  {
    var p := period as real;
    ShareOf(s, p);
    ShareOf(t, p);
    ShareOf(u - s - t, p);
    DivAdds(s, t, p);
    DivAdds(s + t, u - s - t, p);
  }

  /** A p-th part of a non-negative number, p at least 1. */
  lemma ShareOf(s: real, p: real)
    requires 0.0 <= s && 1.0 <= p
    ensures 0.0 <= s / p <= s
  {
    DivNonneg(s, p);
    MulMono(1.0, p, s);
    DivAtMost(s, p, s);
  }

  lemma {:induction false} SumDominated(a: seq<real>, b: seq<real>, c: seq<real>)
    requires Dominated(a, b, c)
    ensures 0.0 <= SumOf(a) && 0.0 <= SumOf(b) && SumOf(a) + SumOf(b) <= SumOf(c)
  {
    if a != [] {
      SumDominated(a[1..], b[1..], c[1..]);
    }
  }

  /** Smoothing is additive and monotone enough to keep domination. */
  lemma {:induction false} SmoothDominated(a: seq<real>, b: seq<real>, c: seq<real>, period: nat, i: nat)
    requires period > 0 && i < |a| && Dominated(a, b, c)
    ensures 0.0 <= SmoothAt(a, period, i) && 0.0 <= SmoothAt(b, period, i)
    ensures SmoothAt(a, period, i) + SmoothAt(b, period, i) <= SmoothAt(c, period, i)
  {
    if i == period {
      SumDominated(a[1..period + 1], b[1..period + 1], c[1..period + 1]);
    } else if i > period {
      SmoothDominated(a, b, c, period, i - 1);
      DecayDominated(SmoothAt(a, period, i - 1), SmoothAt(b, period, i - 1), SmoothAt(c, period, i - 1),
                     period, a[i], b[i], c[i]);
    }
  }

  /** Smoothing is additive: the smoothed sum of two series is the sum of the smoothed series. */
  lemma {:induction false} SmoothAdds(a: seq<real>, b: seq<real>, c: seq<real>, period: nat, i: nat)
    requires period > 0 && i < |a| == |b| == |c|
    requires forall j :: 0 <= j < |a| ==> c[j] == a[j] + b[j]
    ensures SmoothAt(c, period, i) == SmoothAt(a, period, i) + SmoothAt(b, period, i)
  {
    if i == period {
      SumAdds(a[1..period + 1], b[1..period + 1], c[1..period + 1]);
    } else if i > period {
      SmoothAdds(a, b, c, period, i - 1);
      DivAdds(SmoothAt(a, period, i - 1), SmoothAt(b, period, i - 1), period as real);
    }
  }

  lemma {:induction false} SumAdds(a: seq<real>, b: seq<real>, c: seq<real>)
    requires |a| == |b| == |c| && forall j :: 0 <= j < |a| ==> c[j] == a[j] + b[j]
    ensures SumOf(c) == SumOf(a) + SumOf(b)
  {
    if a != [] { SumAdds(a[1..], b[1..], c[1..]); }
  }

  // ---------------------------------------------------------------- DX

  function Indicator(move: real, range: real): real {
    if range > EPSILON then 100.0 * move / range else 0.0
  }

  /** Directional index from the two indicators. */
  function Dx(plus: real, minus: real): real {
    if plus + minus > EPSILON then 100.0 * Abs(plus - minus) / (plus + minus) else 0.0
  }

  lemma IndicatorsInRange(p: real, m: real, t: real)
    requires 0.0 <= p && 0.0 <= m && p + m <= t
    ensures 0.0 <= Indicator(p, t) && 0.0 <= Indicator(m, t)
    ensures Indicator(p, t) + Indicator(m, t) <= 100.0
  {
    if t > EPSILON {
      DivNonneg(100.0 * p, t);
      DivNonneg(100.0 * m, t);
      DivAdds(100.0 * p, 100.0 * m, t);
      DivAtMost(100.0 * p + 100.0 * m, t, 100.0);
    }
  }

  lemma DxInRange(plus: real, minus: real)
    requires 0.0 <= plus && 0.0 <= minus
    ensures 0.0 <= Dx(plus, minus) <= 100.0
  {
    var sum := plus + minus;
    if sum > EPSILON {
      DivNonneg(100.0 * Abs(plus - minus), sum);
      DivAtMost(100.0 * Abs(plus - minus), sum, 100.0);
    }
  }

  /** DX of bar i: zero before the smoothing starts. */
  function DxAt(cs: seq<Candle>, period: nat, i: nat): real
    requires i < |cs| && period > 0
  {
    if i < period then 0.0 else
      var t := SmoothAt(TrueRanges(cs, 0.0), period, i);
      Dx(Indicator(SmoothAt(PlusMoves(cs), period, i), t), Indicator(SmoothAt(MinusMoves(cs), period, i), t))
  }

  function DxSeries(cs: seq<Candle>, period: nat): (r: seq<real>)
    requires period > 0
    ensures |r| == |cs|
  {
    seq(|cs|, i requires 0 <= i < |cs| => DxAt(cs, period, i))
  }

  /**
   * DX of two moves `p`, `m` and their true range `t`: in the moves alone, the range only
   * decides whether it is zero.
   */
  predicate IsDx(dx: real, p: real, m: real, t: real) {
    if EPSILON < t && EPSILON * t < 100.0 * (p + m) then dx * (p + m) == 100.0 * Abs(p - m) else dx == 0.0
  }

  /** DX from bar period on is that of the smoothed moves and ranges, and zero before. */
  lemma {:induction false} DxExactly(cs: seq<Candle>, period: nat, i: nat)
    requires 0 < period && i < |cs|
    ensures i < period ==> DxSeries(cs, period)[i] == 0.0
    ensures period <= i ==> IsDx(DxSeries(cs, period)[i], SmoothSeries(PlusMoves(cs), period)[i],
                                 SmoothSeries(MinusMoves(cs), period)[i], SmoothSeries(TrueRanges(cs, 0.0), period)[i])
  {
    if period <= i {
      IndicatorsCancel(SmoothAt(PlusMoves(cs), period, i), SmoothAt(MinusMoves(cs), period, i),
                       SmoothAt(TrueRanges(cs, 0.0), period, i));
    }
  }

  lemma IndicatorsCancel(p: real, m: real, t: real)
    ensures IsDx(Dx(Indicator(p, t), Indicator(m, t)), p, m, t)
  {
    if EPSILON < t {
      var a, b := Indicator(p, t), Indicator(m, t);
      DivAdds(100.0 * p, 100.0 * m, t);
      DivAtMost(100.0 * (p + m), t, EPSILON);
      assert a + b == 100.0 * (p + m) / t;
      if EPSILON < a + b { RatioOfShares(a, b, p, m, t); }
    }
  }

  lemma RatioOfShares(a: real, b: real, p: real, m: real, t: real)
    requires 0.0 < t && a == 100.0 * p / t && b == 100.0 * m / t && 0.0 < a + b
    ensures 100.0 * Abs(a - b) / (a + b) * (p + m) == 100.0 * Abs(p - m)
  {
    DivMul(100.0 * p, t);
    DivMul(100.0 * m, t);
    var d := 100.0 * Abs(a - b) / (a + b);
    DivMul(100.0 * Abs(a - b), a + b);
    assert d * (a + b) == 100.0 * Abs(a - b);
    SharesScale(d, a, b, p, m, t);
  }

  lemma SharesScale(d: real, a: real, b: real, p: real, m: real, t: real)
    requires 0.0 < t && a * t == 100.0 * p && b * t == 100.0 * m && d * (a + b) == 100.0 * Abs(a - b)
    ensures d * (p + m) == 100.0 * Abs(p - m)
  {
    assert (a + b) * t == 100.0 * (p + m);
    assert (a - b) * t == 100.0 * (p - m);
    assert d * (a + b) * t == d * (100.0 * (p + m)) by { assert d * (a + b) * t == d * ((a + b) * t); }
    AbsScales(a - b, t);
    AbsScales(p - m, 100.0);
  }

  lemma AbsScales(x: real, t: real)
    requires 0.0 < t
    ensures Abs(x * t) == Abs(x) * t
  {
    if 0.0 <= x { MulNonneg(x, t); } else { MulPos(-x, t); }
  }

  lemma DxSeriesInRange(cs: seq<Candle>, period: nat, i: nat)
    requires period > 0 && i < |cs| && AllInside(cs)
    ensures 0.0 <= DxSeries(cs, period)[i] <= 100.0
  {
    if i >= period {
      MovesDominated(cs, 0.0);
      SmoothDominated(PlusMoves(cs), MinusMoves(cs), TrueRanges(cs, 0.0), period, i);
      var t := SmoothAt(TrueRanges(cs, 0.0), period, i);
      var p, m := SmoothAt(PlusMoves(cs), period, i), SmoothAt(MinusMoves(cs), period, i);
      IndicatorsInRange(p, m, t);
      DxInRange(Indicator(p, t), Indicator(m, t));
    }
  }

  method DirectionalSeries(cs: seq<Candle>, period: nat) returns (dx: seq<real>)
    requires 0 < period < |cs|
    ensures dx == DxSeries(cs, period)
  {
    var tr, plus, minus := Movements(cs, 0.0);
    var trSmooth := WilderSmooth(tr, period);
    var plusSmooth := WilderSmooth(plus, period);
    var minusSmooth := WilderSmooth(minus, period);
    dx := DxLoop(cs, period, trSmooth, plusSmooth, minusSmooth);
  }

  /** The DI and DX loop of ADX. */
  method DxLoop(cs: seq<Candle>, period: nat, trSmooth: seq<real>, plusSmooth: seq<real>, minusSmooth: seq<real>)
    returns (dx: seq<real>)
    requires 0 < period < |cs| && trSmooth == SmoothSeries(TrueRanges(cs, 0.0), period)
    requires plusSmooth == SmoothSeries(PlusMoves(cs), period)
    requires minusSmooth == SmoothSeries(MinusMoves(cs), period)
    ensures dx == DxSeries(cs, period)
  {
    var result := new real[|cs|](_ => 0.0);
    for i := period to |cs|
      invariant forall j :: 0 <= j < i ==> result[j] == DxAt(cs, period, j)
      invariant forall j :: i <= j < |cs| ==> result[j] == 0.0
    {
      result[i] := BarDx(plusSmooth[i], minusSmooth[i], trSmooth[i]);
    }
    dx := result[..];
  }

  /** The body of that loop. */
  method BarDx(plus: real, minus: real, range: real) returns (dx: real)
    ensures dx == Dx(Indicator(plus, range), Indicator(minus, range))
  {
    dx := 0.0;
    if range > EPSILON {
      var diPlus := 100.0 * plus / range;
      var diMinus := 100.0 * minus / range;
      var diSum := diPlus + diMinus;
      if diSum > EPSILON {
        dx := 100.0 * Abs(diPlus - diMinus) / diSum;
      }
    }
  }

  // ---------------------------------------------------------------- ADX

  /** ADX over a DX series: zero, then the mean of DX over [period, 2 period), then the weighted recursion. */
  function AdxAt(dx: seq<real>, period: nat, i: nat): real
    requires i < |dx| && period > 0
  {
    if i < 2 * period then 0.0
    else if i == 2 * period then SumOf(dx[period..2 * period]) / period as real
    else Blend(AdxAt(dx, period, i - 1), period, dx[i])
  }

  /** The previous value counted period-1 times, the new one once. */
  function Blend(a: real, period: nat, x: real): real
    requires period > 0
  {
    (a * (period - 1) as real + x) / period as real
  }

  function AdxSeries(dx: seq<real>, period: nat): (r: seq<real>)
    requires period > 0
    ensures |r| == |dx|
  {
    seq(|dx|, i requires 0 <= i < |dx| => AdxAt(dx, period, i))
  }

  lemma AdxSeriesFacts(dx: seq<real>, period: nat)
    requires 0 < period && 2 * period < |dx|
    ensures var s := AdxSeries(dx, period);
      && (forall i :: 0 <= i < 2 * period ==> s[i] == 0.0)
      && s[2 * period] == SumOf(dx[period..2 * period]) / period as real
      && (forall i :: 2 * period < i < |dx| ==> s[i] == Blend(s[i - 1], period, dx[i]))
  {
  }

  /** The ADX part of the function: the first mean and the recursion. */
  method AdxFromDx(dx: seq<real>, period: nat) returns (adx: seq<real>)
    requires 0 < period && 2 * period < |dx|
    ensures adx == AdxSeries(dx, period)
  {
    var size, start := |dx|, 2 * period;
    var result := new real[size](_ => 0.0);
    var dxSum := SumBetween(dx, period, start);
    ghost var want := AdxSeries(dx, period);
    AdxSeriesFacts(dx, period);
    result[start] := dxSum / period as real;
    for i := start + 1 to size
      invariant forall j :: 0 <= j < i ==> result[j] == want[j]
    {
      result[i] := Blend(result[i - 1], period, dx[i]);
    }
    adx := result[..];
  }

  method Adx(candles: seq<Candle>, period: int, sequential: bool, warmup: nat) returns (r: Result<seq<real>>)
    ensures r.Err? <==> period <= 0 || |SliceCandles(candles, sequential, warmup)| <= 2 * period
    ensures r.Ok? ==>
      var dx := DxSeries(SliceCandles(candles, sequential, warmup), period);
      r.value == if sequential then AdxSeries(dx, period) else [AdxAt(dx, period, |dx| - 1)]
  {
    if period <= 0 { return Err(InvalidArgument); }
    var sliced := SliceCandles(candles, sequential, warmup);
    var size := |sliced|;
    if size <= 2 * period { return Err(InvalidArgument); }
    var dx := DirectionalSeries(sliced, period);
    var adx := AdxFromDx(dx, period);
    r := Ok(if sequential then adx else [adx[size - 1]]);
  }

  /** The summing loop for the first ADX value. */
  method SumBetween(dx: seq<real>, a: nat, b: nat) returns (sum: real)
    requires a <= b <= |dx|
    ensures sum == SumOf(dx[a..b])
  {
    sum := 0.0;
    for i := a to b
      invariant sum == SumOf(dx[a..i])
    {
      SumOfSnoc(dx, a, i);
      sum := sum + dx[i];
    }
  }

  ghost predicate InRange(s: seq<real>) { forall i :: 0 <= i < |s| ==> 0.0 <= s[i] <= 100.0 }

  lemma {:induction false} SumInRange(s: seq<real>)
    requires InRange(s)
    ensures 0.0 <= SumOf(s) <= 100.0 * |s| as real
  {
    if s != [] { SumInRange(s[1..]); }
  }

  lemma MeanInRange(sum: real, n: nat)
    requires n > 0 && 0.0 <= sum <= 100.0 * n as real
    ensures 0.0 <= sum / n as real <= 100.0
  {
    DivNonneg(sum, n as real);
    DivAtMost(sum, n as real, 100.0);
  }

  lemma BlendInRange(a: real, period: nat, x: real)
    requires period > 0 && 0.0 <= a <= 100.0 && 0.0 <= x <= 100.0
    ensures 0.0 <= Blend(a, period, x) <= 100.0
  {
    var k := (period - 1) as real;
    MulNonneg(a, k);
    MulMono(a, 100.0, k);
    assert 100.0 * period as real == 100.0 * k + 100.0;
    MeanInRange(a * k + x, period);
  }

  lemma {:induction false} AdxOfRange(dx: seq<real>, period: nat, i: nat)
    requires i < |dx| && period > 0 && InRange(dx)
    ensures 0.0 <= AdxAt(dx, period, i) <= 100.0
  {
    if i == 2 * period {
      var w := dx[period..2 * period];
      SumInRange(w);
      MeanInRange(SumOf(w), period);
    } else if i > 2 * period {
      AdxOfRange(dx, period, i - 1);
      BlendInRange(AdxAt(dx, period, i - 1), period, dx[i]);
    }
  }

  /** On candles that close inside their range, every ADX value lies in [0, 100]. */
  lemma AdxInRange(cs: seq<Candle>, period: nat, i: nat)
    requires i < |cs| && period > 0 && AllInside(cs)
    ensures 0.0 <= AdxAt(DxSeries(cs, period), period, i) <= 100.0
  {
    forall j | 0 <= j < |cs| ensures 0.0 <= DxSeries(cs, period)[j] <= 100.0 {
      DxSeriesInRange(cs, period, j);
    }
    AdxOfRange(DxSeries(cs, period), period, i);
  }

  /**
   * ADX in numbers: zeros, the mean of DX over [period, 2 period), then period - 1 parts of
   * the old value to one of DX.
   */
  lemma {:induction false} AdxExactly(dx: seq<real>, period: nat, i: nat)
    requires 0 < period && i < |dx|
    ensures var s := AdxSeries(dx, period);
      && (i < 2 * period ==> s[i] == 0.0)
      && (i == 2 * period ==> s[i] * period as real == SumOf(dx[period..2 * period]))
      && (i > 2 * period ==> s[i] * period as real == s[i - 1] * (period - 1) as real + dx[i])
  {
    if i == 2 * period {
      DivMul(SumOf(dx[period..2 * period]), period as real);
    } else if i > 2 * period {
      DivMul(AdxAt(dx, period, i - 1) * (period - 1) as real + dx[i], period as real);
    }
  }

  /** The inputs ADX averages up to bar `i`: the first mean, then DX of every bar after 2 period. */
  function AdxInputs(dx: seq<real>, period: nat, i: nat): (r: seq<real>)
    requires 0 < period && 2 * period <= i < |dx|
    ensures |r| == i - 2 * period + 1
  {
    [SumOf(dx[period..2 * period]) / period as real] + dx[2 * period + 1..i + 1]
  }

  /**
   * Closed form: from bar 2 period on, ADX is the geometrically weighted combination of its
   * inputs, the newest with weight 1 / period and each older one (period - 1) / period times
   * the next, the first mean keeping the rest; the weights add up to one.
   */
  lemma {:induction false} AdxIsMix(dx: seq<real>, period: nat, i: nat)
    requires 0 < period && 2 * period <= i < |dx|
    ensures var n, a := i - 2 * period, 1.0 / period as real;
      AdxAt(dx, period, i) == Ema.Mix(AdxInputs(dx, period, i), a, n, n + 1) && Ema.WeightSum(a, n, n + 1) == 1.0
  {
    var n, a := i - 2 * period, 1.0 / period as real;
    AdxIsEma(dx, period, i);
    Ema.EmaIsMix(AdxInputs(dx, period, i), a, n);
  }

  lemma {:induction false} AdxIsEma(dx: seq<real>, period: nat, i: nat)
    requires 0 < period && 2 * period <= i < |dx|
    ensures AdxAt(dx, period, i) == Ema.EmaAt(AdxInputs(dx, period, i), 1.0 / period as real, i - 2 * period)
  {
    if i > 2 * period {
      var now, before := AdxInputs(dx, period, i), AdxInputs(dx, period, i - 1);
      AdxIsEma(dx, period, i - 1);
      assert now[..|before|] == before;
      Ema.EmaOfPrefix(before, now, 1.0 / period as real, i - 1 - 2 * period);
      BlendIsEma(AdxAt(dx, period, i - 1), period, dx[i]);
    }
  }

  lemma BlendIsEma(prev: real, period: nat, x: real)
    requires 0 < period
    ensures Blend(prev, period, x) == Ema.Blend(1.0 / period as real, x, prev)
  {
    var p := period as real;
    var a := 1.0 / p;
    DivMul(1.0, p);
    PartOfPeriod(a, p, x, prev);
    DivIs(prev * (p - 1.0) + x, p, Ema.Blend(a, x, prev));
  }

  lemma PartOfPeriod(a: real, p: real, x: real, prev: real)
    requires a * p == 1.0
    ensures Ema.Blend(a, x, prev) * p == prev * (p - 1.0) + x
  {
    assert (1.0 - a) * p == p - 1.0;
    assert (a * x + (1.0 - a) * prev) * p == a * p * x + (1.0 - a) * p * prev;
  }

  /** The DX of bar 2*period enters no ADX value: the first mean stops before it, the recursion starts after it. */
  lemma {:induction false} AdxSkipsOneBar(dx: seq<real>, dx': seq<real>, period: nat, i: nat)
    requires period > 0 && i < |dx| == |dx'|
    requires forall j :: 0 <= j < |dx| && j != 2 * period ==> dx[j] == dx'[j]
    ensures AdxAt(dx, period, i) == AdxAt(dx', period, i)
  {
    if i == 2 * period {
      assert dx[period..2 * period] == dx'[period..2 * period];
    } else if i > 2 * period {
      AdxSkipsOneBar(dx, dx', period, i - 1);
    }
  }

  // ---------------------------------------------------------------- ADXR

  /** The smoothing of ADXR starts from the first entry itself. */
  function RunAt(arr: seq<real>, period: nat, i: nat): real
    requires i < |arr| && period > 0
  {
    if i == 0 then arr[0] else Decay(RunAt(arr, period, i - 1), period, arr[i])
  }

  function FirstRange(cs: seq<Candle>): real { if cs == [] then 0.0 else High(cs[0]) - Low(cs[0]) }

  /** ADXR's indicator multiplies after dividing. */
  function IndicatorR(move: real, range: real): real {
    if range > EPSILON then move / range * 100.0 else 0.0
  }

  function DxR(plus: real, minus: real): real {
    if plus + minus > EPSILON then Abs(plus - minus) / (plus + minus) * 100.0 else 0.0
  }

  function DxRAt(cs: seq<Candle>, period: nat, i: nat): real
    requires i < |cs| && period > 0
  {
    var t := RunAt(TrueRanges(cs, FirstRange(cs)), period, i);
    DxR(IndicatorR(RunAt(PlusMoves(cs), period, i), t), IndicatorR(RunAt(MinusMoves(cs), period, i), t))
  }

  function DxRSeries(cs: seq<Candle>, period: nat): (r: seq<real>)
    requires period > 0
    ensures |r| == |cs|
  {
    seq(|cs|, i requires 0 <= i < |cs| => DxRAt(cs, period, i))
  }

  /** Windowed mean of DX. */
  function MeanDxAt(dx: seq<real>, period: nat, i: nat): real
    requires i < |dx| && period > 0
  {
    if i + 1 < period then 0.0 else SumOf(dx[i + 1 - period..i + 1]) / period as real
  }

  function AdxrAt(dx: seq<real>, period: nat, i: nat): real
    requires i < |dx| && period > 0
  {
    if i < period then 0.0 else (MeanDxAt(dx, period, i) + MeanDxAt(dx, period, i - period)) / 2.0
  }

  function RunSeries(arr: seq<real>, period: nat): (r: seq<real>)
    requires period > 0
    ensures |r| == |arr|
  {
    seq(|arr|, i requires 0 <= i < |arr| => RunAt(arr, period, i))
  }

  lemma RunSeriesFacts(arr: seq<real>, period: nat)
    requires period > 0 && arr != []
    ensures var s := RunSeries(arr, period);
      s[0] == arr[0] && forall i :: 0 < i < |arr| ==> s[i] == Decay(s[i - 1], period, arr[i])
  {
  }

  /** The smoothing of ADXR in numbers, from the first entry on. */
  lemma {:induction false} RunExactly(arr: seq<real>, period: nat, i: nat)
    requires 0 < period && i < |arr|
    ensures var s := RunSeries(arr, period);
      if i == 0 then s[0] == arr[0]
      else s[i] * period as real == s[i - 1] * (period - 1) as real + arr[i] * period as real
  {
    if i > 0 { DecayInNumbers(RunAt(arr, period, i - 1), period, arr[i]); }
  }

  /** The DX of ADXR in the smoothed moves, the first bar's range being high less low. */
  lemma {:induction false} DxRExactly(cs: seq<Candle>, period: nat, i: nat)
    requires 0 < period && i < |cs|
    ensures IsDx(DxRSeries(cs, period)[i], RunSeries(PlusMoves(cs), period)[i], RunSeries(MinusMoves(cs), period)[i],
                 RunSeries(TrueRanges(cs, High(cs[0]) - Low(cs[0])), period)[i])
  {
    var p, m := RunAt(PlusMoves(cs), period, i), RunAt(MinusMoves(cs), period, i);
    var t := RunAt(TrueRanges(cs, FirstRange(cs)), period, i);
    SameDx(p, m, t);
    IndicatorsCancel(p, m, t);
  }

  lemma SameDx(p: real, m: real, t: real)
    ensures DxR(IndicatorR(p, t), IndicatorR(m, t)) == Dx(Indicator(p, t), Indicator(m, t))
  {
    SameIndicators(p, m, t);
    SameIndicators(m, p, t);
    SameIndicators(Indicator(p, t), Indicator(m, t), t);
  }

  /**
   * ADXR in numbers: the mean of DX over two adjoining windows, the earlier one counting as
   * zero while it is incomplete.
   */
  lemma {:induction false} AdxrExactly(dx: seq<real>, period: nat, i: nat)
    requires 0 < period && i < |dx|
    ensures i < period ==> AdxrAt(dx, period, i) == 0.0
    ensures period <= i && i + 1 < 2 * period ==>
      AdxrAt(dx, period, i) * (2 * period) as real == SumOf(dx[i + 1 - period..i + 1])
    ensures 2 * period <= i + 1 ==>
      AdxrAt(dx, period, i) * (2 * period) as real == SumOf(dx[i + 1 - 2 * period..i + 1])
  {
    if period <= i {
      var b := dx[i + 1 - period..i + 1];
      if 2 * period <= i + 1 {
        var a := dx[i + 1 - 2 * period..i + 1 - period];
        assert dx[i + 1 - 2 * period..i + 1] == a + b;
        SumOfConcat(a, b);
        MeanOfMeans(SumOf(b), SumOf(a), period);
      } else {
        MeanOfMeans(SumOf(b), 0.0, period);
        DivIs(0.0, period as real, 0.0);
      }
    }
  }

  lemma MeanOfMeans(a: real, b: real, period: nat)
    requires 0 < period
    ensures (a / period as real + b / period as real) / 2.0 * (2 * period) as real == a + b
  {
    var p := period as real;
    var x, y := a / p, b / p;
    DivMul(a, p);
    DivMul(b, p);
    assert (2 * period) as real == 2.0 * p;
    assert (x + y) / 2.0 * (2.0 * p) == x * p + y * p;
  }

  method RunSmooth(arr: seq<real>, period: nat) returns (r: seq<real>)
    requires period > 0 && arr != []
    ensures r == RunSeries(arr, period)
  {
    ghost var want := RunSeries(arr, period);
    RunSeriesFacts(arr, period);
    var result := new real[|arr|](_ => 0.0);
    result[0] := arr[0];
    for i := 1 to |arr|
      invariant forall j :: 0 <= j < i ==> result[j] == want[j]
    {
      result[i] := result[i - 1] - result[i - 1] / period as real + arr[i];
    }
    r := result[..];
  }

  method DirectionalSeriesR(cs: seq<Candle>, period: nat) returns (dx: seq<real>)
    requires 0 < period && cs != []
    ensures dx == DxRSeries(cs, period)
  {
    var tr, plus, minus := Movements(cs, FirstRange(cs));
    var str := RunSmooth(tr, period);
    var plusRun := RunSmooth(plus, period);
    var minusRun := RunSmooth(minus, period);
    var diPlus, diMinus := IndicatorsFrom(plusRun, minusRun, str);
    dx := DxFromIndicators(diPlus, diMinus);
    assert forall j :: 0 <= j < |cs| ==> dx[j] == DxRAt(cs, period, j);
  }

  /** The DI loop of calculateADXR. */
  method IndicatorsFrom(plusRun: seq<real>, minusRun: seq<real>, str: seq<real>)
    returns (diPlus: seq<real>, diMinus: seq<real>)
    requires |plusRun| == |minusRun| == |str|
    ensures |diPlus| == |diMinus| == |str|
    ensures forall j :: 0 <= j < |str| ==> diPlus[j] == IndicatorR(plusRun[j], str[j])
    ensures forall j :: 0 <= j < |str| ==> diMinus[j] == IndicatorR(minusRun[j], str[j])
  {
    var n := |str|;
    var ps, ms := new real[n](_ => 0.0), new real[n](_ => 0.0);
    for i := 0 to n
      invariant forall j :: 0 <= j < i ==> ps[j] == IndicatorR(plusRun[j], str[j])
      invariant forall j :: 0 <= j < i ==> ms[j] == IndicatorR(minusRun[j], str[j])
      invariant forall j :: i <= j < n ==> ps[j] == ms[j] == 0.0
    {
      if str[i] > EPSILON {
        ps[i] := plusRun[i] / str[i] * 100.0;
        ms[i] := minusRun[i] / str[i] * 100.0;
      }
    }
    diPlus, diMinus := ps[..], ms[..];
  }

  /** The DX loop of calculateADXR. */
  method DxFromIndicators(diPlus: seq<real>, diMinus: seq<real>) returns (dx: seq<real>)
    requires |diPlus| == |diMinus|
    ensures |dx| == |diPlus|
    ensures forall j :: 0 <= j < |dx| ==> dx[j] == DxR(diPlus[j], diMinus[j])
  {
    var n := |diPlus|;
    var result := new real[n](_ => 0.0);
    for i := 0 to n
      invariant forall j :: 0 <= j < i ==> result[j] == DxR(diPlus[j], diMinus[j])
      invariant forall j :: i <= j < n ==> result[j] == 0.0
    {
      var denom := diPlus[i] + diMinus[i];
      if denom > EPSILON {
        result[i] := Abs(diPlus[i] - diMinus[i]) / denom * 100.0;
      }
    }
    dx := result[..];
  }

  /** The inner loop of the windowed mean: the last `period` entries up to `i`, newest first. */
  method SumBack(dx: seq<real>, period: nat, i: nat) returns (sumDx: real)
    requires i < |dx| && period <= i + 1
    ensures sumDx == SumOf(dx[i + 1 - period..i + 1])
  {
    sumDx := 0.0;
    for j := 0 to period
      invariant sumDx == SumOf(dx[i + 1 - j..i + 1])
    {
      assert dx[i - j..i + 1][1..] == dx[i + 1 - j..i + 1];
      sumDx := sumDx + dx[i - j];
    }
  }

  method MeanDx(dx: seq<real>, period: nat) returns (adx: seq<real>)
    requires 0 < period
    ensures |adx| == |dx|
    ensures forall i :: 0 <= i < |dx| ==> adx[i] == MeanDxAt(dx, period, i)
  {
    var n := |dx|;
    var result := new real[n](_ => 0.0);
    if n >= period {
      for i := period - 1 to n
        invariant forall k :: 0 <= k < i ==> result[k] == MeanDxAt(dx, period, k)
        invariant forall k :: i <= k < n ==> result[k] == 0.0
      {
        var sumDx := SumBack(dx, period, i);
        result[i] := sumDx / period as real;
      }
    }
    adx := result[..];
  }

  /** detail::calculateADXR. */
  method CalculateAdxr(cs: seq<Candle>, period: int) returns (r: seq<real>)
    requires cs != []
    ensures |r| == |cs|
    ensures forall i :: 0 <= i < |cs| ==> r[i] == if period <= 0 then 0.0 else AdxrAt(DxRSeries(cs, period), period, i)
  {
    var n := |cs|;
    if period <= 0 {
      // no window ever starts, so neither the smoothed series nor DX reach the result
      return seq(n, _ => 0.0);
    }
    var dx := DirectionalSeriesR(cs, period);
    var adx := MeanDx(dx, period);
    r := AdxrLoop(dx, adx, period);
  }

  /** The last loop of calculateADXR. */
  method AdxrLoop(dx: seq<real>, adx: seq<real>, period: nat) returns (r: seq<real>)
    requires 0 < period && |adx| == |dx| && forall i :: 0 <= i < |dx| ==> adx[i] == MeanDxAt(dx, period, i)
    ensures |r| == |dx| && forall i :: 0 <= i < |dx| ==> r[i] == AdxrAt(dx, period, i)
  {
    var n := |dx|;
    var adxr := new real[n](_ => 0.0);
    if n > period {
      for i := period to n
        invariant forall j :: 0 <= j < i ==> adxr[j] == AdxrAt(dx, period, j)
        invariant forall j :: i <= j < n ==> adxr[j] == 0.0
      {
        adxr[i] := (adx[i] + adx[i - period]) / 2.0;
      }
    }
    r := adxr[..];
  }

  method Adxr(candles: seq<Candle>, period: int, sequential: bool, warmup: nat) returns (r: Result<seq<real>>)
    ensures r.Err? <==> period <= 0 || |SliceCandles(candles, sequential, warmup)| <= 2 * period
    ensures r.Ok? ==>
      var dx := DxRSeries(SliceCandles(candles, sequential, warmup), period);
      if sequential then |r.value| == |dx| && forall i :: 0 <= i < |dx| ==> r.value[i] == AdxrAt(dx, period, i)
      else r.value == [AdxrAt(dx, period, |dx| - 1)]
  {
    if period <= 0 { return Err(InvalidArgument); }
    var sliced := SliceCandles(candles, sequential, warmup);
    if |sliced| <= 2 * period { return Err(InvalidArgument); }
    var adxr := CalculateAdxr(sliced, period);
    r := Ok(if sequential then adxr else [adxr[|sliced| - 1]]);
  }

  lemma {:induction false} RunDominated(a: seq<real>, b: seq<real>, c: seq<real>, period: nat, i: nat)
    requires period > 0 && i < |a| && Dominated(a, b, c)
    ensures 0.0 <= RunAt(a, period, i) && 0.0 <= RunAt(b, period, i)
    ensures RunAt(a, period, i) + RunAt(b, period, i) <= RunAt(c, period, i)
  {
    if i > 0 {
      RunDominated(a, b, c, period, i - 1);
      DecayDominated(RunAt(a, period, i - 1), RunAt(b, period, i - 1), RunAt(c, period, i - 1),
                     period, a[i], b[i], c[i]);
    }
  }

  /** Dividing before multiplying gives the same numbers. */
  lemma SameIndicators(p: real, m: real, t: real)
    ensures IndicatorR(p, t) == Indicator(p, t)
    ensures DxR(p, m) == Dx(p, m)
  {
    if t > EPSILON { PercentOf(p, t); }
    if p + m > EPSILON { PercentOf(Abs(p - m), p + m); }
  }

  lemma PercentOf(a: real, b: real)
    requires b != 0.0
    ensures a / b * 100.0 == 100.0 * a / b
  {
    DivMul(a, b);
    var q := a / b;
    assert q * 100.0 * b == 100.0 * (q * b);
    DivIs(100.0 * a, b, q * 100.0);
  }

  lemma DxRSeriesInRange(cs: seq<Candle>, period: nat)
    requires period > 0 && AllInside(cs)
    ensures InRange(DxRSeries(cs, period))
  {
    if cs != [] { MovesDominated(cs, FirstRange(cs)); }
    forall i | 0 <= i < |cs| ensures 0.0 <= DxRSeries(cs, period)[i] <= 100.0 {
      var a, b, c := PlusMoves(cs), MinusMoves(cs), TrueRanges(cs, FirstRange(cs));
      RunDominated(a, b, c, period, i);
      var p, m, t := RunAt(a, period, i), RunAt(b, period, i), RunAt(c, period, i);
      IndicatorsInRange(p, m, t);
      SameIndicators(p, m, t);
      SameIndicators(m, p, t);
      DxInRange(Indicator(p, t), Indicator(m, t));
      SameIndicators(Indicator(p, t), Indicator(m, t), t);
    }
  }

  /** On candles that close inside their range, every ADXR value lies in [0, 100]. */
  lemma AdxrInRange(cs: seq<Candle>, period: nat, i: nat)
    requires i < |cs| && period > 0 && AllInside(cs)
    ensures 0.0 <= AdxrAt(DxRSeries(cs, period), period, i) <= 100.0
  {
    DxRSeriesInRange(cs, period);
    MeanDxInRange(DxRSeries(cs, period), period, i);
    if i >= period { MeanDxInRange(DxRSeries(cs, period), period, i - period); }
  }

  lemma MeanDxInRange(dx: seq<real>, period: nat, i: nat)
    requires i < |dx| && period > 0 && InRange(dx)
    ensures 0.0 <= MeanDxAt(dx, period, i) <= 100.0
  {
    if period <= i + 1 {
      var w := dx[i + 1 - period..i + 1];
      SumInRange(w);
      MeanInRange(SumOf(w), period);
    }
  }
}
