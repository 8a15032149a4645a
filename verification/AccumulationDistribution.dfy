/** The accumulation/distribution line and its oscillator (src/Indicator.cpp). */
module AccumulationDistribution {
  import opened Common
  import opened Candles
  import opened RealLemmas

  /** Money flow multiplier: where the close lies in the range, from -1 to 1, 0 for a flat candle. */
  function Multiplier(c: Candle): real {
    if Abs(High(c) - Low(c)) > EPSILON
    then ((Close(c) - Low(c)) - (High(c) - Close(c))) / (High(c) - Low(c)) else 0.0
  }

  function MoneyFlow(c: Candle): real { Times(Multiplier(c), Volume(c)) }

  function MoneyFlows(cs: seq<Candle>): (r: seq<real>)
    ensures |r| == |cs|
  {
    seq(|cs|, i requires 0 <= i < |cs| => MoneyFlow(cs[i]))
  }

  function Totals(s: seq<real>): (r: seq<real>)
    ensures |r| == |s|
  {
    seq(|s|, i requires 0 <= i < |s| => SumTo(s, i + 1))
  }

  /** The AD line: cumulative money flow. */
  function AdLine(cs: seq<Candle>): (r: seq<real>)
    ensures |r| == |cs|
  {
    Totals(MoneyFlows(cs))
  }

  method Ad(candles: seq<Candle>, sequential: bool, warmup: nat) returns (r: Result<seq<real>>)
    ensures var cs := SliceCandles(candles, sequential, warmup);
      r == if cs == [] then Err(InvalidArgument)
           else Ok(if sequential then AdLine(cs) else [AdLine(cs)[|cs| - 1]])
  {
    var cs := SliceCandles(candles, sequential, warmup);
    if cs == [] { return Err(InvalidArgument); }
    var mfm := MultiplierLoop(cs);
    var mfv := ProductWithVolume(cs, mfm);
    var line := Cumulate(mfv);
    r := Ok(if sequential then line else [line[|cs| - 1]]);
  }

  /** The multiplier loop of AD. */
  method MultiplierLoop(cs: seq<Candle>) returns (r: seq<real>)
    ensures |r| == |cs| && forall j :: 0 <= j < |cs| ==> r[j] == Multiplier(cs[j])
  {
    var mfm := new real[|cs|](_ => 0.0);
    for i := 0 to |cs|
      invariant forall j :: 0 <= j < i ==> mfm[j] == Multiplier(cs[j])
    {
      var highLowDiff := High(cs[i]) - Low(cs[i]);
      mfm[i] := if Abs(highLowDiff) > EPSILON
        then ((Close(cs[i]) - Low(cs[i])) - (High(cs[i]) - Close(cs[i]))) / highLowDiff else 0.0;
    }
    r := mfm[..];
  }

  /** detail::computeMultiplier, the same loop as ADOSC has it: zeros are left in place. */
  method ComputeMultiplier(cs: seq<Candle>) returns (r: seq<real>)
    ensures |r| == |cs| && forall j :: 0 <= j < |cs| ==> r[j] == Multiplier(cs[j])
  {
    var multiplier := new real[|cs|](_ => 0.0);
    for i := 0 to |cs|
      invariant forall j :: 0 <= j < i ==> multiplier[j] == Multiplier(cs[j])
      invariant forall j :: i <= j < |cs| ==> multiplier[j] == 0.0
    {
      var range := High(cs[i]) - Low(cs[i]);
      if Abs(range) > EPSILON {
        multiplier[i] := ((Close(cs[i]) - Low(cs[i])) - (High(cs[i]) - Close(cs[i]))) / range;
      }
    }
    r := multiplier[..];
  }

  /** The elementwise product of multipliers and volumes. */
  method ProductWithVolume(cs: seq<Candle>, mfm: seq<real>) returns (mfv: seq<real>)
    requires |mfm| == |cs| && forall j :: 0 <= j < |cs| ==> mfm[j] == Multiplier(cs[j])
    ensures mfv == MoneyFlows(cs)
  {
    mfv := seq(|cs|, i requires 0 <= i < |cs| => Times(mfm[i], Volume(cs[i])));
  }

  /** The cumulative sum, in AD and in ADOSC. */
  method Cumulate(mfv: seq<real>) returns (line: seq<real>)
    requires mfv != []
    ensures line == Totals(mfv)
  {
    var adLine := new real[|mfv|](_ => 0.0);
    adLine[0] := mfv[0];
    for i := 1 to |mfv|
      invariant adLine[0] == mfv[0]
      invariant forall j :: 0 < j < i ==> adLine[j] == adLine[j - 1] + mfv[j]
    {
      adLine[i] := adLine[i - 1] + mfv[i];
    }
    line := adLine[..];
    TotalsBySteps(mfv, line);
  }

  /** The recurrence has one solution. */
  lemma TotalsBySteps(s: seq<real>, r: seq<real>)
    requires |r| == |s| && s != [] && r[0] == s[0]
    requires forall j :: 0 < j < |s| ==> r[j] == r[j - 1] + s[j]
    ensures r == Totals(s)
  {
    forall i | 0 <= i < |s| ensures r[i] == SumTo(s, i + 1) { TotalBySteps(s, r, i); }
  }

  lemma {:induction false} TotalBySteps(s: seq<real>, r: seq<real>, i: nat)
    requires i < |r| == |s| && r[0] == s[0]
    requires forall j :: 0 < j < |s| ==> r[j] == r[j - 1] + s[j]
    ensures r[i] == SumTo(s, i + 1)
  {
    if i > 0 { TotalBySteps(s, r, i - 1); }
  }

  /**
   * One step of the line in the candle's own numbers: across its range, money flows in
   * proportion to how far the close lies above the middle; a flat candle changes nothing.
   */
  lemma {:induction false} AdStepExactly(cs: seq<Candle>, i: nat)
    requires i < |cs|
    ensures var c, range := cs[i], High(cs[i]) - Low(cs[i]);
      var step := AdLine(cs)[i] - if i == 0 then 0.0 else AdLine(cs)[i - 1];
      && (-EPSILON <= range <= EPSILON ==> step == 0.0)
      && (range < -EPSILON || EPSILON < range ==>
            range * step == (2.0 * Close(c) - High(c) - Low(c)) * Volume(c))
  {
    var c := cs[i];
    StepIsFlow(cs, i);
    if Abs(High(c) - Low(c)) > EPSILON {
      FlowAcrossRange((Close(c) - Low(c)) - (High(c) - Close(c)), High(c) - Low(c), Volume(c));
    }
  }

  lemma StepIsFlow(cs: seq<Candle>, i: nat)
    requires i < |cs|
    ensures AdLine(cs)[i] - (if i == 0 then 0.0 else AdLine(cs)[i - 1]) == MoneyFlow(cs[i])
  {
    var flows := MoneyFlows(cs);
    assert SumTo(flows, i + 1) == SumTo(flows, i) + flows[i];
    assert SumTo(flows, 0) == 0.0;
  }

  lemma FlowAcrossRange(n: real, r: real, v: real)
    requires r != 0.0
    ensures r * Times(n / r, v) == n * v
  {
    var q := n / r;
    DivMul(n, r);
    assert r * (q * v) == q * r * v;
  }

  /** On a candle with a range the line rises exactly when something is traded and the close is above the middle. */
  lemma {:induction false} AdRisesExactly(cs: seq<Candle>, i: nat)
    requires i < |cs| && EPSILON < High(cs[i]) - Low(cs[i]) && 0.0 <= Volume(cs[i])
    ensures var before := if i == 0 then 0.0 else AdLine(cs)[i - 1];
      AdLine(cs)[i] > before <==> Volume(cs[i]) > 0.0 && 2.0 * Close(cs[i]) > High(cs[i]) + Low(cs[i])
  {
    var c := cs[i];
    AdStepExactly(cs, i);
    var step := AdLine(cs)[i] - if i == 0 then 0.0 else AdLine(cs)[i - 1];
    SignOfProduct(High(c) - Low(c), step, 2.0 * Close(c) - High(c) - Low(c), Volume(c));
  }

  lemma SignOfProduct(r: real, s: real, m: real, v: real)
    requires 0.0 < r && 0.0 <= v && r * s == m * v
    ensures s > 0.0 <==> v > 0.0 && m > 0.0
  {
    if s > 0.0 {
      MulPos(r, s);
      if m <= 0.0 { MulMono(m, 0.0, v); }
    }
    if v > 0.0 && m > 0.0 {
      MulPos(m, v);
      if s <= 0.0 { MulMono(s, 0.0, r); }
    }
  }

  // ---------------------------------------------------------------- exponential averages

  /** Smoothing factor of a period. */
  function Alpha(period: int): real
    requires period != -1
  {
    2.0 / (period as real + 1.0)
  }

  lemma AlphaIsShare(period: nat)
    requires period > 0
    ensures 0.0 < Alpha(period) <= 1.0
  {
    var d := period as real + 1.0;
    DivAtMost(2.0, d, 1.0);
    DivAtMost(2.0, d, 0.0);
  }

  function Blend(a: real, x: real, prev: real): real { a * x + (1.0 - a) * prev }

  function EmaAt(values: seq<real>, a: real, i: nat): real
    requires i < |values|
  {
    if i == 0 then values[0] else Blend(a, values[i], EmaAt(values, a, i - 1))
  }

  function EmaSeries(values: seq<real>, a: real): (r: seq<real>)
    ensures |r| == |values|
  {
    seq(|values|, i requires 0 <= i < |values| => EmaAt(values, a, i))
  }

  method CalculateEma(values: seq<real>, period: int) returns (r: seq<real>)
    requires period != -1 && values != []
    ensures r == EmaSeries(values, Alpha(period))
  {
    var alpha := Alpha(period);
    var result := EmaLoop(values, alpha);
    r := result;
  }

  /** The recursion of calculateEMA for a given factor. */
  method EmaLoop(values: seq<real>, alpha: real) returns (r: seq<real>)
    requires values != []
    ensures r == EmaSeries(values, alpha)
  {
    var beta := 1.0 - alpha;
    var result := new real[|values|](_ => 0.0);
    result[0] := values[0];
    for i := 1 to |values|
      invariant result[0] == values[0]
      invariant forall j :: 0 < j < i ==> result[j] == Blend(alpha, values[j], result[j - 1])
    {
      result[i] := alpha * values[i] + beta * result[i - 1];
    }
    r := result[..];
    EmaBySteps(values, alpha, r);
  }

  lemma EmaBySteps(values: seq<real>, a: real, r: seq<real>)
    requires |r| == |values| && values != [] && r[0] == values[0]
    requires forall j :: 0 < j < |values| ==> r[j] == Blend(a, values[j], r[j - 1])
    ensures r == EmaSeries(values, a)
  {
    forall i | 0 <= i < |values| ensures r[i] == EmaAt(values, a, i) { EmaByStepsAt(values, a, r, i); }
  }

  lemma {:induction false} EmaByStepsAt(values: seq<real>, a: real, r: seq<real>, i: nat)
    requires i < |r| == |values| && r[0] == values[0]
    requires forall j :: 0 < j < |values| ==> r[j] == Blend(a, values[j], r[j - 1])
    ensures r[i] == EmaAt(values, a, i)
  {
    if i > 0 { EmaByStepsAt(values, a, r, i - 1); }
  }

  /** Later inputs do not matter. */
  lemma {:induction false} EmaOfPrefix(values: seq<real>, longer: seq<real>, a: real, i: nat)
    requires i < |values| <= |longer| && longer[..|values|] == values
    ensures EmaAt(longer, a, i) == EmaAt(values, a, i)
  {
    assert longer[i] == longer[..|values|][i] == values[i] && longer[0] == longer[..|values|][0];
    if i > 0 { EmaOfPrefix(values, longer, a, i - 1); }
  }

  /** An average of a period in numbers: the first input, then two parts of the new one to period - 1 of the old. */
  lemma {:induction false} EmaExactly(values: seq<real>, period: int, i: nat)
    requires period != -1 && i < |values|
    ensures var r := EmaSeries(values, Alpha(period));
      if i == 0 then r[0] == values[0]
      else r[i] * (period + 1) as real == 2.0 * values[i] + r[i - 1] * (period - 1) as real
  {
    if i > 0 {
      DivMul(2.0, period as real + 1.0);
      TwoParts(Alpha(period), values[i], EmaAt(values, Alpha(period), i - 1), period as real);
    }
  }

  lemma TwoParts(a: real, x: real, prev: real, p: real)
    requires a * (p + 1.0) == 2.0
    ensures Blend(a, x, prev) * (p + 1.0) == 2.0 * x + prev * (p - 1.0)
  {
    var b, q := 1.0 - a, p + 1.0;
    assert b * q == p - 1.0;
    assert (a * x + b * prev) * q == a * q * x + b * q * prev;
  }

  function Power(b: real, n: nat): real { if n == 0 then 1.0 else Times(Power(b, n - 1), b) }

  /** Weight of input `j` in the n-th average: it falls off geometrically with age, the first input keeps the rest. */
  function EmaWeight(a: real, n: nat, j: nat): real
    requires j <= n
  {
    if j == 0 then Power(1.0 - a, n) else Times(Power(1.0 - a, n - j), a)
  }

  function Mix(values: seq<real>, a: real, n: nat, m: nat): real
    requires m <= n + 1 && m <= |values|
  {
    if m == 0 then 0.0 else Mix(values, a, n, m - 1) + Times(EmaWeight(a, n, m - 1), values[m - 1])
  }

  function WeightSum(a: real, n: nat, m: nat): real
    requires m <= n + 1
  {
    if m == 0 then 0.0 else WeightSum(a, n, m - 1) + EmaWeight(a, n, m - 1)
  }

  lemma TimesSwap(x: real, b: real, y: real)
    ensures Times(Times(x, b), y) == Times(Times(x, y), b)
  {
  }

  lemma WeightAges(a: real, n: nat, j: nat)
    requires j < n
    ensures EmaWeight(a, n, j) == Times(EmaWeight(a, n - 1, j), 1.0 - a)
  {
    if j > 0 { TimesSwap(Power(1.0 - a, n - 1 - j), 1.0 - a, a); }
  }

  lemma TermScales(d: real, w: real, v: real, b: real)
    ensures Times(d, b) + Times(Times(w, b), v) == Times(d + Times(w, v), b)
    ensures Times(d, b) + Times(w, b) == Times(d + w, b)
  {
    assert w * b * v == w * v * b;
  }

  lemma {:induction false} MixAges(values: seq<real>, a: real, n: nat, m: nat)
    requires m <= n && m <= |values| && n > 0
    ensures Mix(values, a, n, m) == Times(Mix(values, a, n - 1, m), 1.0 - a)
    ensures WeightSum(a, n, m) == Times(WeightSum(a, n - 1, m), 1.0 - a)
  {
    if m > 0 {
      MixAges(values, a, n, m - 1);
      WeightAges(a, n, m - 1);
      TermScales(Mix(values, a, n - 1, m - 1), EmaWeight(a, n - 1, m - 1), values[m - 1], 1.0 - a);
      TermScales(WeightSum(a, n - 1, m - 1), EmaWeight(a, n - 1, m - 1), values[m - 1], 1.0 - a);
    }
  }

  lemma {:induction false} WeightNonnegative(a: real, n: nat, j: nat)
    requires 0.0 <= a <= 1.0 && j <= n
    ensures 0.0 <= EmaWeight(a, n, j)
  {
    PowerNonnegative(1.0 - a, n - j);
    MulNonneg(Power(1.0 - a, n - j), a);
  }

  lemma {:induction false} PowerNonnegative(b: real, n: nat)
    requires 0.0 <= b
    ensures 0.0 <= Power(b, n)
  {
    if n > 0 {
      PowerNonnegative(b, n - 1);
      MulNonneg(Power(b, n - 1), b);
    }
  }

  lemma BlendOfMix(a: real, x: real, prev: real)
    ensures Blend(a, x, prev) == Times(prev, 1.0 - a) + Times(a, x)
    ensures Times(1.0, a) == a
  {
  }

  /** Every EMA value is the combination of all inputs so far with these weights, and the weights add up to one. */
  lemma {:induction false} EmaIsMix(values: seq<real>, a: real, n: nat)
    requires n < |values|
    ensures EmaAt(values, a, n) == Mix(values, a, n, n + 1) && WeightSum(a, n, n + 1) == 1.0
  {
    if n == 0 {
      EmaOfOne(values, a);
    } else {
      EmaIsMix(values, a, n - 1);
      MixAges(values, a, n, n);
      BlendOfMix(a, values[n], EmaAt(values, a, n - 1));
      BlendOfMix(a, 1.0, 1.0);
      assert EmaWeight(a, n, n) == a;
    }
  }

  lemma EmaOfOne(values: seq<real>, a: real)
    requires values != []
    ensures Mix(values, a, 0, 1) == values[0] && WeightSum(a, 0, 1) == 1.0
  {
    assert EmaWeight(a, 0, 0) == 1.0;
    assert Mix(values, a, 0, 0) == 0.0 && WeightSum(a, 0, 0) == 0.0;
  }

  lemma {:induction false} MixWithin(values: seq<real>, a: real, n: nat, m: nat, lo: real, hi: real)
    requires 0.0 <= a <= 1.0 && m <= n + 1 && m <= |values|
    requires forall j :: 0 <= j < m ==> lo <= values[j] <= hi
    ensures Times(WeightSum(a, n, m), lo) <= Mix(values, a, n, m) <= Times(WeightSum(a, n, m), hi)
  {
    if m > 0 {
      var w := EmaWeight(a, n, m - 1);
      MixWithin(values, a, n, m - 1, lo, hi);
      WeightNonnegative(a, n, m - 1);
      AddTerm(WeightSum(a, n, m - 1), w, values[m - 1], lo, hi);
    }
  }

  /** So an EMA value stays within any bounds of its inputs so far. */
  lemma {:induction false} EmaWithin(values: seq<real>, a: real, n: nat, lo: real, hi: real)
    requires 0.0 <= a <= 1.0 && n < |values|
    requires forall j :: 0 <= j <= n ==> lo <= values[j] <= hi
    ensures lo <= EmaAt(values, a, n) <= hi
  {
    EmaIsMix(values, a, n);
    MixWithin(values, a, n, n + 1, lo, hi);
  }

  // ---------------------------------------------------------------- the oscillator

  function OscillatorAt(line: seq<real>, fast: nat, slow: nat, i: nat): real
    requires 0 < fast && 0 < slow && i < |line|
  {
    EmaSeries(line, Alpha(fast))[i] - EmaSeries(line, Alpha(slow))[i]
  }

  function Oscillator(line: seq<real>, fast: nat, slow: nat): (r: seq<real>)
    requires 0 < fast && 0 < slow
    ensures |r| == |line|
  {
    seq(|line|, i requires 0 <= i < |line| => OscillatorAt(line, fast, slow, i))
  }

  /** ADOSC: fast minus slow EMA of exactly the AD line of the same candles. */
  method Adosc(candles: seq<Candle>, fast: int, slow: int, sequential: bool, warmup: nat) returns (r: Result<seq<real>>)
    ensures r.Err? <==> fast <= 0 || slow <= 0 || fast >= slow || SliceCandles(candles, sequential, warmup) == []
    ensures r.Ok? ==>
      var osc := Oscillator(AdLine(SliceCandles(candles, sequential, warmup)), fast, slow);
      r.value == if sequential then osc else [osc[|osc| - 1]]
  {
    if fast <= 0 || slow <= 0 || fast >= slow { return Err(InvalidArgument); }
    var cs := SliceCandles(candles, sequential, warmup);
    if cs == [] { return Err(InvalidArgument); }
    var multiplier := ComputeMultiplier(cs);
    var mfVolume := ProductWithVolume(cs, multiplier);
    var line := Cumulate(mfVolume);
    var adosc := FastMinusSlow(line, fast, slow);
    r := Ok(if sequential then adosc else [adosc[|cs| - 1]]);
  }

  /** The two averages of the line and their difference. */
  method FastMinusSlow(line: seq<real>, fast: nat, slow: nat) returns (r: seq<real>)
    requires 0 < fast && 0 < slow && line != []
    ensures r == Oscillator(line, fast, slow)
  {
    var fastEma := CalculateEma(line, fast);
    var slowEma := CalculateEma(line, slow);
    r := seq(|line|, i requires 0 <= i < |line| => fastEma[i] - slowEma[i]);
  }

  /** On a line that does not fall the fast average is not below the slow one, and above it where the line rises. */
  lemma {:induction false} OscillatorOnRisingLine(line: seq<real>, fast: nat, slow: nat, i: nat)
    requires 0 < fast < slow && i < |line| && forall j :: 0 < j <= i ==> line[j - 1] <= line[j]
    ensures 0.0 <= Oscillator(line, fast, slow)[i]
    ensures i > 0 && line[i - 1] < line[i] ==> 0.0 < Oscillator(line, fast, slow)[i]
  {
    if i > 0 {
      OscillatorOnRisingLine(line, fast, slow, i - 1);
      AlphaIsShare(fast);
      AlphaIsShare(slow);
      AlphaFalls(fast, slow);
      forall j | 0 <= j <= i - 1 ensures line[0] <= line[j] <= line[i - 1] {
        Climbs(line, 0, j);
        Climbs(line, j, i - 1);
      }
      EmaWithin(line, Alpha(fast), i - 1, line[0], line[i - 1]);
      FasterIsHigher(Alpha(fast), Alpha(slow), line[i],
                     EmaAt(line, Alpha(fast), i - 1), EmaAt(line, Alpha(slow), i - 1));
    }
  }

  lemma {:induction false} Climbs(line: seq<real>, a: nat, b: nat)
    requires a <= b < |line| && forall j :: 0 < j <= b ==> line[j - 1] <= line[j]
    ensures line[a] <= line[b]
  {
    if a < b { Climbs(line, a, b - 1); }
  }

  lemma AlphaFalls(fast: nat, slow: nat)
    requires 0 < fast < slow
    ensures Alpha(slow) < Alpha(fast)
  {
    var f, s := fast as real + 1.0, slow as real + 1.0;
    DivMul(2.0, f);
    DivMul(2.0, s);
    if Alpha(fast) <= Alpha(slow) {
      MulMono(Alpha(fast), Alpha(slow), f);
      MulStrict(f, s, Alpha(slow));
    }
  }

  /** `lo` is not above `hi`, and below it if `strictly`. */
  predicate Below(lo: real, hi: real, strictly: bool) { lo <= hi && (strictly ==> lo < hi) }

  lemma FasterIsHigher(a: real, b: real, x: real, e: real, g: real)
    requires 0.0 < b < a <= 1.0 && g <= e <= x
    ensures Below(Blend(b, x, g), Blend(a, x, e), 0.0 < x - e)
  {
    BlendGap(a, b, x, e, g);
    TwoGaps(Blend(b, x, g), Blend(a, x, e), 1.0 - b, e - g, a - b, x - e);
  }

  predicate Apart(lo: real, hi: real, s: real, t: real) { hi == lo + s + t }

  lemma TwoGaps(lo: real, hi: real, c: real, y: real, d: real, z: real)
    requires Apart(lo, hi, c * y, d * z) && 0.0 <= c && 0.0 <= y && 0.0 < d && 0.0 <= z
    ensures Below(lo, hi, 0.0 < z)
  {
    MulNonneg(c, y);
    MulNonneg(d, z);
    if 0.0 < z { MulPos(d, z); }
  }

  lemma BlendGap(a: real, b: real, x: real, e: real, g: real)
    ensures Apart(Blend(b, x, g), Blend(a, x, e), (1.0 - b) * (e - g), (a - b) * (x - e))
  {
  }

  // ---------------------------------------------------------------- bounds

  lemma MultiplierBounded(c: Candle)
    requires Low(c) <= Close(c) <= High(c)
    ensures -1.0 <= Multiplier(c) <= 1.0
  {
    if High(c) - Low(c) > EPSILON {
      DivAtMost((Close(c) - Low(c)) - (High(c) - Close(c)), High(c) - Low(c), 1.0);
      DivAtMost((Close(c) - Low(c)) - (High(c) - Close(c)), High(c) - Low(c), -1.0);
    }
  }

  lemma ShareBounded(m: real, v: real)
    requires -1.0 <= m <= 1.0 && 0.0 <= v
    ensures Abs(Times(m, v)) <= v
  {
    var t := Times(m, v);
    assert t <= v by { MulMono(m, 1.0, v); }
    assert -v <= t by { MulMono(-1.0, m, v); }
  }

  ghost predicate Sound(cs: seq<Candle>) {
    forall i :: 0 <= i < |cs| ==> Low(cs[i]) <= Close(cs[i]) <= High(cs[i]) && 0.0 <= Volume(cs[i])
  }

  /** The AD value never exceeds the volume traded so far. */
  lemma {:induction false} AdBounded(cs: seq<Candle>, i: nat)
    requires Sound(cs) && i < |cs|
    ensures Abs(AdLine(cs)[i]) <= SumOf(Volumes(cs)[..i + 1])
  {
    FlowsBounded(cs, i + 1);
    SumToIsSumOf(Volumes(cs), i + 1);
  }

  lemma {:induction false} FlowsBounded(cs: seq<Candle>, n: nat)
    requires Sound(cs) && n <= |cs|
    ensures Abs(SumTo(MoneyFlows(cs), n)) <= SumTo(Volumes(cs), n)
  {
    if n > 0 {
      FlowsBounded(cs, n - 1);
      MultiplierBounded(cs[n - 1]);
      ShareBounded(Multiplier(cs[n - 1]), Volume(cs[n - 1]));
    }
  }

  /** The oscillator never exceeds the range of the AD line so far. */
  lemma {:induction false} OscillatorBounded(cs: seq<Candle>, fast: nat, slow: nat, i: nat)
    requires 0 < fast && 0 < slow && i < |cs|
    ensures Abs(Oscillator(AdLine(cs), fast, slow)[i]) <= MaxOf(AdLine(cs)[..i + 1]) - MinOf(AdLine(cs)[..i + 1])
  {
    var line := AdLine(cs);
    var lo, hi := MinOf(line[..i + 1]), MaxOf(line[..i + 1]);
    forall j | 0 <= j <= i ensures lo <= line[j] <= hi { assert line[..i + 1][j] in line[..i + 1]; }
    OscillatorWithin(line, fast, slow, i, lo, hi);
  }

  lemma {:induction false} OscillatorWithin(line: seq<real>, fast: nat, slow: nat, i: nat, lo: real, hi: real)
    requires 0 < fast && 0 < slow && i < |line| && forall j :: 0 <= j <= i ==> lo <= line[j] <= hi
    ensures Abs(OscillatorAt(line, fast, slow, i)) <= hi - lo
  {
    AlphaIsShare(fast);
    AlphaIsShare(slow);
    EmaWithin(line, Alpha(fast), i, lo, hi);
    EmaWithin(line, Alpha(slow), i, lo, hi);
  }
}
