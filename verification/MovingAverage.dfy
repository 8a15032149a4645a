/**
 * Sliding-window averages (src/Indicator.cpp): the NaN-skipping `sma`, the strict `SMA`,
 * momentum and the AC oscillator.
 */
module MovingAverage {
  import opened Common
  import opened Candles
  import RealLemmas

  // ---------------------------------------------------------------- windows

  function ValueOf(x: Num): real { if x.Val? then x.v else 0.0 }

  function CountOf(x: Num): nat { if x.Val? then 1 else 0 }

  /** Sum of the numbers in a window. */
  function ValidSum(w: seq<Num>): real {
    if w == [] then 0.0 else ValueOf(w[0]) + ValidSum(w[1..])
  }

  /** How many entries of a window are numbers. */
  function ValidCount(w: seq<Num>): nat {
    if w == [] then 0 else CountOf(w[0]) + ValidCount(w[1..])
  }

  ghost predicate AllValid(w: seq<Num>) { forall i :: 0 <= i < |w| ==> w[i].Val? }

  /** Mean of the numbers in a window, NaN if it has none. */
  function Mean(w: seq<Num>): Num {
    if ValidCount(w) == 0 then NaN else Val(ValidSum(w) / ValidCount(w) as real)
  }

  function Window(s: seq<Num>, period: nat, i: nat): seq<Num>
    requires i < |s| && period <= i + 1
  {
    s[i + 1 - period..i + 1]
  }

  lemma {:induction false} ValidConcat(a: seq<Num>, b: seq<Num>)
    ensures ValidSum(a + b) == ValidSum(a) + ValidSum(b)
    ensures ValidCount(a + b) == ValidCount(a) + ValidCount(b)
  {
    if a == [] {
      assert a + b == b;
    } else {
      assert (a + b)[1..] == a[1..] + b;
      ValidConcat(a[1..], b);
    }
  }

  lemma ValidOne(x: Num)
    ensures ValidSum([x]) == ValueOf(x) && ValidCount([x]) == CountOf(x)
  {
    assert [x][1..] == [];
  }

  /** Sum and count over the first `n` entries: a window's are differences of two of these. */
  function SumTo(s: seq<Num>, n: nat): real
    requires n <= |s|
  {
    if n == 0 then 0.0 else SumTo(s, n - 1) + ValueOf(s[n - 1])
  }

  function CountTo(s: seq<Num>, n: nat): nat
    requires n <= |s|
  {
    if n == 0 then 0 else CountTo(s, n - 1) + CountOf(s[n - 1])
  }

  lemma {:induction false} Between(s: seq<Num>, a: nat, b: nat)
    requires a <= b <= |s|
    ensures ValidSum(s[a..b]) == SumTo(s, b) - SumTo(s, a)
    ensures ValidCount(s[a..b]) == CountTo(s, b) - CountTo(s, a)
  {
    if a < b {
      Between(s, a, b - 1);
      assert s[a..b] == s[a..b - 1] + [s[b - 1]];
      ValidConcat(s[a..b - 1], [s[b - 1]]);
      ValidOne(s[b - 1]);
    } else {
      assert s[a..b] == [];
    }
  }

  lemma {:induction false} CountIsPositive(w: seq<Num>)
    ensures ValidCount(w) > 0 <==> exists i :: 0 <= i < |w| && w[i].Val?
    ensures ValidCount(w) <= |w|
    ensures AllValid(w) ==> ValidCount(w) == |w|
  {
    if w != [] {
      CountIsPositive(w[1..]);
      if i :| 0 <= i < |w[1..]| && w[1..][i].Val? { assert w[i + 1].Val?; }
      if i :| 0 <= i < |w| && w[i].Val? { assert i == 0 || w[1..][i - 1].Val?; }
    }
  }

  // ---------------------------------------------------------------- sma

  /** The naive definition: from index period-1 on, the mean of the numbers among the last `period` entries. */
  function SmaAt(s: seq<Num>, period: nat, i: nat): Num
    requires i < |s|
  {
    if i + 1 < period then NaN else Mean(Window(s, period, i))
  }

  function SmaSeq(s: seq<Num>, period: nat): (r: seq<Num>)
    ensures |r| == |s|
  {
    seq(|s|, i requires 0 <= i < |s| => SmaAt(s, period, i))
  }

  /** What the loop writes, if anything, for a running sum and count. */
  function Entry(sum: real, count: int): Num { if count > 0 then Val(sum / count as real) else NaN }

  /** The entry the loop computes at `i`. */
  function EntryAt(s: seq<Num>, period: nat, i: nat): Num
    requires i < |s|
  {
    if i + 1 < period then NaN
    else Entry(SumTo(s, i + 1) - SumTo(s, i + 1 - period), CountTo(s, i + 1) - CountTo(s, i + 1 - period))
  }

  lemma EntryIsMean(s: seq<Num>, period: nat, i: nat)
    requires i < |s|
    ensures SmaAt(s, period, i) == EntryAt(s, period, i)
  {
    if period <= i + 1 { Between(s, i + 1 - period, i + 1); }
  }

  method Sma(arr: seq<Num>, period: nat) returns (r: seq<Num>)
    ensures r == SmaSeq(arr, period)
  {
    if |arr| < period {
      r := seq(|arr|, _ => NaN);
    } else {
      r := SlidingMeans(arr, period);
    }
    forall i | 0 <= i < |arr| ensures r[i] == SmaAt(arr, period, i) { EntryIsMean(arr, period, i); }
  }

  /** The first window and the sliding loop of `sma`. */
  method SlidingMeans(arr: seq<Num>, period: nat) returns (r: seq<Num>)
    requires period <= |arr|
    ensures |r| == |arr|
    ensures forall i :: 0 <= i < |arr| ==> r[i] == EntryAt(arr, period, i)
  {
    var n := |arr|;
    var result := new Num[n](_ => NaN);
    var sum, validCount: int := 0.0, 0;
    for i := 0 to period
      invariant sum == SumTo(arr, i) && validCount == CountTo(arr, i)
      invariant forall j :: 0 <= j < n ==> result[j] == NaN
    {
      if arr[i].Val? {
        sum := sum + arr[i].v;
        validCount := validCount + 1;
      }
    }
    if validCount > 0 {
      result[period - 1] := Entry(sum, validCount);
    }
    for i := period to n
      invariant sum == SumTo(arr, i) - SumTo(arr, i - period)
      invariant validCount == CountTo(arr, i) - CountTo(arr, i - period)
      invariant forall j :: 0 <= j < i ==> result[j] == EntryAt(arr, period, j)
      invariant forall j :: i <= j < n ==> result[j] == NaN
    {
      if arr[i - period].Val? {
        sum := sum - arr[i - period].v;
        validCount := validCount - 1;
      }
      if arr[i].Val? {
        sum := sum + arr[i].v;
        validCount := validCount + 1;
      }
      if validCount > 0 {
        result[i] := Entry(sum, validCount);
      }
    }
    r := result[..];
  }

  /** An entry is a number exactly when its window is complete and holds a number. */
  lemma SmaDefinedExactly(s: seq<Num>, period: nat, i: nat)
    requires i < |s|
    ensures SmaAt(s, period, i).Val? <==>
      period <= i + 1 && exists j :: i + 1 - period <= j <= i && s[j].Val?
  {
    if period <= i + 1 {
      var w := Window(s, period, i);
      CountIsPositive(w);
      if j :| i + 1 - period <= j <= i && s[j].Val? { assert w[j - (i + 1 - period)].Val?; }
    }
  }

  lemma {:induction false} SumMoves(w: seq<Num>, moved: seq<Num>, k: nat, d: real)
    requires k < |w| == |moved| && w[k].Val? && moved[k] == Val(w[k].v + d)
    requires forall j :: 0 <= j < |w| && j != k ==> moved[j] == w[j]
    ensures ValidSum(moved) == ValidSum(w) + d && ValidCount(moved) == ValidCount(w) > 0
  {
    SplitAt(w, k);
    SplitAt(moved, k);
    assert moved[..k] == w[..k] && moved[k + 1..] == w[k + 1..];
  }

  lemma SplitAt(w: seq<Num>, k: nat)
    requires k < |w|
    ensures ValidSum(w) == ValidSum(w[..k]) + ValueOf(w[k]) + ValidSum(w[k + 1..])
    ensures ValidCount(w) == ValidCount(w[..k]) + CountOf(w[k]) + ValidCount(w[k + 1..])
  {
    assert w == w[..k] + ([w[k]] + w[k + 1..]);
    ValidConcat(w[..k], [w[k]] + w[k + 1..]);
    ValidConcat([w[k]], w[k + 1..]);
    ValidOne(w[k]);
  }

  /** `x` is the n-th part of `d`. */
  predicate IsShare(x: real, n: nat, d: real) { x * n as real == d }

  /** A number of the window that moves by `d` moves the mean by `d` over how many numbers the window holds. */
  lemma {:induction false} SmaMoves(s: seq<Num>, moved: seq<Num>, period: nat, i: nat, k: nat, d: real)
    requires i < |s| == |moved| && i + 1 - period <= k <= i && period <= i + 1
    requires s[k].Val? && moved[k] == Val(s[k].v + d)
    requires forall j :: i + 1 - period <= j <= i && j != k ==> moved[j] == s[j]
    ensures SmaAt(s, period, i).Val? && SmaAt(moved, period, i).Val?
    ensures IsShare(SmaAt(moved, period, i).v - SmaAt(s, period, i).v, ValidCount(Window(s, period, i)), d)
  {
    var a, b := Window(s, period, i), Window(moved, period, i);
    SumMoves(a, b, k - (i + 1 - period), d);
    QuotientMoves(ValidSum(a), ValidSum(b), d, ValidCount(a));
  }

  lemma QuotientMoves(a: real, b: real, d: real, count: nat)
    requires count > 0 && b == a + d
    ensures IsShare(b / count as real - a / count as real, count, d)
  {
    var n := count as real;
    RealLemmas.DivMul(a, n);
    RealLemmas.DivMul(b, n);
    assert (b / n - a / n) * n == b / n * n - a / n * n;
  }

  /** The mean lies within any bounds of the numbers in its window. */
  lemma {:induction false} SmaWithin(s: seq<Num>, period: nat, i: nat, lo: real, hi: real)
    requires i < |s| && SmaAt(s, period, i).Val?
    requires forall j :: 0 <= j <= i < j + period && s[j].Val? ==> lo <= s[j].v <= hi
    ensures lo <= SmaAt(s, period, i).v <= hi
  {
    var w := Window(s, period, i);
    SumWithin(w, lo, hi);
    RealLemmas.DivAtMost(ValidSum(w), ValidCount(w) as real, lo);
    RealLemmas.DivAtMost(ValidSum(w), ValidCount(w) as real, hi);
  }

  lemma {:induction false} SumWithin(w: seq<Num>, lo: real, hi: real)
    requires forall j :: 0 <= j < |w| && w[j].Val? ==> lo <= w[j].v <= hi
    ensures lo * ValidCount(w) as real <= ValidSum(w) <= hi * ValidCount(w) as real
  {
    if w != [] { SumWithin(w[1..], lo, hi); }
  }

  // ---------------------------------------------------------------- SMA

  /** No NaN among the first `n` entries. */
  predicate CleanTo(s: seq<Num>, n: nat)
    requires n <= |s|
  {
    n == 0 || (CleanTo(s, n - 1) && s[n - 1].Val?)
  }

  lemma {:induction false} CleanToMeans(s: seq<Num>, n: nat)
    requires n <= |s|
    ensures CleanTo(s, n) <==> forall i :: 0 <= i < n ==> s[i].Val?
  {
    if n > 0 { CleanToMeans(s, n - 1); }
  }

  /** The strict average: a NaN anywhere up to the entry spoils it and every later one. */
  function StrictAt(s: seq<Num>, period: nat, i: nat): Num
    requires i < |s| && period > 0
  {
    if i + 1 < period || !CleanTo(s, i + 1) then NaN
    else Val(ValidSum(Window(s, period, i)) / period as real)
  }

  function StrictSeq(s: seq<Num>, period: nat): (r: seq<Num>)
    requires period > 0
    ensures |r| == |s|
  {
    seq(|s|, i requires 0 <= i < |s| => StrictAt(s, period, i))
  }

  /** A running sum over Num: the difference of sums, NaN once any entry so far was NaN. */
  function Running(s: seq<Num>, a: nat, b: nat): Num
    requires a <= b <= |s|
  {
    if CleanTo(s, b) then Val(SumTo(s, b) - SumTo(s, a)) else NaN
  }

  lemma RunningSlides(s: seq<Num>, period: nat, i: nat)
    requires 0 < period <= i < |s|
    ensures Running(s, i + 1 - period, i + 1) == Sub(Add(Running(s, i - period, i), s[i]), s[i - period])
  {
    CleanToMeans(s, i);
  }

  function Quotient(sum: Num, period: nat): Num
    requires period > 0
  {
    if sum.Val? then Val(sum.v / period as real) else NaN
  }

  /** The quotient the loop computes at `i`. */
  function QuotientAt(s: seq<Num>, period: nat, i: nat): Num
    requires i < |s| && 0 < period
  {
    if i + 1 < period then NaN else Quotient(Running(s, i + 1 - period, i + 1), period)
  }

  lemma QuotientIsStrict(s: seq<Num>, period: nat, i: nat)
    requires i < |s| && 0 < period
    ensures StrictAt(s, period, i) == QuotientAt(s, period, i)
  {
    if period <= i + 1 { Between(s, i + 1 - period, i + 1); }
  }

  method StrictSma(source: seq<Num>, period: int, sequential: bool) returns (r: Result<seq<Num>>)
    ensures r.Err? <==> period <= 0 || |source| < period
    ensures r.Ok? ==>
      r.value == if sequential then StrictSeq(source, period) else [StrictAt(source, period, |source| - 1)]
  {
    if period <= 0 { return Err(InvalidArgument); }
    var size := |source|;
    if size < period { return Err(InvalidArgument); }
    var result := SlidingQuotients(source, period);
    forall i | 0 <= i < size ensures result[i] == StrictAt(source, period, i) { QuotientIsStrict(source, period, i); }
    r := Ok(if sequential then result else [result[size - 1]]);
  }

  /** The first window and the sliding loop of `SMA`. */
  method SlidingQuotients(source: seq<Num>, period: nat) returns (r: seq<Num>)
    requires 0 < period <= |source|
    ensures |r| == |source|
    ensures forall i :: 0 <= i < |source| ==> r[i] == QuotientAt(source, period, i)
  {
    var size := |source|;
    var result := new Num[size](_ => NaN);
    var sum := Val(0.0);
    for i := 0 to period
      invariant sum == Running(source, 0, i)
      invariant forall j :: 0 <= j < size ==> result[j] == NaN
    {
      sum := Add(sum, source[i]);
    }
    result[period - 1] := Quotient(sum, period);
    for i := period to size
      invariant sum == Running(source, i - period, i)
      invariant forall j :: 0 <= j < i ==> result[j] == QuotientAt(source, period, j)
      invariant forall j :: i <= j < size ==> result[j] == NaN
    {
      RunningSlides(source, period, i);
      sum := Sub(Add(sum, source[i]), source[i - period]);
      result[i] := Quotient(sum, period);
    }
    r := result[..];
  }

  lemma {:induction false} StrictOnValid(s: seq<Num>, period: nat, i: nat)
    requires i < |s| && 0 < period <= i + 1 && CleanTo(s, i + 1)
    ensures StrictAt(s, period, i) == SmaAt(s, period, i)
  {
    var w := Window(s, period, i);
    CleanToMeans(s, i + 1);
    assert forall j :: 0 <= j < |w| ==> w[j] == s[i + 1 - period + j];
    CountIsPositive(w);
  }

  /**
   * The two averages agree at an entry exactly when no NaN precedes it, or its window holds no
   * number, or is incomplete.
   */
  lemma {:induction false} StrictAgreesExactly(s: seq<Num>, period: nat, i: nat)
    requires i < |s| && period > 0
    ensures StrictAt(s, period, i) == SmaAt(s, period, i) <==>
      || i + 1 < period
      || (forall j :: 0 <= j <= i ==> s[j].Val?)
      || (forall j :: i + 1 - period <= j <= i ==> s[j].NaN?)
  {
    if period <= i + 1 {
      CleanToMeans(s, i + 1);
      if CleanTo(s, i + 1) {
        StrictOnValid(s, period, i);
      } else {
        SmaDefinedExactly(s, period, i);
      }
    }
  }

  // ---------------------------------------------------------------- momentum and the AC oscillator

  function MomentumAt(s: seq<Num>, period: nat, i: nat): Num
    requires i < |s|
  {
    if |s| < 2 || i < period then NaN else Sub(s[i], s[i - period])
  }

  method Momentum(arr: seq<Num>, period: nat) returns (r: seq<Num>)
    ensures |r| == |arr|
    ensures forall i :: 0 <= i < |arr| ==> r[i] == MomentumAt(arr, period, i)
  {
    var result := new Num[|arr|](_ => NaN);
    if |arr| < 2 { return result[..]; }
    var i := period;
    while i < |arr|
      invariant period <= i
      invariant forall j :: 0 <= j < i && j < |arr| ==> result[j] == MomentumAt(arr, period, j)
      invariant forall j :: i <= j < |arr| ==> result[j] == NaN
    {
      result[i] := Sub(arr[i], arr[i - period]);
      i := i + 1;
    }
    r := result[..];
  }

  function VectorSub(a: seq<Num>, b: seq<Num>): (r: seq<Num>)
    requires |a| == |b|
    ensures |r| == |a|
  {
    seq(|a|, i requires 0 <= i < |a| => Sub(a[i], b[i]))
  }

  /** (high + low) / 2 of every candle. */
  function MedianPrices(cs: seq<Candle>): (r: seq<Num>)
    ensures |r| == |cs| && AllValid(r)
  {
    seq(|cs|, i requires 0 <= i < |cs| => Val((High(cs[i]) + Low(cs[i])) / 2.0))
  }

  /** Awesome oscillator. */
  function Ao(median: seq<Num>): (r: seq<Num>)
    ensures |r| == |median|
  {
    VectorSub(SmaSeq(median, 5), SmaSeq(median, 34))
  }

  /** Accelerator oscillator. */
  function Ac(median: seq<Num>): (r: seq<Num>)
    ensures |r| == |median|
  {
    VectorSub(Ao(median), SmaSeq(Ao(median), 5))
  }

  function AcChange(median: seq<Num>): (r: seq<Num>)
    ensures |r| == |median|
  {
    seq(|median|, i requires 0 <= i < |median| => MomentumAt(Ac(median), 1, i))
  }

  datatype AcResult = AcResult(osc: seq<Num>, change: seq<Num>)

  method Acosc(candles: seq<Candle>, sequential: bool, warmup: nat) returns (r: Result<AcResult>)
    ensures r.Err? <==> |SliceCandles(candles, sequential, warmup)| < 34
    ensures r.Ok? ==>
      var median := MedianPrices(SliceCandles(candles, sequential, warmup));
      r.value == if sequential then AcResult(Ac(median), AcChange(median))
                 else AcResult([Ac(median)[|median| - 1]], [AcChange(median)[|median| - 1]])
  {
    var sliced := SliceCandles(candles, sequential, warmup);
    if |sliced| < 34 { return Err(InvalidArgument); }
    var median := MedianPrices(sliced);
    var sma5 := Sma(median, 5);
    var sma34 := Sma(median, 34);
    var ao := VectorSub(sma5, sma34);
    var sma5ao := Sma(ao, 5);
    var ac := VectorSub(ao, sma5ao);
    var change := Momentum(ac, 1);
    assert change == AcChange(median);
    if sequential { return Ok(AcResult(ac, change)); }
    r := Ok(AcResult([ac[|ac| - 1]], [change[|change| - 1]]));
  }

  lemma AoDefinedExactly(median: seq<Num>, i: nat)
    requires AllValid(median) && i < |median|
    ensures Ao(median)[i].Val? <==> i >= 33
  {
    SmaDefinedExactly(median, 5, i);
    SmaDefinedExactly(median, 34, i);
    assert median[i].Val?;
  }

  lemma {:induction false} AcValueDefined(median: seq<Num>, i: nat)
    requires AllValid(median) && i < |median|
    ensures Ac(median)[i].Val? <==> i >= 33
  {
    AoDefinedExactly(median, i);
    SmaDefinedExactly(Ao(median), 5, i);
  }

  /** On valid candles the oscillator is defined exactly from index 33 on, its change exactly from 34 on. */
  lemma {:induction false} AcDefinedExactly(median: seq<Num>, i: nat)
    requires AllValid(median) && i < |median|
    ensures Ac(median)[i].Val? <==> i >= 33
    ensures AcChange(median)[i].Val? <==> i >= 34
  {
    AcValueDefined(median, i);
    if i > 0 { AcValueDefined(median, i - 1); }
  }

  /** In the candle's own numbers: twice the median price is high plus low. */
  lemma MedianExactly(cs: seq<Candle>, i: nat)
    requires i < |cs|
    ensures MedianPrices(cs)[i].Val? && 2.0 * MedianPrices(cs)[i].v == High(cs[i]) + Low(cs[i])
  {
  }

  /** The change is this bar's value less the previous one's. */
  lemma {:induction false} ChangeExactly(median: seq<Num>, i: nat)
    requires AllValid(median) && 34 <= i < |median|
    ensures Ac(median)[i].Val? && Ac(median)[i - 1].Val?
    ensures AcChange(median)[i] == Val(Ac(median)[i].v - Ac(median)[i - 1].v)
  {
    AcValueDefined(median, i);
    AcValueDefined(median, i - 1);
  }

  /** Two price series that part at bar `i`, by `d`. */
  ghost predicate PartAt(median: seq<Num>, moved: seq<Num>, i: nat, d: real) {
    && i < |median| == |moved| && AllValid(median) && AllValid(moved)
    && (forall j :: 0 <= j < i ==> moved[j] == median[j]) && moved[i].v == median[i].v + d
  }

  lemma {:induction false} AoMoves(median: seq<Num>, moved: seq<Num>, i: nat, d: real)
    requires PartAt(median, moved, i, d) && 33 <= i
    ensures forall j :: 0 <= j < i ==> Ao(moved)[j] == Ao(median)[j]
    ensures Ao(median)[i].Val? && Ao(moved)[i].Val? && (Ao(moved)[i].v - Ao(median)[i].v) * 170.0 == 29.0 * d
  {
    forall j | 0 <= j < i ensures Ao(moved)[j] == Ao(median)[j] {
      if j >= 4 { assert Window(moved, 5, j) == Window(median, 5, j); }
      if j >= 33 { assert Window(moved, 34, j) == Window(median, 34, j); }
    }
    AoDefinedExactly(median, i);
    AoDefinedExactly(moved, i);
    SmaMoves(median, moved, 5, i, i, d);
    SmaMoves(median, moved, 34, i, i, d);
    CountIsPositive(Window(median, 5, i));
    CountIsPositive(Window(median, 34, i));
  }

  /** How many of the last five values of the awesome oscillator are numbers. */
  lemma {:induction false} RecentAo(median: seq<Num>, i: nat)
    requires AllValid(median) && 33 <= i < |median|
    ensures ValidCount(Window(Ao(median), 5, i)) == Min(5, i - 32)
  {
    var ao := Ao(median);
    forall j | 0 <= j < |ao| ensures ao[j].Val? <==> j >= 33 { AoDefinedExactly(median, j); }
    FromThirtyThree(ao, i);
  }

  lemma {:induction false} FromThirtyThree(ao: seq<Num>, i: nat)
    requires 33 <= i < |ao| && forall j :: 0 <= j < |ao| ==> (ao[j].Val? <==> j >= 33)
    ensures ValidCount(Window(ao, 5, i)) == Min(5, i - 32)
  {
    var cut := if i >= 37 then i - 4 else 33;
    var before, from := ao[i - 4..cut], ao[cut..i + 1];
    assert Window(ao, 5, i) == before + from;
    ValidConcat(before, from);
    NoNumbers(before);
    CountIsPositive(from);
  }

  /** `x` is 29/170 of `d`, less an n-th part of that. */
  predicate MovesByShare(x: real, n: real, d: real) { x * (170.0 * n) == 29.0 * d * (n - 1.0) }

  /**
   * A rise of the median price by `d` lifts the oscillator of that bar, by 29/170 d less its
   * share in the five-bar mean.
   */
  lemma {:induction false} AcMoves(median: seq<Num>, moved: seq<Num>, i: nat, d: real)
    requires PartAt(median, moved, i, d) && 33 <= i
    ensures Ac(median)[i].Val? && Ac(moved)[i].Val?
    ensures MovesByShare(Ac(moved)[i].v - Ac(median)[i].v, Min(5, i - 32) as real, d)
  {
    AcValueDefined(median, i);
    AcValueDefined(moved, i);
    var e, f, n := AcMovesBy(median, moved, i, d);
    ShareTaken(Ac(moved)[i].v - Ac(median)[i].v, e, f, n, d);
  }

  /** The move of the oscillator: that of the awesome oscillator less that of its mean. */
  lemma {:induction false} AcMovesBy(median: seq<Num>, moved: seq<Num>, i: nat, d: real)
    returns (e: real, f: real, n: nat)
    requires PartAt(median, moved, i, d) && 33 <= i && Ac(median)[i].Val? && Ac(moved)[i].Val?
    ensures n == Min(5, i - 32) && Ac(moved)[i].v - Ac(median)[i].v == e - f
    ensures e * 170.0 == 29.0 * d && IsShare(f, n, e)
  {
    AoMoves(median, moved, i, d);
    RecentAo(median, i);
    n := ValidCount(Window(Ao(median), 5, i));
    e := Ao(moved)[i].v - Ao(median)[i].v;
    SmaMoves(Ao(median), Ao(moved), 5, i, i, e);
    f := SmaAt(Ao(moved), 5, i).v - SmaAt(Ao(median), 5, i).v;
  }

  lemma ShareTaken(x: real, e: real, f: real, count: nat, d: real)
    requires x == e - f && IsShare(f, count, e) && e * 170.0 == 29.0 * d
    ensures MovesByShare(x, count as real, d)
  {
    var n := count as real;
    assert (e - f) * (170.0 * n) == e * 170.0 * n - f * n * 170.0;
  }

  /** On candles: raising high plus low of bar `i` by `h`. */
  lemma {:induction false} AcOnCandles(cs: seq<Candle>, raised: seq<Candle>, i: nat, h: real)
    requires 33 <= i < |cs| == |raised| && forall j :: 0 <= j < i ==> raised[j] == cs[j]
    requires High(raised[i]) + Low(raised[i]) == High(cs[i]) + Low(cs[i]) + h
    ensures Ac(MedianPrices(cs))[i].Val? && Ac(MedianPrices(raised))[i].Val?
    ensures MovesByShare(Ac(MedianPrices(raised))[i].v - Ac(MedianPrices(cs))[i].v, Min(5, i - 32) as real, h / 2.0)
  {
    AcMoves(MedianPrices(cs), MedianPrices(raised), i, h / 2.0);
  }

  /** The first defined value is always zero: its five-bar window holds the oscillator's first value alone. */
  lemma AcStartsAtZero(median: seq<Num>)
    requires AllValid(median) && |median| > 33
    ensures Ac(median)[33] == Val(0.0)
  {
    var ao := Ao(median);
    forall j | 29 <= j <= 33 ensures ao[j].Val? <==> j == 33 { AoDefinedExactly(median, j); }
    var w := Window(ao, 5, 33);
    assert w == [ao[29], ao[30], ao[31], ao[32]] + [ao[33]];
    ValidConcat([ao[29], ao[30], ao[31], ao[32]], [ao[33]]);
    NoNumbers([ao[29], ao[30], ao[31], ao[32]]);
    ValidOne(ao[33]);
  }

  lemma {:induction false} NoNumbers(w: seq<Num>)
    requires forall i :: 0 <= i < |w| ==> w[i].NaN?
    ensures ValidSum(w) == 0.0 && ValidCount(w) == 0
  {
    if w != [] { NoNumbers(w[1..]); }
  }

  /** AO, computed with the strict averages, is the same oscillator. */
  lemma AoWithStrictAverages(median: seq<Num>, i: nat)
    requires AllValid(median) && i < |median|
    ensures Sub(StrictAt(median, 5, i), StrictAt(median, 34, i)) == Ao(median)[i]
  {
    StrictAgreesExactly(median, 5, i);
    StrictAgreesExactly(median, 34, i);
  }
}
