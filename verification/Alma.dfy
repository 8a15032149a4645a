/** The Arnaud Legoux moving average (src/Indicator.cpp) for any positive raw weights. */
module Alma {
  import opened Common
  import opened RealLemmas

  /** Weighted sum of the first `n` entries. */
  function Weighted(window: seq<real>, weights: seq<real>, n: nat): real
    requires n <= |window| && n <= |weights|
  {
    if n == 0 then 0.0 else Weighted(window, weights, n - 1) + Times(weights[n - 1], window[n - 1])
  }

  ghost predicate Positive(s: seq<real>) { forall i :: 0 <= i < |s| ==> 0.0 < s[i] }

  lemma {:induction false} PositiveSum(s: seq<real>, n: nat)
    requires Positive(s) && n <= |s|
    ensures 0.0 <= SumTo(s, n) && (n > 0 ==> 0.0 < SumTo(s, n))
  {
    if n > 0 { PositiveSum(s, n - 1); }
  }

  function Share(x: real, total: real): real
    requires total != 0.0
  {
    x / total
  }

  /** Weights divided by their sum. */
  function Normalised(raw: seq<real>): (w: seq<real>)
    requires raw != [] && SumTo(raw, |raw|) != 0.0
    ensures |w| == |raw|
  {
    seq(|raw|, i requires 0 <= i < |raw| => Share(raw[i], SumTo(raw, |raw|)))
  }

  lemma SharesAdd(a: real, b: real, t: real)
    requires t != 0.0
    ensures Share(a, t) + Share(b, t) == Share(a + b, t) && Share(t, t) == 1.0 && Share(0.0, t) == 0.0
  {
    DivMul(a, t);
    DivMul(b, t);
    var q := a / t + b / t;
    assert q * t == a / t * t + b / t * t;
    DivIs(a + b, t, q);
    DivIs(t, t, 1.0);
    DivIs(0.0, t, 0.0);
  }

  lemma {:induction false} SumOfShares(raw: seq<real>, w: seq<real>, total: real, n: nat)
    requires |w| == |raw| && n <= |raw| && total != 0.0
    requires forall i :: 0 <= i < |raw| ==> w[i] == Share(raw[i], total)
    ensures SumTo(w, n) == Share(SumTo(raw, n), total)
  {
    if n == 0 {
      SharesAdd(0.0, 0.0, total);
    } else {
      SumOfShares(raw, w, total, n - 1);
      SharesAdd(SumTo(raw, n - 1), raw[n - 1], total);
    }
  }

  /** The normalised weights are non-negative and add up to one. */
  lemma NormalisedAddsToOne(raw: seq<real>)
    requires raw != [] && Positive(raw)
    ensures SumTo(raw, |raw|) > 0.0
    ensures SumTo(Normalised(raw), |raw|) == 1.0
    ensures forall i :: 0 <= i < |raw| ==> 0.0 <= Normalised(raw)[i]
  {
    var total := SumTo(raw, |raw|);
    PositiveSum(raw, |raw|);
    SumOfShares(raw, Normalised(raw), total, |raw|);
    SharesAdd(0.0, 0.0, total);
    forall i | 0 <= i < |raw| ensures 0.0 <= Normalised(raw)[i] { DivNonneg(raw[i], total); }
  }

  // ---------------------------------------------------------------- windows

  /** detail::createSlidingWindows: all windows of the given size, none if the source is shorter. */
  method CreateSlidingWindows(source: seq<real>, windowSize: nat) returns (windows: seq<seq<real>>)
    ensures |windows| == if |source| < windowSize then 0 else |source| - windowSize + 1
    ensures forall i :: 0 <= i < |windows| ==> windows[i] == source[i..i + windowSize]
  {
    var n := |source|;
    if n < windowSize { return []; }
    var rows := new seq<real>[n - windowSize + 1];
    for i := 0 to n - windowSize + 1
      invariant forall k :: 0 <= k < i ==> rows[k] == source[k..k + windowSize]
    {
      var row := CopyWindow(source, windowSize, i);
      rows[i] := row;
    }
    windows := rows[..];
  }

  /** The inner copying loop. */
  method CopyWindow(source: seq<real>, windowSize: nat, i: nat) returns (r: seq<real>)
    requires i + windowSize <= |source|
    ensures r == source[i..i + windowSize]
  {
    var row := new real[windowSize](_ => 0.0);
    for j := 0 to windowSize
      invariant forall k :: 0 <= k < j ==> row[k] == source[i + k]
    {
      row[j] := source[i + j];
    }
    r := row[..];
  }

  // ---------------------------------------------------------------- the average

  function AlmaAt(source: seq<real>, weights: seq<real>, i: nat): Num
    requires i < |source|
  {
    var p := |weights|;
    if i + 1 < p then NaN else Val(Weighted(source[i + 1 - p..i + 1], weights, p))
  }

  function AlmaSeries(source: seq<real>, weights: seq<real>): (r: seq<Num>)
    ensures |r| == |source|
  {
    seq(|source|, i requires 0 <= i < |source| => AlmaAt(source, weights, i))
  }

  /** ALMA with the exponential weights taken as an input. */
  method Alma(source: seq<real>, period: int, sigma: real, offset: real, raw: seq<real>, sequential: bool)
    returns (r: Result<seq<Num>>)
    requires period > 0 ==> |raw| == period && Positive(raw)
    ensures r.Err? <==> period <= 0 || sigma <= 0.0 || offset < 0.0 || offset > 1.0 || |source| < period
    ensures r.Ok? ==> SumTo(raw, |raw|) > 0.0
    ensures r.Ok? ==> r.value == if sequential then AlmaSeries(source, Normalised(raw))
                                 else [AlmaAt(source, Normalised(raw), |source| - 1)]
  {
    if period <= 0 || sigma <= 0.0 || offset < 0.0 || offset > 1.0 { return Err(InvalidArgument); }
    var n := |source|;
    if n < period { return Err(InvalidArgument); }
    PositiveSum(raw, |raw|);
    var weights := Normalised(raw);
    var windows := CreateSlidingWindows(source, period);
    var series := AverageWindows(source, weights, windows);
    r := Ok(if sequential then series else [series[n - 1]]);
  }

  /** The loop over the windows. */
  method AverageWindows(source: seq<real>, weights: seq<real>, windows: seq<seq<real>>) returns (r: seq<Num>)
    requires 0 < |weights| <= |source| && |windows| == |source| - |weights| + 1
    requires forall i :: 0 <= i < |windows| ==> windows[i] == source[i..i + |weights|]
    ensures r == AlmaSeries(source, weights)
  {
    var period := |weights|;
    var result := new Num[|source|](_ => NaN);
    for i := 0 to |windows|
      invariant forall k :: 0 <= k < i + period - 1 ==> result[k] == AlmaAt(source, weights, k)
    {
      var weightedSum := WeightedLoop(windows[i], weights);
      ghost var last := i + period - 1;
      assert windows[i] == source[last + 1 - period..last + 1];
      result[i + period - 1] := Val(weightedSum);
    }
    r := result[..];
  }

  method WeightedLoop(window: seq<real>, weights: seq<real>) returns (weightedSum: real)
    requires |window| == |weights|
    ensures weightedSum == Weighted(window, weights, |weights|)
  {
    weightedSum := 0.0;
    for j := 0 to |weights|
      invariant weightedSum == Weighted(window, weights, j)
    {
      weightedSum := weightedSum + Times(weights[j], window[j]);
    }
  }

  // ---------------------------------------------------------------- bounds

  /** Which weight meets which entry: moving entry `k` of the window moves the average by that much times weight `k`. */
  lemma {:induction false} AlmaMoves(source: seq<real>, moved: seq<real>, raw: seq<real>, i: nat, k: nat, d: real)
    requires i < |source| == |moved| && k < |raw| <= i + 1 && Positive(raw) && SumTo(raw, |raw|) > 0.0
    requires forall j :: i + 1 - |raw| <= j <= i ==>
      moved[j] == if j == i + 1 - |raw| + k then source[j] + d else source[j]
    ensures AlmaAt(moved, Normalised(raw), i).Val? && AlmaAt(source, Normalised(raw), i).Val?
    ensures HasShare(AlmaAt(moved, Normalised(raw), i).v - AlmaAt(source, Normalised(raw), i).v,
                     d, raw[k], SumTo(raw, |raw|))
  {
    var p, w := |raw|, Normalised(raw);
    var a, b := source[i + 1 - p..i + 1], moved[i + 1 - p..i + 1];
    WeightedMoves(a, b, w, p, k, d);
    DivMul(raw[k], SumTo(raw, p));
    WeightTimesTotal(AlmaAt(moved, w, i).v - AlmaAt(source, w, i).v, w[k], d, SumTo(raw, p), raw[k]);
  }

  /** `x` is the share of `d` that a raw weight has in the total of all. */
  predicate HasShare(x: real, d: real, weight: real, total: real) { x * total == d * weight }

  lemma WeightTimesTotal(x: real, w: real, d: real, total: real, r: real)
    requires x == Times(w, d) && w * total == r
    ensures HasShare(x, d, r, total)
  {
    assert w * d * total == d * (w * total);
  }

  lemma {:induction false} WeightedMoves(a: seq<real>, b: seq<real>, weights: seq<real>, n: nat, k: nat, d: real)
    requires n <= |a| == |b| == |weights| && k < |a|
    requires forall j :: 0 <= j < |a| ==> b[j] == if j == k then a[j] + d else a[j]
    ensures Weighted(b, weights, n) - Weighted(a, weights, n) == if k < n then Times(weights[k], d) else 0.0
  {
    if n > 0 {
      WeightedMoves(a, b, weights, n - 1, k, d);
      if k == n - 1 { TimesAdds(weights[k], a[k], d); }
    }
  }

  lemma TimesAdds(w: real, a: real, d: real)
    ensures Times(w, a + d) == Times(w, a) + Times(w, d)
  {
  }

  lemma {:induction false} WeightedWithin(window: seq<real>, weights: seq<real>, n: nat, lo: real, hi: real)
    requires n <= |window| == |weights|
    requires forall i :: 0 <= i < n ==> lo <= window[i] <= hi && 0.0 <= weights[i]
    ensures Times(SumTo(weights, n), lo) <= Weighted(window, weights, n) <= Times(SumTo(weights, n), hi)
  {
    if n > 0 {
      WeightedWithin(window, weights, n - 1, lo, hi);
      AddTerm(SumTo(weights, n - 1), weights[n - 1], window[n - 1], lo, hi);
    }
  }

  /**
   * The average is defined exactly from index period-1 on, and lies within any bounds of its
   * window; on a constant window it is that constant.
   */
  lemma {:induction false} AlmaWithinWindow(source: seq<real>, raw: seq<real>, i: nat, lo: real, hi: real)
    requires i < |source| && raw != [] && Positive(raw)
    requires forall j :: 0 <= j <= i < j + |raw| ==> lo <= source[j] <= hi
    ensures SumTo(raw, |raw|) > 0.0
    ensures AlmaAt(source, Normalised(raw), i).Val? <==> i + 1 >= |raw|
    ensures i + 1 >= |raw| ==> lo <= AlmaAt(source, Normalised(raw), i).v <= hi
  {
    NormalisedAddsToOne(raw);
    var p := |raw|;
    if i + 1 >= p {
      WeightedWithin(source[i + 1 - p..i + 1], Normalised(raw), p, lo, hi);
    }
  }
}
