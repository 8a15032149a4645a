/** Candle rows, their aggregation to longer timeframes, and generation from close prices (src/Candle.cpp). */
module Candles {
  import opened Common
  import opened RealLemmas

  const COLUMNS: nat := 6
  const MINUTE: real := 60000.0

  /** A matrix row: timestamp, open, close, high, low, volume. */
  type Candle = c: seq<real> | |c| == COLUMNS witness [0.0, 0.0, 0.0, 0.0, 0.0, 0.0]

  function Timestamp(c: Candle): real { c[0] }
  function Open(c: Candle): real { c[1] }
  function Close(c: Candle): real { c[2] }
  function High(c: Candle): real { c[3] }
  function Low(c: Candle): real { c[4] }
  function Volume(c: Candle): real { c[5] }

  /** low <= open, close <= high. */
  predicate WellFormed(c: Candle) {
    Low(c) <= Open(c) <= High(c) && Low(c) <= Close(c) <= High(c)
  }

  /** In non-sequential mode only the last `warmup` rows are used. */
  function SliceCandles(candles: seq<Candle>, sequential: bool, warmup: nat): (r: seq<Candle>)
    ensures |r| == if sequential then |candles| else Min(|candles|, warmup)
    ensures forall i :: 0 <= i < |r| ==> r[i] == candles[|candles| - |r| + i]
  {
    if !sequential && |candles| > warmup then candles[|candles| - warmup..] else candles
  }

  // ---------------------------------------------------------------- column extrema

  function MaxOf(s: seq<real>): (m: real)
    requires s != []
    ensures m in s && forall x :: x in s ==> x <= m
  {
    if |s| == 1 then s[0] else
      assert s == [s[0]] + s[1..];
      MaxReal(s[0], MaxOf(s[1..]))
  }

  function MinOf(s: seq<real>): (m: real)
    requires s != []
    ensures m in s && forall x :: x in s ==> m <= x
  {
    if |s| == 1 then s[0] else
      assert s == [s[0]] + s[1..];
      MinReal(s[0], MinOf(s[1..]))
  }

  function Highs(cs: seq<Candle>): seq<real> { seq(|cs|, i requires 0 <= i < |cs| => High(cs[i])) }
  function Lows(cs: seq<Candle>): seq<real> { seq(|cs|, i requires 0 <= i < |cs| => Low(cs[i])) }
  function Volumes(cs: seq<Candle>): seq<real> { seq(|cs|, i requires 0 <= i < |cs| => Volume(cs[i])) }

  lemma {:induction false} MaxOfConcat(a: seq<real>, b: seq<real>)
    requires a != [] && b != []
    ensures MaxOf(a + b) == MaxReal(MaxOf(a), MaxOf(b))
  {
    assert MaxOf(a) in a + b && MaxOf(b) in a + b;
    assert MaxOf(a + b) in a || MaxOf(a + b) in b;
  }

  lemma {:induction false} MinOfConcat(a: seq<real>, b: seq<real>)
    requires a != [] && b != []
    ensures MinOf(a + b) == MinReal(MinOf(a), MinOf(b))
  {
    assert MinOf(a) in a + b && MinOf(b) in a + b;
    assert MinOf(a + b) in a || MinOf(a + b) in b;
  }

  // ---------------------------------------------------------------- aggregation

  function Aggregate(cs: seq<Candle>): Candle
    requires cs != []
  {
    [Timestamp(cs[0]), Open(cs[0]), Close(cs[|cs| - 1]), MaxOf(Highs(cs)), MinOf(Lows(cs)), SumOf(Volumes(cs))]
  }

  /** generateCandleFromOneMinutes: the row count is only checked when forming candles are refused. */
  function GenerateFromOneMinutes(minutes: nat, cs: seq<Candle>, acceptForming: bool): (r: Result<Candle>)
    requires 0 < minutes && (acceptForming ==> cs != [])
    ensures r.Ok? <==> acceptForming || |cs| == minutes
    ensures r.Ok? ==> Volume(r.value) == SumOf(Volumes(cs))
    ensures r.Ok? ==> Timestamp(r.value) == Timestamp(cs[0]) && Open(r.value) == Open(cs[0])
    ensures r.Ok? ==> Close(r.value) == Close(cs[|cs| - 1])
    ensures r.Ok? ==> (forall i :: 0 <= i < |cs| ==> High(cs[i]) <= High(r.value) && Low(r.value) <= Low(cs[i]))
    ensures r.Ok? ==> exists i :: 0 <= i < |cs| && High(r.value) == High(cs[i])
    ensures r.Ok? ==> exists i :: 0 <= i < |cs| && Low(r.value) == Low(cs[i])
    ensures r.Ok? && (forall i :: 0 <= i < |cs| ==> WellFormed(cs[i])) ==> WellFormed(r.value)
  {
    if !acceptForming && |cs| != minutes then Err(InvalidArgument) else
      AggregateSpans(cs);
      Ok(Aggregate(cs))
  }

  lemma {:induction false} AggregateSpans(cs: seq<Candle>)
    requires cs != []
    ensures var r := Aggregate(cs);
      && (forall i :: 0 <= i < |cs| ==> High(cs[i]) <= High(r) && Low(r) <= Low(cs[i]))
      && (exists i :: 0 <= i < |cs| && High(r) == High(cs[i]))
      && (exists i :: 0 <= i < |cs| && Low(r) == Low(cs[i]))
      && ((forall i :: 0 <= i < |cs| ==> WellFormed(cs[i])) ==> WellFormed(r))
  {
    forall i | 0 <= i < |cs| ensures High(cs[i]) in Highs(cs) && Low(cs[i]) in Lows(cs) {
      assert Highs(cs)[i] == High(cs[i]) && Lows(cs)[i] == Low(cs[i]);
    }
    var h :| 0 <= h < |cs| && Highs(cs)[h] == MaxOf(Highs(cs));
    var l :| 0 <= l < |cs| && Lows(cs)[l] == MinOf(Lows(cs));
    assert High(cs[h]) == High(Aggregate(cs)) && Low(cs[l]) == Low(Aggregate(cs));
    assert WellFormed(cs[0]) && WellFormed(cs[|cs| - 1]) ==> WellFormed(Aggregate(cs));
  }

  /** The operation aggregates: nothing but the row count decides whether it succeeds. */
  lemma GeneratesAggregate(minutes: nat, cs: seq<Candle>, acceptForming: bool)
    requires 0 < minutes && cs != [] && (acceptForming || |cs| == minutes)
    ensures GenerateFromOneMinutes(minutes, cs, acceptForming) == Ok(Aggregate(cs))
  {
  }

  /** The candles generated from `groups`, each for its own number of minutes. */
  ghost predicate GeneratedFrom(
      results: seq<Candle>, groups: seq<seq<Candle>>, minutes: seq<nat>, acceptForming: bool)
  {
    && |results| == |groups| == |minutes|
    && forall i :: 0 <= i < |groups| ==>
         && 0 < minutes[i] && groups[i] != []
         && GenerateFromOneMinutes(minutes[i], groups[i], acceptForming) == Ok(results[i])
  }

  /** Homomorphism of the operation: generating from generated candles is generating from all their rows. */
  lemma {:induction false} GenerateFromGenerated(
      groups: seq<seq<Candle>>, minutes: seq<nat>, results: seq<Candle>, acceptForming: bool, total: nat)
    requires groups != [] && 0 < total && GeneratedFrom(results, groups, minutes, acceptForming)
    ensures Flatten(groups) != []
    ensures GenerateFromOneMinutes(total, results, true) == GenerateFromOneMinutes(total, Flatten(groups), true)
  {
    AllGenerated(groups, minutes, results, acceptForming);
    AggregateGroups(groups);
  }

  lemma {:induction false} AllGenerated(
      groups: seq<seq<Candle>>, minutes: seq<nat>, results: seq<Candle>, acceptForming: bool)
    requires GeneratedFrom(results, groups, minutes, acceptForming)
    ensures results == AggregateAll(groups)
    decreases |groups|
  {
    if groups != [] {
      GeneratesAggregate(minutes[0], groups[0], acceptForming);
      AllGenerated(groups[1..], minutes[1..], results[1..], acceptForming);
      assert results == [results[0]] + results[1..];
    }
  }

  function Flatten(groups: seq<seq<Candle>>): seq<Candle> {
    if groups == [] then [] else groups[0] + Flatten(groups[1..])
  }

  function AggregateAll(groups: seq<seq<Candle>>): (r: seq<Candle>)
    requires forall i :: 0 <= i < |groups| ==> groups[i] != []
    ensures |r| == |groups|
  {
    if groups == [] then [] else [Aggregate(groups[0])] + AggregateAll(groups[1..])
  }

  lemma ColumnsConcat(a: seq<Candle>, b: seq<Candle>)
    requires a != [] && b != []
    ensures MaxOf(Highs(a + b)) == MaxReal(MaxOf(Highs(a)), MaxOf(Highs(b)))
    ensures MinOf(Lows(a + b)) == MinReal(MinOf(Lows(a)), MinOf(Lows(b)))
    ensures SumOf(Volumes(a + b)) == SumOf(Volumes(a)) + SumOf(Volumes(b))
  {
    assert Highs(a + b) == Highs(a) + Highs(b);
    assert Lows(a + b) == Lows(a) + Lows(b);
    assert Volumes(a + b) == Volumes(a) + Volumes(b);
    MaxOfConcat(Highs(a), Highs(b));
    MinOfConcat(Lows(a), Lows(b));
    SumOfConcat(Volumes(a), Volumes(b));
  }

  lemma AggregateConcat(a: seq<Candle>, b: seq<Candle>)
    requires a != [] && b != []
    ensures Aggregate(a + b) == Aggregate([Aggregate(a), Aggregate(b)])
  {
    ColumnsConcat(a, b);
    AggregatePair(Aggregate(a), Aggregate(b));
  }

  lemma AggregatePair(x: Candle, y: Candle)
    ensures Aggregate([x, y]) == [Timestamp(x), Open(x), Close(y), MaxReal(High(x), High(y)),
                                  MinReal(Low(x), Low(y)), Volume(x) + Volume(y)]
  {
    assert Highs([x, y]) == [High(x), High(y)];
    assert Lows([x, y]) == [Low(x), Low(y)];
    assert Volumes([x, y]) == [Volume(x), Volume(y)];
    SpanOfTwo(High(x), High(y));
    SpanOfTwo(Low(x), Low(y));
    SpanOfTwo(Volume(x), Volume(y));
  }

  lemma SpanOfTwo(a: real, b: real)
    ensures MaxOf([a, b]) == MaxReal(a, b) && MinOf([a, b]) == MinReal(a, b) && SumOf([a, b]) == a + b
  {
    assert [a, b][1..] == [b];
    SpanOfOne(b);
  }

  lemma SpanOfOne(a: real)
    ensures MaxOf([a]) == a && MinOf([a]) == a && SumOf([a]) == a
  {
    assert [a][1..] == [];
  }

  lemma AggregateOne(x: Candle)
    ensures Aggregate([x]) == x
  {
    assert Highs([x]) == [High(x)] && Lows([x]) == [Low(x)] && Volumes([x]) == [Volume(x)];
    SpanOfOne(High(x));
    SpanOfOne(Low(x));
    SpanOfOne(Volume(x));
    assert x == [x[0], x[1], x[2], x[3], x[4], x[5]];
  }

  /** Homomorphism: aggregating the aggregates of any partition equals aggregating the whole run. */
  lemma {:induction false} AggregateGroups(groups: seq<seq<Candle>>)
    requires groups != [] && forall i :: 0 <= i < |groups| ==> groups[i] != []
    ensures Flatten(groups) != []
    ensures Aggregate(AggregateAll(groups)) == Aggregate(Flatten(groups))
  {
    var g, rest := groups[0], groups[1..];
    if rest == [] {
      assert Flatten(groups) == g;
      assert AggregateAll(groups) == [Aggregate(g)];
      AggregateOne(Aggregate(g));
    } else {
      AggregateGroups(rest);
      AggregateConcat(g, Flatten(rest));
      var x := Aggregate(g);
      assert AggregateAll(groups) == [x] + AggregateAll(rest);
      AggregateOne(x);
      AggregateConcat([x], AggregateAll(rest));
    }
  }

  // ---------------------------------------------------------------- candles from close prices

  function PreviousPrice(prices: seq<real>, i: nat): real
    requires i < |prices|
  {
    if i == 0 then prices[0] - 1.0 else prices[i - 1]
  }

  /** The candle that moves from the previous price to price `i`. */
  function PriceCandle(prices: seq<real>, i: nat, clock: real, volume: real): Candle
    requires i < |prices|
  {
    var o, c := PreviousPrice(prices, i), prices[i];
    [clock + MINUTE * (i + 1) as real, o, c, MaxReal(o, c), MinReal(o, c), volume]
  }

  /** generateCandlesFromClosePrices, with the generator's clock and random volumes as inputs. */
  method GenerateFromClosePrices(prices: seq<real>, clock: real, volumes: seq<real>)
    returns (candles: seq<Candle>, clock': real)
    requires |volumes| == |prices|
    ensures |candles| == |prices| && clock' == clock + MINUTE * |prices| as real
    ensures forall i :: 0 <= i < |prices| ==> candles[i] == PriceCandle(prices, i, clock, volumes[i])
  {
    if prices == [] { return [], clock; }
    var rows := new Candle[|prices|];
    var prevPrice := prices[0] - 1.0;
    clock' := clock;
    for i := 0 to |prices|
      invariant clock' == clock + MINUTE * i as real
      invariant i < |prices| ==> prevPrice == PreviousPrice(prices, i)
      invariant forall j :: 0 <= j < i ==> rows[j] == PriceCandle(prices, j, clock, volumes[j])
    {
      var currentPrice := prices[i];
      clock' := clock' + MINUTE;
      var openPrice, closePrice := prevPrice, currentPrice;
      var highPrice := MaxReal(openPrice, closePrice);
      var lowPrice := MinReal(openPrice, closePrice);
      rows[i] := [clock', openPrice, closePrice, highPrice, lowPrice, volumes[i]];
      prevPrice := currentPrice;
    }
    candles := rows[..];
  }

  ghost predicate ArePriceCandles(candles: seq<Candle>, prices: seq<real>, clock: real, volumes: seq<real>) {
    && |candles| == |prices| == |volumes|
    && forall i :: 0 <= i < |prices| ==> candles[i] == PriceCandle(prices, i, clock, volumes[i])
  }

  /** Generated candles chain: well formed, a minute apart, each opening at the previous close. */
  lemma PriceCandlesChain(candles: seq<Candle>, prices: seq<real>, clock: real, volumes: seq<real>, i: nat)
    requires ArePriceCandles(candles, prices, clock, volumes) && i < |candles|
    ensures WellFormed(candles[i])
    ensures i > 0 ==> Open(candles[i]) == Close(candles[i - 1])
                      && Timestamp(candles[i]) == Timestamp(candles[i - 1]) + 60000.0
  {
  }

  /** Their aggregate: opens one below the first price, closes at the last, spans all prices and that opening. */
  lemma AggregateOfPrices(candles: seq<Candle>, prices: seq<real>, clock: real, volumes: seq<real>)
    requires prices != [] && ArePriceCandles(candles, prices, clock, volumes)
    ensures var a, path := Aggregate(candles), [prices[0] - 1.0] + prices;
      a == [clock + MINUTE, prices[0] - 1.0, prices[|prices| - 1], MaxOf(path), MinOf(path), SumOf(volumes)]
  {
    assert Volumes(candles) == volumes;
    PathSpan(candles, prices, clock, volumes);
  }

  /** The candle generated from them, in the prices alone. */
  lemma GenerateFromPrices(
      minutes: nat, candles: seq<Candle>, prices: seq<real>, clock: real, volumes: seq<real>, acceptForming: bool)
    requires 0 < minutes && prices != [] && ArePriceCandles(candles, prices, clock, volumes)
    ensures var r := GenerateFromOneMinutes(minutes, candles, acceptForming);
      if acceptForming || |prices| == minutes then
        && r.Ok? && Timestamp(r.value) == clock + 60000.0
        && Open(r.value) == prices[0] - 1.0 && Close(r.value) == prices[|prices| - 1]
        && High(r.value) == MaxOf([prices[0] - 1.0] + prices) && Low(r.value) == MinOf([prices[0] - 1.0] + prices)
        && Volume(r.value) == SumOf(volumes)
      else r == Err(InvalidArgument)
  {
    AggregateOfPrices(candles, prices, clock, volumes);
  }

  lemma PathSpan(candles: seq<Candle>, prices: seq<real>, clock: real, volumes: seq<real>)
    requires prices != [] && ArePriceCandles(candles, prices, clock, volumes)
    ensures MaxOf(Highs(candles)) == MaxOf([prices[0] - 1.0] + prices)
    ensures MinOf(Lows(candles)) == MinOf([prices[0] - 1.0] + prices)
  {
    var path := [prices[0] - 1.0] + prices;
    forall i | 0 <= i < |prices|
      ensures Highs(candles)[i] == MaxReal(path[i], path[i + 1])
      ensures Lows(candles)[i] == MinReal(path[i], path[i + 1])
    {
      assert path[i] == PreviousPrice(prices, i) && path[i + 1] == prices[i];
    }
    PathHigh(path, Highs(candles));
    PathLow(path, Lows(candles));
  }

  lemma PathHigh(path: seq<real>, hs: seq<real>)
    requires hs != [] && |path| == |hs| + 1
    requires forall i :: 0 <= i < |hs| ==> hs[i] == MaxReal(path[i], path[i + 1])
    ensures MaxOf(hs) == MaxOf(path)
  {
    var i :| 0 <= i < |path| && path[i] == MaxOf(path);
    var j := if i < |hs| then i else i - 1;
    assert hs[j] in hs && hs[j] == MaxReal(path[j], path[j + 1]);
    var k :| 0 <= k < |hs| && hs[k] == MaxOf(hs);
    assert path[k] in path && path[k + 1] in path;
  }

  lemma PathLow(path: seq<real>, ls: seq<real>)
    requires ls != [] && |path| == |ls| + 1
    requires forall i :: 0 <= i < |ls| ==> ls[i] == MinReal(path[i], path[i + 1])
    ensures MinOf(ls) == MinOf(path)
  {
    var i :| 0 <= i < |path| && path[i] == MinOf(path);
    var j := if i < |ls| then i else i - 1;
    assert ls[j] in ls && ls[j] == MinReal(path[j], path[j + 1]);
    var k :| 0 <= k < |ls| && ls[k] == MinOf(ls);
    assert path[k] in path && path[k + 1] in path;
  }
}
