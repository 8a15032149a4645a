/**
 * Paths of conversions, each an arbitrary map from the amount put in to the amount got
 * out: what a path of any length inherits from its legs.
 */
module Conversion {
  import opened Common
  import opened RealLemmas

  type Exchange = real -> real

  /** The amount held after all legs, starting with `x`. */
  function Through(fs: seq<Exchange>, x: real): real {
    if fs == [] then x else Through(fs[1..], fs[0](x))
  }

  // ---------------------------------------------------------------- size dependence

  /** Not less for more, and not more per unit: f(y) / y <= f(x) / x, written as products. */
  ghost predicate ThinsAt(f: Exchange, x: real, y: real) {
    0.0 <= f(x) <= f(y) && f(y) * x <= f(x) * y
  }

  ghost predicate Thinning(f: Exchange) {
    forall x: real, y: real :: 0.0 <= x <= y ==> ThinsAt(f, x, y)
  }

  ghost predicate AllThinning(fs: seq<Exchange>) { forall i :: 0 <= i < |fs| ==> Thinning(fs[i]) }

  /** A thinning leg keeps the order of two averages. */
  lemma ThinningStep(a: real, b: real, fa: real, fb: real, x: real, y: real)
    requires 0.0 <= a <= b && 0.0 < x <= y && b * x <= a * y
    requires 0.0 <= fa <= fb && fb * a <= fa * b && (a == b ==> fa == fb)
    ensures fb * x <= fa * y
  {
    if a == 0.0 {
      if b > 0.0 { MulPos(b, x); }
      MulMono(x, y, fa);
    } else {
      MulMono(fb * a, fa * b, x);
      MulMono(b * x, a * y, fa);
      assert fa * b * x == fa * (b * x);
      assert fb * a * x == fb * x * a;
      assert fa * (a * y) == fa * y * a;
      CancelFactor(fb * x, fa * y, a);
    }
  }

  lemma {:induction false} AveragesStayOrdered(fs: seq<Exchange>, a: real, b: real, x: real, y: real)
    requires AllThinning(fs) && 0.0 <= a <= b && 0.0 < x <= y && b * x <= a * y
    ensures Through(fs, b) * x <= Through(fs, a) * y
    decreases |fs|
  {
    if fs != [] {
      var f := fs[0];
      assert Thinning(f) && ThinsAt(f, a, b);
      ThinningStep(a, b, f(a), f(b), x, y);
      AveragesStayOrdered(fs[1..], f(a), f(b), x, y);
    }
  }

  /** A path of thinning legs thins: a larger start never ends with more per unit. */
  lemma {:induction false} ThroughThins(fs: seq<Exchange>, x: real, y: real)
    requires AllThinning(fs) && 0.0 < x <= y
    ensures Through(fs, y) * x <= Through(fs, x) * y
  {
    AveragesStayOrdered(fs, x, y, x, y);
  }

  /** A path of such legs is monotone: a larger start never ends with less. */
  lemma {:induction false} ThroughMonotone(fs: seq<Exchange>, x: real, y: real)
    requires AllThinning(fs) && 0.0 <= x <= y
    ensures 0.0 <= Through(fs, x) <= Through(fs, y)
    decreases |fs|
  {
    if fs != [] {
      assert Thinning(fs[0]) && ThinsAt(fs[0], x, y);
      ThroughMonotone(fs[1..], fs[0](x), fs[0](y));
    }
  }

  /** Both at once: the larger start ends with no less, and no more per unit. */
  lemma {:induction false} ThroughOfTwo(fs: seq<Exchange>, x: real, y: real) returns (f: real, g: real)
    requires AllThinning(fs) && 0.0 < x <= y
    ensures f == Through(fs, x) && g == Through(fs, y)
    ensures f <= g && g * x <= f * y
  {
    ThroughThins(fs, x, y);
    ThroughMonotone(fs, x, y);
    f, g := Through(fs, x), Through(fs, y);
  }

  // ---------------------------------------------------------------- concavity

  /** The point that divides the way from `y` to `x` in the ratio k to 1-k. */
  function Between(k: real, x: real, y: real): real { k * x + (1.0 - k) * y }

  ghost predicate ConcaveAt(f: Exchange, k: real, x: real, y: real) {
    Between(k, f(x), f(y)) <= f(Between(k, x, y))
  }

  ghost predicate Concave(f: Exchange) {
    forall k: real, x: real, y: real :: 0.0 <= k <= 1.0 && 0.0 <= x && 0.0 <= y ==> ConcaveAt(f, k, x, y)
  }

  ghost predicate AllConcave(fs: seq<Exchange>) { forall i :: 0 <= i < |fs| ==> Concave(fs[i]) }

  lemma BetweenNonneg(k: real, x: real, y: real)
    requires 0.0 <= k <= 1.0 && 0.0 <= x && 0.0 <= y
    ensures 0.0 <= Between(k, x, y)
  {
    MulNonneg(k, x);
    MulNonneg(1.0 - k, y);
  }

  lemma {:induction false} AboveChord(fs: seq<Exchange>, k: real, x: real, y: real, z: real)
    requires AllThinning(fs) && AllConcave(fs) && 0.0 <= k <= 1.0 && 0.0 <= x && 0.0 <= y && Between(k, x, y) <= z
    ensures Between(k, Through(fs, x), Through(fs, y)) <= Through(fs, z)
    decreases |fs|
  {
    if fs != [] {
      var f := fs[0];
      BetweenNonneg(k, x, y);
      assert Thinning(f) && ThinsAt(f, x, x) && ThinsAt(f, y, y) && ThinsAt(f, Between(k, x, y), z);
      assert Concave(f) && ConcaveAt(f, k, x, y);
      AboveChord(fs[1..], k, f(x), f(y), f(z));
    }
  }

  /** A path of monotone concave legs is concave. */
  lemma {:induction false} ThroughConcave(fs: seq<Exchange>, k: real, x: real, y: real)
    requires AllThinning(fs) && AllConcave(fs) && 0.0 <= k <= 1.0 && 0.0 <= x && 0.0 <= y
    ensures Between(k, Through(fs, x), Through(fs, y)) <= Through(fs, Between(k, x, y))
  {
    AboveChord(fs, k, x, y, Between(k, x, y));
  }

  // ---------------------------------------------------------------- value

  /** With asset values `u` before and `v` after, the leg keeps at most the share `kept` of the value. */
  ghost predicate KeepsValue(f: Exchange, u: real, v: real, kept: real) {
    forall x: real :: 0.0 <= x ==> 0.0 <= f(x) && f(x) * v <= x * u * kept
  }

  /** What is left of a value after `n` legs that keep the share `kept`. */
  function AfterLegs(value: real, kept: real, n: nat): real
    decreases n
  {
    if n == 0 then value else AfterLegs(value * kept, kept, n - 1)
  }

  lemma {:induction false} ValueFalls(fs: seq<Exchange>, x: real, values: seq<real>, kept: real, worth: real)
    requires 0.0 <= x && 0.0 <= kept && |values| == |fs| + 1 && x * values[0] <= worth
    requires forall i :: 0 <= i < |fs| ==> KeepsValue(fs[i], values[i], values[i + 1], kept)
    ensures Through(fs, x) * values[|fs|] <= AfterLegs(worth, kept, |fs|)
    decreases |fs|
  {
    if fs != [] {
      var f, rest, tail := fs[0], fs[1..], values[1..];
      assert KeepsValue(fs[0], values[0], values[1], kept);
      MulMono(x * values[0], worth, kept);
      forall i | 0 <= i < |rest| ensures KeepsValue(rest[i], tail[i], tail[i + 1], kept) {
        assert KeepsValue(fs[i + 1], values[i + 1], values[i + 2], kept);
      }
      ValueFalls(rest, f(x), tail, kept, worth * kept);
    }
  }

  // ---------------------------------------------------------------- best rates

  /** The leg pays at most `rate` per unit of `x`, and exactly that up to `depth`. */
  ghost predicate BestAt(f: Exchange, rate: real, depth: real, x: real) {
    0.0 <= f(x) <= x * rate && (x <= depth ==> f(x) == x * rate)
  }

  ghost predicate BestRate(f: Exchange, rate: real, depth: real) {
    0.0 <= rate && 0.0 < depth && forall x: real :: 0.0 <= x ==> BestAt(f, rate, depth, x)
  }

  ghost predicate BestRates(fs: seq<Exchange>, rates: seq<real>, depths: seq<real>)
    decreases |fs|
  {
    && |fs| == |rates| == |depths|
    && (fs != [] ==> BestRate(fs[0], rates[0], depths[0]) && BestRates(fs[1..], rates[1..], depths[1..]))
  }

  /** One unit taken along the path at the best rates alone. */
  function AtBest(rates: seq<real>): real {
    if rates == [] then 1.0 else rates[0] * AtBest(rates[1..])
  }

  lemma {:induction false} AtBestNonnegative(fs: seq<Exchange>, rates: seq<real>, depths: seq<real>)
    requires BestRates(fs, rates, depths)
    ensures 0.0 <= AtBest(rates)
    decreases |fs|
  {
    if fs != [] {
      AtBestNonnegative(fs[1..], rates[1..], depths[1..]);
      MulNonneg(rates[0], AtBest(rates[1..]));
    }
  }

  lemma {:induction false} ThroughAtMostBest(fs: seq<Exchange>, rates: seq<real>, depths: seq<real>, x: real)
    requires BestRates(fs, rates, depths) && 0.0 <= x
    ensures Through(fs, x) <= x * AtBest(rates)
    decreases |fs|
  {
    if fs != [] {
      var y := fs[0](x);
      assert BestAt(fs[0], rates[0], depths[0], x);
      ThroughAtMostBest(fs[1..], rates[1..], depths[1..], y);
      AtBestNonnegative(fs[1..], rates[1..], depths[1..]);
      Relay(Through(fs[1..], y), y, AtBest(rates[1..]), x, rates[0]);
    }
  }

  lemma Relay(out: real, y: real, t: real, x: real, r: real)
    requires out <= y * t && y <= x * r && 0.0 <= t
    ensures out <= x * (r * t)
  {
    MulMono(y, x * r, t);
    assert x * r * t == x * (r * t);
  }

  /** The amount stays within the best level of every leg. */
  ghost predicate Fits(rates: seq<real>, depths: seq<real>, x: real)
    requires |rates| == |depths|
    decreases |rates|
  {
    0.0 <= x && (rates != [] ==> x <= depths[0] && Fits(rates[1..], depths[1..], x * rates[0]))
  }

  lemma {:induction false} FittingTradesAtBest(fs: seq<Exchange>, rates: seq<real>, depths: seq<real>, x: real)
    requires BestRates(fs, rates, depths) && Fits(rates, depths, x)
    ensures Through(fs, x) == x * AtBest(rates)
    decreases |fs|
  {
    if fs != [] {
      var y := x * rates[0];
      assert BestAt(fs[0], rates[0], depths[0], x);
      FittingTradesAtBest(fs[1..], rates[1..], depths[1..], y);
      RelayExactly(Through(fs[1..], y), y, AtBest(rates[1..]), x, rates[0]);
    }
  }

  lemma RelayExactly(out: real, y: real, t: real, x: real, r: real)
    requires out == y * t && y == x * r
    ensures out == x * (r * t)
  {
  }

  lemma {:induction false} LessFits(fs: seq<Exchange>, rates: seq<real>, depths: seq<real>, x: real, y: real)
    requires BestRates(fs, rates, depths) && Fits(rates, depths, y) && 0.0 <= x <= y
    ensures Fits(rates, depths, x)
    decreases |fs|
  {
    if fs != [] {
      MulMono(x, y, rates[0]);
      MulNonneg(x, rates[0]);
      LessFits(fs[1..], rates[1..], depths[1..], x * rates[0], y * rates[0]);
    }
  }

  lemma {:induction false} SomeAmountFits(fs: seq<Exchange>, rates: seq<real>, depths: seq<real>) returns (x: real)
    requires BestRates(fs, rates, depths)
    ensures 0.0 < x && Fits(rates, depths, x)
    decreases |fs|
  {
    if fs == [] {
      x := 1.0;
    } else {
      var next := SomeAmountFits(fs[1..], rates[1..], depths[1..]);
      x := FitsBoth(depths[0], rates[0], next);
      MulNonneg(x, rates[0]);
      LessFits(fs[1..], rates[1..], depths[1..], x * rates[0], next);
    }
  }

  lemma FitsBoth(depth: real, r: real, next: real) returns (small: real)
    requires 0.0 < depth && 0.0 <= r && 0.0 < next
    ensures 0.0 < small <= depth && small * r <= next
  {
    if r == 0.0 {
      small := depth;
    } else {
      var q := next / r;
      DivMul(next, r);
      if q <= 0.0 { MulMono(q, 0.0, r); }
      small := MinReal(depth, q);
      MulMono(small, q, r);
    }
  }

  lemma GrowsBy(t: real, x: real, out: real)
    requires 0.0 < x
    ensures out == x * t && 1.0 < t ==> x < out
    ensures x < out && out <= x * t ==> 1.0 < t
  {
    CancelFactor(t, 1.0, x);
  }

  /** Some amount grows along the path exactly when the best rates multiply to more than one. */
  lemma {:induction false} GrowsExactly(fs: seq<Exchange>, rates: seq<real>, depths: seq<real>)
    requires BestRates(fs, rates, depths)
    ensures (exists x: real :: 0.0 < x && Through(fs, x) > x) <==> AtBest(rates) > 1.0
  {
    var t := AtBest(rates);
    if t > 1.0 {
      var x := SomeAmountFits(fs, rates, depths);
      FittingTradesAtBest(fs, rates, depths, x);
      GrowsBy(t, x, Through(fs, x));
    }
    forall x: real | 0.0 < x && Through(fs, x) > x ensures t > 1.0 {
      ThroughAtMostBest(fs, rates, depths, x);
      GrowsBy(t, x, Through(fs, x));
    }
  }

  // ---------------------------------------------------------------- fees

  /** The leg with a share of its payout kept. */
  function WithFee(f: Exchange, kept: real): Exchange { (x: real) => f(x) * kept }

  lemma {:induction false} FeeThins(f: Exchange, kept: real)
    requires Thinning(f) && 0.0 <= kept
    ensures Thinning(WithFee(f, kept))
  {
    forall x: real, y: real | 0.0 <= x <= y ensures ThinsAt(WithFee(f, kept), x, y) { FeeThinsAt(f, kept, x, y); }
  }

  lemma {:induction false} FeeConcave(f: Exchange, kept: real)
    requires Concave(f) && 0.0 <= kept
    ensures Concave(WithFee(f, kept))
  {
    forall k: real, x: real, y: real | 0.0 <= k <= 1.0 && 0.0 <= x && 0.0 <= y
      ensures ConcaveAt(WithFee(f, kept), k, x, y)
    {
      assert ConcaveAt(f, k, x, y);
      ChordScales(k, f(x), f(y), f(Between(k, x, y)), kept);
    }
  }

  lemma ChordScales(k: real, a: real, b: real, c: real, kept: real)
    requires Between(k, a, b) <= c && 0.0 <= kept
    ensures Between(k, a * kept, b * kept) <= c * kept
  {
    MulMono(Between(k, a, b), c, kept);
    assert k * (a * kept) == k * a * kept;
    assert (1.0 - k) * (b * kept) == (1.0 - k) * b * kept;
  }

  lemma FeeThinsAt(f: Exchange, kept: real, x: real, y: real)
    requires ThinsAt(f, x, y) && 0.0 <= kept
    ensures ThinsAt(WithFee(f, kept), x, y)
  {
    MulNonneg(f(x), kept);
    MulMono(f(x), f(y), kept);
    Scaled(f(y), f(x), x, y, kept);
  }

  lemma Scaled(a: real, b: real, x: real, y: real, k: real)
    requires a * x <= b * y && 0.0 <= k
    ensures a * k * x <= b * k * y
  {
    MulMono(a * x, b * y, k);
    assert a * k * x == a * x * k;
    assert b * k * y == b * y * k;
  }

  lemma {:induction false} FeeKeepsValue(f: Exchange, u: real, v: real, kept: real)
    requires KeepsValue(f, u, v, 1.0) && 0.0 <= kept
    ensures KeepsValue(WithFee(f, kept), u, v, kept)
  {
    forall x: real | 0.0 <= x ensures 0.0 <= f(x) * kept && f(x) * kept * v <= x * u * kept {
      MulNonneg(f(x), kept);
      Scaled(f(x), x, v, u, kept);
      assert x * kept * u == x * u * kept;
    }
  }

  lemma {:induction false} FeeBestRate(f: Exchange, rate: real, depth: real, kept: real)
    requires BestRate(f, rate, depth) && 0.0 <= kept
    ensures BestRate(WithFee(f, kept), rate * kept, depth)
  {
    var net := rate * kept;
    MulNonneg(rate, kept);
    forall x: real | 0.0 <= x ensures BestAt(WithFee(f, kept), net, depth, x) {
      FeeBestAt(f, rate, depth, kept, net, x);
    }
  }

  lemma FeeBestAt(f: Exchange, rate: real, depth: real, kept: real, net: real, x: real)
    requires BestAt(f, rate, depth, x) && 0.0 <= kept && net == rate * kept
    ensures BestAt(WithFee(f, kept), net, depth, x)
  {
    MulNonneg(f(x), kept);
    MulMono(f(x), x * rate, kept);
    assert x * rate * kept == x * net;
  }
}
