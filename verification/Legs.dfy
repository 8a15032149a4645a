/** A leg of the bot's paths: one book walked in one direction, less the 0.25 percent fee. */
module Legs {
  import opened Common
  import opened RealLemmas
  import opened DepthWalk
  import opened BuySide
  import opened Conversion

  const FEE_KEPT: real := 0.9975

  datatype Leg = Sell(bids: seq<Level>) | Buy(asks: seq<Level>)

  function Convert(leg: Leg, x: Num): Num {
    match leg
    case Sell(bids) => Val(SellQuoteOf(bids, x))
    case Buy(asks) => BuyBaseOf(asks, x)
  }

  function Charge(x: Num): Num { if x.Val? then Val(x.v * FEE_KEPT) else NaN }

  /** The amount held after all legs, starting with `x`, as the bot computes it. */
  function Follow(legs: seq<Leg>, x: Num): Num {
    if legs == [] then x else Follow(legs[1..], Charge(Convert(legs[0], x)))
  }

  // ---------------------------------------------------------------- sound books

  ghost predicate LegSane(leg: Leg) {
    match leg case Sell(bids) => Sane(bids) case Buy(asks) => Sane(asks)
  }

  ghost predicate LegSorted(leg: Leg) {
    match leg case Sell(bids) => Descending(bids) case Buy(asks) => Ascending(asks)
  }

  ghost predicate AllSane(legs: seq<Leg>) { forall i :: 0 <= i < |legs| ==> LegSane(legs[i]) }

  ghost predicate AllSorted(legs: seq<Leg>) { forall i :: 0 <= i < |legs| ==> LegSorted(legs[i]) }

  /** The leg as levels to sell into. */
  ghost function Levels(leg: Leg): seq<Level>
    requires LegSane(leg)
  {
    match leg case Sell(bids) => bids case Buy(asks) => Mirror(asks)
  }

  /** The bid walk as a map of the amount sold. */
  function Selling(levels: seq<Level>): Exchange { (x: real) => SellQuote(levels, x) }

  /** What the leg leaves of a number. */
  ghost function Net(leg: Leg): Exchange
    requires LegSane(leg)
  {
    WithFee(Selling(Levels(leg)), FEE_KEPT)
  }

  ghost function Nets(legs: seq<Leg>): (fs: seq<Exchange>)
    requires AllSane(legs)
    ensures |fs| == |legs| && forall i :: 0 <= i < |legs| ==> fs[i] == Net(legs[i])
  {
    seq(|legs|, i requires 0 <= i < |legs| => Net(legs[i]))
  }

  lemma LevelsFacts(leg: Leg)
    requires LegSane(leg)
    ensures Sane(Levels(leg)) && (LegSorted(leg) ==> Descending(Levels(leg)))
  {
    if leg.Buy? {
      MirrorSane(leg.asks);
      if Ascending(leg.asks) { MirrorDescending(leg.asks); }
    }
  }

  lemma NetIsCharge(leg: Leg, x: real)
    requires LegSane(leg) && 0.0 <= x
    ensures Charge(Convert(leg, Val(x))) == Val(Net(leg)(x)) && 0.0 <= Net(leg)(x)
  {
    LevelsFacts(leg);
    SellNonneg(Levels(leg), x);
    if leg.Buy? { BuyIsSell(leg.asks, x); }
  }

  /** On sound books no NaN arises: the bot's path is the path of these maps. */
  lemma {:induction false} FollowIsThrough(legs: seq<Leg>, x: real)
    requires AllSane(legs) && 0.0 <= x
    ensures Follow(legs, Val(x)) == Val(Through(Nets(legs), x))
    decreases |legs|
  {
    if legs != [] {
      NetIsCharge(legs[0], x);
      FollowIsThrough(legs[1..], Net(legs[0])(x));
      assert Nets(legs)[1..] == Nets(legs[1..]);
    }
  }

  // ---------------------------------------------------------------- what each leg promises

  lemma {:induction false} SellingThins(levels: seq<Level>)
    requires Sane(levels) && Descending(levels)
    ensures Thinning(Selling(levels))
  {
    forall x: real, y: real | 0.0 <= x <= y ensures ThinsAt(Selling(levels), x, y) {
      SellMonotone(levels, x, y);
      SellAverageFalls(levels, x, y);
    }
  }

  lemma {:induction false} NetThinning(leg: Leg)
    requires LegSane(leg) && LegSorted(leg)
    ensures Thinning(Net(leg))
  {
    LevelsFacts(leg);
    SellingThins(Levels(leg));
    FeeThins(Selling(Levels(leg)), FEE_KEPT);
  }

  lemma {:induction false} SellingConcave(levels: seq<Level>)
    requires Sane(levels) && Descending(levels)
    ensures Concave(Selling(levels))
  {
    forall k: real, x: real, y: real | 0.0 <= k <= 1.0 && 0.0 <= x && 0.0 <= y
      ensures ConcaveAt(Selling(levels), k, x, y)
    {
      SellingConcaveAt(levels, k, x, y);
    }
  }

  lemma {:induction false} SellingConcaveAt(levels: seq<Level>, k: real, x: real, y: real)
    requires Sane(levels) && Descending(levels) && 0.0 <= k <= 1.0 && 0.0 <= x && 0.0 <= y
    ensures ConcaveAt(Selling(levels), k, x, y)
  {
    var z := Between(k, x, y);
    BetweenNonneg(k, x, y);
    SellAboveChord(levels, k, x, y, z);
  }

  lemma {:induction false} SellAboveChord(levels: seq<Level>, k: real, x: real, y: real, z: real)
    requires Sane(levels) && Descending(levels) && 0.0 <= k <= 1.0 && 0.0 <= x && 0.0 <= y
    requires z == Between(k, x, y) && 0.0 <= z
    ensures Between(k, SellQuote(levels, x), SellQuote(levels, y)) <= SellQuote(levels, z)
  {
    var f, g, h, p := Tangent(levels, x, y, z);
    BelowLine(f, g, h, p, k, x, y);
    assert Between(k, f, g) <= h;
  }

  /** The walk at three amounts, the first two below a line through the third. */
  lemma {:induction false} Tangent(levels: seq<Level>, x: real, y: real, z: real)
    returns (f: real, g: real, h: real, p: real)
    requires Sane(levels) && Descending(levels) && 0.0 <= x && 0.0 <= y && 0.0 <= z
    ensures f == SellQuote(levels, x) && g == SellQuote(levels, y) && h == SellQuote(levels, z)
    ensures f <= h + (x - z) * p && g <= h + (y - z) * p
  {
    f, g, h, p := SellQuote(levels, x), SellQuote(levels, y), SellQuote(levels, z), Marginal(levels, z);
    SellConcave(levels, z, x);
    SellConcave(levels, z, y);
  }

  /** Two values below a line through `h`: so is every value between them. */
  lemma BelowLine(f: real, g: real, h: real, p: real, k: real, x: real, y: real)
    requires 0.0 <= k <= 1.0
    requires f <= h + (x - Between(k, x, y)) * p && g <= h + (y - Between(k, x, y)) * p
    ensures Between(k, f, g) <= h
  {
    var z := Between(k, x, y);
    var l, u, v := 1.0 - k, x - z, y - z;
    Balance(k, x, y);
    Regroup(k, l, u, v, p);
    ChordBelow(f, g, h, u * p, v * p, k, l);
  }

  /** Seen from the point between them, the two ends balance. */
  lemma Balance(k: real, x: real, y: real)
    ensures k * (x - Between(k, x, y)) + (1.0 - k) * (y - Between(k, x, y)) == 0.0
  {
    var z := Between(k, x, y);
    assert k * (x - z) + (1.0 - k) * (y - z) == Between(k, x, y) - z;
  }

  /** A weighted mean of numbers that are below `h` up to errors which cancel. */
  lemma ChordBelow(f: real, g: real, h: real, a: real, b: real, k: real, l: real)
    requires 0.0 <= k && 0.0 <= l && k + l == 1.0 && f <= h + a && g <= h + b && k * a + l * b == 0.0
    ensures k * f + l * g <= h
  {
    ScaledBound(f, h, a, k);
    ScaledBound(g, h, b, l);
    Whole(h, k, l);
    var kf, kh, ka, lg, lh, lb := k * f, k * h, k * a, l * g, l * h, l * b;
    assert kf <= kh + ka;
    assert lg <= lh + lb;
    assert kh + lh == h;
    assert ka + lb == 0.0;
    assert kf + lg <= h;
  }

  lemma Whole(h: real, k: real, l: real)
    requires k + l == 1.0
    ensures k * h + l * h == h
  {
    assert l == 1.0 - k;
    assert (1.0 - k) * h == h - k * h;
  }

  lemma ScaledBound(f: real, h: real, a: real, k: real)
    requires 0.0 <= k && f <= h + a
    ensures k * f <= k * h + k * a
  {
    MulMono(f, h + a, k);
  }

  lemma Regroup(k: real, l: real, u: real, v: real, p: real)
    ensures k * (u * p) + l * (v * p) == (k * u + l * v) * p
  {
  }

  lemma {:induction false} NetConcave(leg: Leg)
    requires LegSane(leg) && LegSorted(leg)
    ensures Concave(Net(leg))
  {
    LevelsFacts(leg);
    SellingConcave(Levels(leg));
    FeeConcave(Selling(Levels(leg)), FEE_KEPT);
  }

  /** With values `u` of what is put in and `v` of what comes out, no level of the book pays more than their ratio. */
  ghost predicate Consistent(leg: Leg, u: real, v: real) {
    match leg
    case Sell(bids) => forall i :: 0 <= i < |bids| ==> bids[i].price * v <= u
    case Buy(asks) => forall i :: 0 <= i < |asks| ==> v <= asks[i].price * u
  }

  ghost predicate AllAtMost(levels: seq<Level>, r: real) { forall i :: 0 <= i < |levels| ==> levels[i].price <= r }

  lemma {:induction false} ConsistentLevels(leg: Leg, u: real, v: real)
    requires LegSane(leg) && 0.0 < v && Consistent(leg, u, v)
    ensures AllAtMost(Levels(leg), u / v)
  {
    match leg
    case Sell(bids) =>
      forall i | 0 <= i < |bids| ensures bids[i].price <= u / v { DivAtMost(u, v, bids[i].price); }
    case Buy(asks) =>
      forall i | 0 <= i < |asks| ensures Mirror(asks)[i].price <= u / v { ReciprocalAtMost(asks[i].price, u, v); }
  }

  lemma ReciprocalAtMost(p: real, u: real, v: real)
    requires 0.0 < p && 0.0 < v && v <= p * u
    ensures 1.0 / p <= u / v
  {
    var q := 1.0 / p;
    DivMul(1.0, p);
    DivNonneg(1.0, p);
    MulMono(v, p * u, q);
    assert p * u * q == q * p * u;
    DivAtMost(u, v, q);
  }

  lemma {:induction false} SellingKeepsValue(levels: seq<Level>, u: real, v: real)
    requires Sane(levels) && 0.0 < u && 0.0 < v && AllAtMost(levels, u / v)
    ensures KeepsValue(Selling(levels), u, v, 1.0)
  {
    var r := u / v;
    DivMul(u, v);
    DivNonneg(u, v);
    forall x: real | 0.0 <= x ensures 0.0 <= Selling(levels)(x) && Selling(levels)(x) * v <= x * u * 1.0 {
      SellNonneg(levels, x);
      SellAtMost(levels, x, r);
      RateToValue(SellQuote(levels, x), x, r, u, v);
    }
  }

  lemma RateToValue(f: real, x: real, r: real, u: real, v: real)
    requires f <= x * r && r * v == u && 0.0 < v
    ensures f * v <= x * u
  {
    MulMono(f, x * r, v);
    assert x * (r * v) == x * r * v;
  }

  lemma {:induction false} NetKeepsValue(leg: Leg, u: real, v: real)
    requires LegSane(leg) && 0.0 < u && 0.0 < v && Consistent(leg, u, v)
    ensures KeepsValue(Net(leg), u, v, FEE_KEPT)
  {
    LevelsFacts(leg);
    ConsistentLevels(leg, u, v);
    SellingKeepsValue(Levels(leg), u, v);
    FeeKeepsValue(Selling(Levels(leg)), u, v, FEE_KEPT);
  }

  // ---------------------------------------------------------------- best levels

  /** Price of the first level that holds any volume, 0 if none does. */
  function Best(levels: seq<Level>): real {
    if levels == [] then 0.0 else if levels[0].volume > 0.0 then levels[0].price else Best(levels[1..])
  }

  /** An amount the best level takes whole. */
  function BestVolume(levels: seq<Level>): real {
    if levels == [] then 1.0 else if levels[0].volume > 0.0 then levels[0].volume else BestVolume(levels[1..])
  }

  lemma {:induction false} BestIsTop(levels: seq<Level>)
    requires Sane(levels)
    ensures 0.0 <= Best(levels) && 0.0 < BestVolume(levels)
  {
    if levels != [] { BestIsTop(levels[1..]); }
  }

  lemma {:induction false} SmallSaleAtBest(levels: seq<Level>, x: real)
    requires Sane(levels) && 0.0 <= x <= BestVolume(levels)
    ensures SellQuote(levels, x) == x * Best(levels)
  {
    if levels != [] && levels[0].volume <= 0.0 {
      if x == 0.0 {
        SellNothing(levels);
      } else {
        SmallSaleAtBest(levels[1..], x);
        assert SellQuote(levels, x) == SellQuote(levels[1..], x);
      }
    }
  }

  lemma {:induction false} SaleAtMostBest(levels: seq<Level>, x: real)
    requires Sane(levels) && Descending(levels) && 0.0 <= x
    ensures SellQuote(levels, x) <= x * Best(levels)
  {
    if levels != [] {
      if levels[0].volume > 0.0 {
        SellAtMost(levels, x, levels[0].price);
      } else if x == 0.0 {
        SellNothing(levels);
      } else {
        SaleAtMostBest(levels[1..], x);
        assert SellQuote(levels, x) == SellQuote(levels[1..], x);
      }
    }
  }

  /** Kept per unit at the best price. */
  ghost function Rate(leg: Leg): real
    requires LegSane(leg)
  {
    Best(Levels(leg)) * FEE_KEPT
  }

  ghost function Rates(legs: seq<Leg>): (r: seq<real>)
    requires AllSane(legs)
    ensures |r| == |legs| && forall i :: 0 <= i < |legs| ==> r[i] == Rate(legs[i])
  {
    seq(|legs|, i requires 0 <= i < |legs| => Rate(legs[i]))
  }

  ghost function Depths(legs: seq<Leg>): (r: seq<real>)
    requires AllSane(legs)
    ensures |r| == |legs| && forall i :: 0 <= i < |legs| ==> r[i] == BestVolume(Levels(legs[i]))
  {
    seq(|legs|, i requires 0 <= i < |legs| => BestVolume(Levels(legs[i])))
  }

  lemma {:induction false} SellingBestRate(levels: seq<Level>)
    requires Sane(levels) && Descending(levels)
    ensures BestRate(Selling(levels), Best(levels), BestVolume(levels))
  {
    BestIsTop(levels);
    forall x: real | 0.0 <= x ensures BestAt(Selling(levels), Best(levels), BestVolume(levels), x) {
      SellingBestAt(levels, x);
    }
  }

  lemma {:induction false} SellingBestAt(levels: seq<Level>, x: real)
    requires Sane(levels) && Descending(levels) && 0.0 <= x
    ensures BestAt(Selling(levels), Best(levels), BestVolume(levels), x)
  {
    SellNonneg(levels, x);
    SaleAtMostBest(levels, x);
    if x <= BestVolume(levels) { SmallSaleAtBest(levels, x); }
  }

  lemma {:induction false} NetBestRate(leg: Leg)
    requires LegSane(leg) && LegSorted(leg)
    ensures BestRate(Net(leg), Rate(leg), BestVolume(Levels(leg)))
  {
    LevelsFacts(leg);
    SellingBestRate(Levels(leg));
    FeeBestRate(Selling(Levels(leg)), Best(Levels(leg)), BestVolume(Levels(leg)), FEE_KEPT);
  }

  lemma {:induction false} NetsBestRates(legs: seq<Leg>)
    requires AllSane(legs) && AllSorted(legs)
    ensures BestRates(Nets(legs), Rates(legs), Depths(legs))
    decreases |legs|
  {
    if legs != [] {
      NetBestRate(legs[0]);
      NetsBestRates(legs[1..]);
      assert Nets(legs)[1..] == Nets(legs[1..]);
      assert Rates(legs)[1..] == Rates(legs[1..]);
      assert Depths(legs)[1..] == Depths(legs[1..]);
    }
  }

  /** Some amount grows along the path exactly when the best prices alone, after fees, multiply to more than one. */
  lemma {:induction false} ProfitableExactly(legs: seq<Leg>)
    requires AllSane(legs) && AllSorted(legs)
    ensures AtBest(Rates(legs)) > 1.0 ==> exists x: real :: 0.0 < x && Through(Nets(legs), x) > x
    ensures forall x: real :: 0.0 < x && Through(Nets(legs), x) > x ==> AtBest(Rates(legs)) > 1.0
  {
    NetsBestRates(legs);
    GrowsExactly(Nets(legs), Rates(legs), Depths(legs));
  }

  lemma {:induction false} NetsThinning(legs: seq<Leg>)
    requires AllSane(legs) && AllSorted(legs)
    ensures AllThinning(Nets(legs))
  {
    forall i | 0 <= i < |legs| ensures Thinning(Nets(legs)[i]) { NetThinning(legs[i]); }
  }

  lemma {:induction false} SortedPath(legs: seq<Leg>, x: real, y: real) returns (fs: seq<Exchange>)
    requires AllSane(legs) && AllSorted(legs) && 0.0 <= x && 0.0 <= y
    ensures AllThinning(fs)
    ensures Follow(legs, Val(x)) == Val(Through(fs, x)) && Follow(legs, Val(y)) == Val(Through(fs, y))
  {
    fs := Nets(legs);
    NetsThinning(legs);
    FollowIsThrough(legs, x);
    FollowIsThrough(legs, y);
  }

  /** Three amounts, one between the other two: it ends with at least what lies between their ends. */
  ghost predicate ConcaveFrom(legs: seq<Leg>, k: real, x: real, y: real) {
    var a, b, c := Follow(legs, Val(x)), Follow(legs, Val(y)), Follow(legs, Val(Between(k, x, y)));
    a.Val? && b.Val? && c.Val? && Between(k, a.v, b.v) <= c.v
  }

  /** Along sorted books the end amount is concave in the start amount. */
  lemma {:induction false} PathConcave(legs: seq<Leg>, k: real, x: real, y: real)
    requires AllSane(legs) && AllSorted(legs) && 0.0 <= k <= 1.0 && 0.0 <= x && 0.0 <= y
    ensures ConcaveFrom(legs, k, x, y)
  {
    var z := Between(k, x, y);
    BetweenNonneg(k, x, y);
    FollowIsThrough(legs, x);
    FollowIsThrough(legs, y);
    FollowIsThrough(legs, z);
    NetsConcaveAt(legs, k, x, y);
  }

  lemma {:induction false} NetsConcaveAt(legs: seq<Leg>, k: real, x: real, y: real)
    requires AllSane(legs) && AllSorted(legs) && 0.0 <= k <= 1.0 && 0.0 <= x && 0.0 <= y
    ensures Between(k, Through(Nets(legs), x), Through(Nets(legs), y)) <= Through(Nets(legs), Between(k, x, y))
  {
    NetsThinning(legs);
    forall i | 0 <= i < |legs| ensures Concave(Nets(legs)[i]) { NetConcave(legs[i]); }
    ThroughConcave(Nets(legs), k, x, y);
  }

  /** What two amounts end as: the larger with no less, and no more per unit. */
  lemma {:induction false} PathOfTwo(legs: seq<Leg>, x: real, y: real) returns (f: real, g: real)
    requires AllSane(legs) && AllSorted(legs) && 0.0 < x <= y
    ensures Follow(legs, Val(x)) == Val(f) && Follow(legs, Val(y)) == Val(g)
    ensures f <= g && g * x <= f * y
  {
    var fs := SortedPath(legs, x, y);
    f, g := ThroughOfTwo(fs, x, y);
  }
}
