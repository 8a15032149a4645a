/**
 * Walking the depth of an order book (arbitrage/main.cpp, getBestTurnOver): selling
 * an amount of base into the bids, spending an amount of quote on the asks.
 */
module DepthWalk {
  import opened Common
  import opened RealLemmas

  datatype Level = Level(price: real, volume: real)

  datatype Book = Book(bids: seq<Level>, asks: seq<Level>)

  datatype TurnOver = TurnOver(base: Num, quote: real, nextAsk: real, nextBid: real)

  // ---------------------------------------------------------------- the two walks

  /** Quote received for selling `x` into the levels, best first. */
  function SellQuote(bids: seq<Level>, x: real): real {
    if bids == [] then 0.0
    else if x <= bids[0].volume then x * bids[0].price
    else bids[0].volume * bids[0].price + SellQuote(bids[1..], x - bids[0].volume)
  }

  function Cost(l: Level): real { l.price * l.volume }

  function Bought(l: Level, q: real): Num { if l.price > 0.0 then Val(q / l.price) else NaN }

  /** Base bought for `q`, NaN where the last level reached has no positive price. */
  function BuyBase(asks: seq<Level>, q: real): Num {
    if asks == [] then Val(0.0)
    else if q <= Cost(asks[0]) then
      Bought(asks[0], q)
    else Add(Val(asks[0].volume), BuyBase(asks[1..], q - Cost(asks[0])))
  }

  /** Index of the level at which `x` is used up; the number of levels if it never is. */
  function SellDepth(bids: seq<Level>, x: real): (k: nat)
    ensures k <= |bids|
  {
    if bids == [] || x <= bids[0].volume then 0 else 1 + SellDepth(bids[1..], x - bids[0].volume)
  }

  function BuyDepth(asks: seq<Level>, q: real): (k: nat)
    ensures k <= |asks|
  {
    if asks == [] || q <= Cost(asks[0]) then 0
    else 1 + BuyDepth(asks[1..], q - Cost(asks[0]))
  }

  /** The reported next level: one past the level reached, the last one at the end, -1 for no levels. */
  function NextLevel(levels: seq<Level>, depth: nat): real {
    if levels == [] then -1.0 else levels[Min(depth + 1, |levels| - 1)].price
  }

  /** `<=` on doubles: false for NaN. */
  predicate AtMost(x: Num, v: real) { x.Val? && x.v <= v }

  /** An amount that is NaN never fits a level, so the walk takes the whole book. */
  function SellQuoteOf(bids: seq<Level>, x: Num): real {
    if x.Val? then SellQuote(bids, x.v) else TotalValue(bids)
  }

  function BuyBaseOf(asks: seq<Level>, q: Num): Num {
    if q.Val? then BuyBase(asks, q.v) else Val(TotalVolume(asks))
  }

  function SellDepthOf(bids: seq<Level>, x: Num): nat { if x.Val? then SellDepth(bids, x.v) else |bids| }

  function BuyDepthOf(asks: seq<Level>, q: Num): nat { if q.Val? then BuyDepth(asks, q.v) else |asks| }

  function TotalVolume(levels: seq<Level>): real {
    if levels == [] then 0.0 else levels[0].volume + TotalVolume(levels[1..])
  }

  function TotalValue(levels: seq<Level>): real {
    if levels == [] then 0.0 else levels[0].volume * levels[0].price + TotalValue(levels[1..])
  }

  /** What the two walks over a book report. */
  function TurnOverOf(book: Book, amount: Num): TurnOver {
    TurnOver(BuyBaseOf(book.asks, amount), SellQuoteOf(book.bids, amount),
             NextLevel(book.asks, BuyDepthOf(book.asks, amount)),
             NextLevel(book.bids, SellDepthOf(book.bids, amount)))
  }

  /** Both walks over one book, as the loops compute them. */
  method GetBestTurnOver(book: Book, amount: Num) returns (t: TurnOver)
    ensures t == TurnOverOf(book, amount)
    ensures t.quote == SellQuoteOf(book.bids, amount) && t.base == BuyBaseOf(book.asks, amount)
    ensures NextBidReported(book.bids, amount, t.nextBid) && NextAskReported(book.asks, amount, t.nextAsk)
  {
    var receiveQuote, nextBid := SellLoop(book.bids, amount);
    var receiveBase, nextAsk := BuyLoop(book.asks, amount);
    t := TurnOver(receiveBase, receiveQuote, nextAsk, nextBid);
    TurnOverReports(book, amount);
  }

  /**
   * The level after the last one sold into, or the last one: the levels before its
   * predecessor hold less than the amount, and unless it is the last, those before it
   * hold the whole amount.
   */
  ghost predicate BidAfterSale(bids: seq<Level>, x: real, price: real, j: nat) {
    && j < |bids| && price == bids[j].price
    && (j > 0 ==> TotalVolume(bids[..j - 1]) < x)
    && (j < |bids| - 1 ==> x <= TotalVolume(bids[..j]))
  }

  /** The same of a purchase, by what the levels cost. */
  ghost predicate AskAfterPurchase(asks: seq<Level>, q: real, price: real, j: nat) {
    && j < |asks| && price == asks[j].price
    && (j > 0 ==> TotalValue(asks[..j - 1]) < q)
    && (j < |asks| - 1 ==> q <= TotalValue(asks[..j]))
  }

  /** What is reported as the next bid: -1 without bids, the last one for NaN. */
  ghost predicate NextBidReported(bids: seq<Level>, amount: Num, price: real) {
    && (bids == [] ==> price == -1.0)
    && (bids != [] && amount.NaN? ==> price == bids[|bids| - 1].price)
    && (Sane(bids) && bids != [] ==> price > 0.0)
    && (Sane(bids) && bids != [] && amount.Val? && 0.0 < amount.v ==>
          exists j: nat :: BidAfterSale(bids, amount.v, price, j))
  }

  ghost predicate NextAskReported(asks: seq<Level>, amount: Num, price: real) {
    && (asks == [] ==> price == -1.0)
    && (asks != [] && amount.NaN? ==> price == asks[|asks| - 1].price)
    && (Sane(asks) && asks != [] ==> price > 0.0)
    && (Sane(asks) && asks != [] && amount.Val? && 0.0 < amount.v ==>
          exists j: nat :: AskAfterPurchase(asks, amount.v, price, j))
  }

  /** Each reported level belongs to its own side and is the one after the walk. */
  lemma {:induction false} TurnOverReports(book: Book, amount: Num)
    ensures var t := TurnOverOf(book, amount);
      NextBidReported(book.bids, amount, t.nextBid) && NextAskReported(book.asks, amount, t.nextAsk)
  {
    if amount.Val? && 0.0 < amount.v {
      if Sane(book.bids) && book.bids != [] { NextBidByVolume(book.bids, amount.v); }
      if Sane(book.asks) && book.asks != [] { NextAskByCost(book.asks, amount.v); }
    }
  }

  lemma {:induction false} NextBidByVolume(bids: seq<Level>, x: real)
    requires Sane(bids) && bids != [] && 0.0 < x
    ensures BidAfterSale(bids, x, NextLevel(bids, SellDepth(bids, x)), Min(SellDepth(bids, x) + 1, |bids| - 1))
  {
    var k := SellDepth(bids, x);
    var j := Min(k + 1, |bids| - 1);
    SellDepthByVolume(bids, x);
    if j > 0 { VolumeGrows(bids, j - 1, k); }
  }

  lemma {:induction false} SellDepthByVolume(bids: seq<Level>, x: real)
    requires Sane(bids) && 0.0 < x
    ensures var k := SellDepth(bids, x);
      TotalVolume(bids[..k]) < x && (k < |bids| ==> x <= TotalVolume(bids[..k + 1]))
  {
    if bids != [] {
      var k, rest := SellDepth(bids, x), bids[1..];
      if x <= bids[0].volume {
        FirstVolume(bids, 1);
        assert TotalVolume(bids[..0]) == 0.0;
      } else {
        SellDepthByVolume(rest, x - bids[0].volume);
        FirstVolume(bids, k);
        if k < |bids| { FirstVolume(bids, k + 1); }
      }
    }
  }

  lemma FirstVolume(levels: seq<Level>, n: nat)
    requires 0 < n <= |levels|
    ensures TotalVolume(levels[..n]) == levels[0].volume + TotalVolume(levels[1..][..n - 1])
    ensures TotalValue(levels[..n]) == levels[0].volume * levels[0].price + TotalValue(levels[1..][..n - 1])
  {
    assert levels[..n][1..] == levels[1..][..n - 1];
  }

  lemma {:induction false} VolumeGrows(levels: seq<Level>, a: nat, b: nat)
    requires Sane(levels) && a <= b <= |levels|
    ensures TotalVolume(levels[..a]) <= TotalVolume(levels[..b]) && TotalValue(levels[..a]) <= TotalValue(levels[..b])
  {
    if b > 0 {
      FirstVolume(levels, b);
      if a > 0 {
        FirstVolume(levels, a);
        VolumeGrows(levels[1..], a - 1, b - 1);
      } else {
        VolumeGrows(levels[1..], 0, b - 1);
        MulNonneg(levels[0].volume, levels[0].price);
        assert levels[1..][..0] == levels[..0] == [];
      }
    }
  }

  lemma {:induction false} NextAskByCost(asks: seq<Level>, q: real)
    requires Sane(asks) && asks != [] && 0.0 < q
    ensures AskAfterPurchase(asks, q, NextLevel(asks, BuyDepth(asks, q)), Min(BuyDepth(asks, q) + 1, |asks| - 1))
  {
    var k := BuyDepth(asks, q);
    var j := Min(k + 1, |asks| - 1);
    BuyDepthByCost(asks, q);
    if j > 0 { VolumeGrows(asks, j - 1, k); }
  }

  lemma {:induction false} BuyDepthByCost(asks: seq<Level>, q: real)
    requires Sane(asks) && 0.0 < q
    ensures var k := BuyDepth(asks, q);
      TotalValue(asks[..k]) < q && (k < |asks| ==> q <= TotalValue(asks[..k + 1]))
  {
    if asks != [] {
      var k, rest := BuyDepth(asks, q), asks[1..];
      if q <= Cost(asks[0]) {
        FirstVolume(asks, 1);
        assert TotalValue(asks[..0]) == 0.0;
      } else {
        BuyDepthByCost(rest, q - Cost(asks[0]));
        FirstVolume(asks, k);
        if k < |asks| { FirstVolume(asks, k + 1); }
      }
    }
  }

  /** NaN is taken for more than the book holds: it sells into, or buys, the whole side. */
  lemma {:induction false} NaNTakesAll(book: Book, x: real)
    requires Sane(book.bids) && Sane(book.asks)
    ensures TotalVolume(book.bids) < x ==> SellQuoteOf(book.bids, NaN) == SellQuoteOf(book.bids, Val(x))
    ensures TotalValue(book.asks) < x ==> BuyBaseOf(book.asks, NaN) == BuyBaseOf(book.asks, Val(x))
  {
    if TotalVolume(book.bids) < x { SellWhole(book.bids, x); }
    if TotalValue(book.asks) < x { BuyWhole(book.asks, x); }
  }

  lemma {:induction false} SellWhole(bids: seq<Level>, x: real)
    requires Sane(bids) && TotalVolume(bids) < x
    ensures SellQuote(bids, x) == TotalValue(bids)
  {
    if bids != [] {
      VolumeGrows(bids[1..], 0, |bids[1..]|);
      assert bids[1..][..|bids[1..]|] == bids[1..];
      SellWhole(bids[1..], x - bids[0].volume);
    }
  }

  lemma {:induction false} BuyWhole(asks: seq<Level>, q: real)
    requires Sane(asks) && TotalValue(asks) < q
    ensures BuyBase(asks, q) == Val(TotalVolume(asks))
  {
    if asks != [] {
      VolumeGrows(asks[1..], 0, |asks[1..]|);
      assert asks[1..][..|asks[1..]|] == asks[1..];
      BuyWhole(asks[1..], q - Cost(asks[0]));
    }
  }

  method SellLoop(bids: seq<Level>, amount: Num) returns (receiveQuote: real, nextBid: real)
    ensures receiveQuote == SellQuoteOf(bids, amount)
    ensures nextBid == NextLevel(bids, SellDepthOf(bids, amount))
  {
    var base := amount;
    receiveQuote := 0.0;
    nextBid := -1.0;
    var brek := false;
    var i := 0;
    while i < |bids|
      invariant 0 <= i <= |bids|
      invariant i > 0 ==> nextBid == bids[i - 1].price
      invariant i == 0 ==> nextBid == -1.0 && !brek
      invariant !brek ==> base.Val? == amount.Val?
      invariant !brek ==> receiveQuote + SellQuoteOf(bids[i..], base) == SellQuoteOf(bids, amount)
      invariant !brek ==> SellDepthOf(bids, amount) == i + SellDepthOf(bids[i..], base)
      invariant brek ==> receiveQuote == SellQuoteOf(bids, amount) && SellDepthOf(bids, amount) == i - 1
    {
      var price, volume := bids[i].price, bids[i].volume;
      nextBid := price;
      if brek { break; }
      assert bids[i..][0] == bids[i] && bids[i..][1..] == bids[i + 1..];
      if AtMost(base, volume) {
        receiveQuote := receiveQuote + base.v * price;
        base := Val(0.0);
        brek := true;
      } else {
        receiveQuote := receiveQuote + volume * price;
        base := Add(base, Val(-volume));
      }
      i := i + 1;
    }
  }

  lemma BuyUnfold(asks: seq<Level>, i: nat, q: Num)
    requires i < |asks|
    ensures AtMost(q, Cost(asks[i])) ==>
      && BuyBaseOf(asks[i..], q) == Bought(asks[i], q.v)
      && BuyDepthOf(asks[i..], q) == 0
    ensures !AtMost(q, Cost(asks[i])) ==>
      var q' := Add(q, Val(-Cost(asks[i])));
      && BuyBaseOf(asks[i..], q) == Add(Val(asks[i].volume), BuyBaseOf(asks[i + 1..], q'))
      && BuyDepthOf(asks[i..], q) == 1 + BuyDepthOf(asks[i + 1..], q')
  {
    assert asks[i..][0] == asks[i] && asks[i..][1..] == asks[i + 1..];
  }

  /** What the ask loop still owes: the outcome of the whole walk in terms of the levels from `i` on. */
  ghost predicate BuyOwes(asks: seq<Level>, amount: Num, i: nat, quote: Num, got: Num) {
    && i <= |asks|
    && BuyBaseOf(asks, amount) == Add(got, BuyBaseOf(asks[i..], quote))
    && BuyDepthOf(asks, amount) == i + BuyDepthOf(asks[i..], quote)
  }

  lemma BuyOwesStep(asks: seq<Level>, amount: Num, i: nat, quote: Num, got: Num)
    requires i < |asks| && got.Val? && BuyOwes(asks, amount, i, quote, got)
    ensures AtMost(quote, Cost(asks[i])) ==>
      BuyBaseOf(asks, amount) == Add(got, Bought(asks[i], quote.v)) && BuyDepthOf(asks, amount) == i
    ensures !AtMost(quote, Cost(asks[i])) ==>
      BuyOwes(asks, amount, i + 1, Add(quote, Val(-Cost(asks[i]))), Add(got, Val(asks[i].volume)))
  {
    BuyUnfold(asks, i, quote);
  }

  method BuyLoop(asks: seq<Level>, amount: Num) returns (receiveBase: Num, nextAsk: real)
    ensures receiveBase == BuyBaseOf(asks, amount)
    ensures nextAsk == NextLevel(asks, BuyDepthOf(asks, amount))
  {
    var quote := amount;
    receiveBase := Val(0.0);
    nextAsk := -1.0;
    var brek := false;
    var i := 0;
    assert asks[0..] == asks;
    while i < |asks|
      invariant 0 <= i <= |asks|
      invariant i > 0 ==> nextAsk == asks[i - 1].price
      invariant i == 0 ==> nextAsk == -1.0 && !brek
      invariant !brek ==> receiveBase.Val? && BuyOwes(asks, amount, i, quote, receiveBase)
      invariant brek ==> receiveBase == BuyBaseOf(asks, amount) && BuyDepthOf(asks, amount) == i - 1
    {
      var price, volume := asks[i].price, asks[i].volume;
      var t := price * volume;
      nextAsk := price;
      if brek { break; }
      BuyOwesStep(asks, amount, i, quote, receiveBase);
      assert t == Cost(asks[i]);
      if AtMost(quote, t) {
        receiveBase := Add(receiveBase, if price > 0.0 then Val(quote.v / price) else NaN);
        quote := Val(0.0);
        brek := true;
      } else {
        receiveBase := Add(receiveBase, Val(volume));
        quote := Add(quote, Val(-t));
        assert BuyOwes(asks, amount, i + 1, quote, receiveBase);
      }
      i := i + 1;
    }
  }

  // ---------------------------------------------------------------- NaN

  /** The ask walk uses up the amount at a level that asks nothing, or less. */
  predicate EndsUnpriced(asks: seq<Level>, q: real) {
    var k := BuyDepth(asks, q);
    k < |asks| && asks[k].price <= 0.0
  }

  /** The walk yields NaN exactly when it ends at a level without a positive price. */
  lemma {:induction false} BuyIsNaNExactly(asks: seq<Level>, q: real)
    ensures BuyBase(asks, q).NaN? <==> EndsUnpriced(asks, q)
  {
    if asks != [] && q > Cost(asks[0]) {
      BuyIsNaNExactly(asks[1..], q - Cost(asks[0]));
    }
  }

  /** No negative numbers. */
  ghost predicate NonNegative(levels: seq<Level>) {
    forall i :: 0 <= i < |levels| ==> levels[i].price >= 0.0 && levels[i].volume >= 0.0
  }

  /** On numbers that are not negative, only an amount of 0 ends unpriced: at a first ask of price 0. */
  lemma {:induction false} EndsUnpricedExactly(asks: seq<Level>, q: real)
    requires NonNegative(asks) && 0.0 <= q
    ensures EndsUnpriced(asks, q) <==> q == 0.0 && asks != [] && asks[0].price == 0.0
  {
    if asks != [] {
      MulNonneg(asks[0].price, asks[0].volume);
      if q > Cost(asks[0]) { EndsUnpricedExactly(asks[1..], q - Cost(asks[0])); }
    }
  }

  lemma {:induction false} BuyNonneg(asks: seq<Level>, q: real)
    requires NonNegative(asks) && 0.0 <= q
    ensures BuyBase(asks, q).Val? ==> 0.0 <= BuyBase(asks, q).v
  {
    if asks != [] {
      var l := asks[0];
      if q > Cost(l) {
        BuyNonneg(asks[1..], q - Cost(l));
      } else if l.price > 0.0 {
        DivNonneg(q, l.price);
      }
    }
  }

  /** Volume offered at price 0. */
  function FreeVolume(asks: seq<Level>): real {
    if asks == [] then 0.0 else (if asks[0].price == 0.0 then asks[0].volume else 0.0) + FreeVolume(asks[1..])
  }

  /** The levels that cost something. */
  function Priced(asks: seq<Level>): seq<Level> {
    if asks == [] then [] else (if asks[0].price > 0.0 then [asks[0]] else []) + Priced(asks[1..])
  }

  /** A purchase of `free` at no cost on top of what is paid for. */
  predicate FreeOnTop(bought: Num, free: real, paid: Num) { bought == Add(Val(free), paid) }

  /**
   * The zero-priced asks of an ascending book are taken whole and at no cost: the amount
   * buys what it would without them.
   */
  lemma {:induction false} FreeAsksAreTaken(asks: seq<Level>, q: real)
    requires NonNegative(asks) && Ascending(asks) && 0.0 < q
    ensures FreeOnTop(BuyBase(asks, q), FreeVolume(asks), BuyBase(Priced(asks), q))
  {
    if asks == [] || asks[0].price > 0.0 {
      NothingFree(asks);
      FreeNothing(BuyBase(asks, q));
    } else {
      FreeAsksAreTaken(asks[1..], q);
      FreeFirst(asks, q);
      FreeMore(BuyBase(asks, q), asks[0].volume, BuyBase(asks[1..], q), FreeVolume(asks[1..]),
               BuyBase(Priced(asks[1..]), q));
    }
  }

  lemma FreeNothing(x: Num)
    ensures FreeOnTop(x, 0.0, x)
  {
  }

  lemma FreeMore(bought: Num, v: real, rest: Num, f: real, paid: Num)
    requires bought == Add(Val(v), rest) && FreeOnTop(rest, f, paid)
    ensures FreeOnTop(bought, v + f, paid)
  {
  }

  lemma {:induction false} NothingFree(asks: seq<Level>)
    requires forall i :: 0 <= i < |asks| ==> asks[i].price > 0.0
    ensures FreeVolume(asks) == 0.0 && Priced(asks) == asks
  {
    if asks != [] { NothingFree(asks[1..]); }
  }

  /** A free ask is taken whole wherever the walk comes to it with an amount left. */
  lemma FreeFirst(asks: seq<Level>, q: real)
    requires asks != [] && asks[0].price == 0.0 && 0.0 < q
    ensures BuyBase(asks, q) == Add(Val(asks[0].volume), BuyBase(asks[1..], q))
    ensures Priced(asks) == Priced(asks[1..]) && FreeVolume(asks) == asks[0].volume + FreeVolume(asks[1..])
  {
    assert Cost(asks[0]) == 0.0;
    assert Priced(asks) == [] + Priced(asks[1..]);
  }

  // ---------------------------------------------------------------- books

  ghost predicate Sane(levels: seq<Level>) {
    forall i :: 0 <= i < |levels| ==> levels[i].price > 0.0 && levels[i].volume >= 0.0
  }

  ghost predicate Descending(levels: seq<Level>) {
    forall i, j :: 0 <= i < j < |levels| ==> levels[i].price >= levels[j].price
  }

  ghost predicate Ascending(levels: seq<Level>) {
    forall i, j :: 0 <= i < j < |levels| ==> levels[i].price <= levels[j].price
  }

  // ---------------------------------------------------------------- allocations

  /** An allocation sells part of each level's volume. */
  ghost predicate Feasible(levels: seq<Level>, a: seq<real>) {
    && |a| == |levels|
    && forall i :: 0 <= i < |a| ==> 0.0 <= a[i] <= levels[i].volume
  }

  function Value(levels: seq<Level>, a: seq<real>): real
    requires |a| == |levels|
  {
    if a == [] then 0.0 else a[0] * levels[0].price + Value(levels[1..], a[1..])
  }

  /** The allocation the bid loop makes. */
  function Greedy(bids: seq<Level>, x: real): (a: seq<real>)
    ensures |a| == |bids|
  {
    if bids == [] then []
    else if x <= bids[0].volume then [x] + seq(|bids| - 1, _ => 0.0)
    else [bids[0].volume] + Greedy(bids[1..], x - bids[0].volume)
  }

  lemma {:induction false} ZeroAllocation(levels: seq<Level>, n: nat)
    requires n == |levels|
    ensures SumOf(seq(n, _ => 0.0)) == 0.0 && Value(levels, seq(n, _ => 0.0)) == 0.0
  {
    if n > 0 {
      assert seq(n, _ => 0.0)[1..] == seq(n - 1, _ => 0.0);
      ZeroAllocation(levels[1..], n - 1);
    }
  }

  /** Conservation: the walk sells the smaller of the amount and the whole depth, and is paid level by level. */
  lemma {:induction false} GreedyIsTheWalk(bids: seq<Level>, x: real)
    requires Sane(bids) && 0.0 <= x
    ensures Feasible(bids, Greedy(bids, x))
    ensures SumOf(Greedy(bids, x)) == MinReal(x, TotalVolume(bids))
    ensures Value(bids, Greedy(bids, x)) == SellQuote(bids, x)
    ensures 0.0 <= TotalVolume(bids)
  {
    if bids != [] {
      var rest := bids[1..];
      if x <= bids[0].volume {
        ZeroAllocation(rest, |rest|);
        assert Greedy(bids, x)[1..] == seq(|rest|, _ => 0.0);
        GreedyIsTheWalk(rest, 0.0);
      } else {
        GreedyIsTheWalk(rest, x - bids[0].volume);
        assert Greedy(bids, x)[1..] == Greedy(rest, x - bids[0].volume);
      }
    }
  }

  // ---------------------------------------------------------------- duality

  /** What the levels above a price `p` are worth beyond it. */
  function Surplus(levels: seq<Level>, p: real): real {
    if levels == [] then 0.0
    else levels[0].volume * MaxReal(0.0, levels[0].price - p) + Surplus(levels[1..], p)
  }

  /** Price of the level at which `x` is used up, 0 when the book runs out first. */
  function Marginal(bids: seq<Level>, x: real): real {
    var k := SellDepth(bids, x);
    if k < |bids| then bids[k].price else 0.0
  }

  lemma {:induction false} AllocationBound(levels: seq<Level>, a: seq<real>, p: real)
    requires Sane(levels) && Feasible(levels, a)
    ensures 0.0 <= Surplus(levels, p)
    ensures Value(levels, a) <= SumOf(a) * p + Surplus(levels, p)
  {
    if a != [] {
      AllocationBound(levels[1..], a[1..], p);
      AddShare(a[0], levels[0].volume, levels[0].price, p,
               SumOf(a[1..]), Value(levels[1..], a[1..]), Surplus(levels[1..], p));
    }
  }

  lemma LevelShare(a: real, v: real, r: real, p: real)
    requires 0.0 <= a <= v
    ensures 0.0 <= v * MaxReal(0.0, r - p)
    ensures a * r <= a * p + v * MaxReal(0.0, r - p)
  {
    var m := MaxReal(0.0, r - p);
    MulNonneg(v, m);
    MulMono(r, p + m, a);
    MulMono(a, v, m);
    assert a * (p + m) == a * p + a * m;
  }

  /** One more level: its share of the allocation is bounded, so the whole stays bounded. */
  lemma AddShare(a: real, v: real, r: real, p: real, s: real, value: real, t: real)
    requires 0.0 <= a <= v && 0.0 <= t && value <= s * p + t
    ensures 0.0 <= v * MaxReal(0.0, r - p) + t
    ensures a * r + value <= (a + s) * p + (v * MaxReal(0.0, r - p) + t)
  {
    LevelShare(a, v, r, p);
    assert (a + s) * p == a * p + s * p;
  }

  lemma {:induction false} NoSurplus(levels: seq<Level>, p: real)
    requires forall i :: 0 <= i < |levels| ==> levels[i].price <= p
    ensures Surplus(levels, p) == 0.0
  {
    if levels != [] { NoSurplus(levels[1..], p); }
  }

  lemma {:induction false} MarginalAtMostTop(bids: seq<Level>, x: real)
    requires Sane(bids) && Descending(bids)
    ensures 0.0 <= Marginal(bids, x)
    ensures bids != [] ==> Marginal(bids, x) <= bids[0].price
  {
  }

  /** No price bounds the walk better than the marginal one, and that one is exact. */
  lemma {:induction false} SellDual(bids: seq<Level>, x: real)
    requires Sane(bids) && Descending(bids) && 0.0 <= x
    ensures 0.0 <= Marginal(bids, x)
    ensures SellQuote(bids, x) == x * Marginal(bids, x) + Surplus(bids, Marginal(bids, x))
  {
    MarginalAtMostTop(bids, x);
    if bids != [] {
      if x <= bids[0].volume {
        DualInFirst(bids, x);
      } else {
        SellDual(bids[1..], x - bids[0].volume);
        DualBeyondFirst(bids, x, Marginal(bids, x));
      }
    }
  }

  lemma DualBeyondFirst(bids: seq<Level>, x: real, p: real)
    requires bids != [] && bids[0].volume < x && p <= bids[0].price
    requires SellQuote(bids[1..], x - bids[0].volume) == (x - bids[0].volume) * p + Surplus(bids[1..], p)
    ensures SellQuote(bids, x) == x * p + Surplus(bids, p)
  {
    var l := bids[0];
    DualStep(l.volume, l.price, p, x, SellQuote(bids[1..], x - l.volume), Surplus(bids[1..], p));
  }

  lemma {:induction false} DualInFirst(bids: seq<Level>, x: real)
    requires bids != [] && Descending(bids) && x <= bids[0].volume
    ensures Marginal(bids, x) == bids[0].price
    ensures SellQuote(bids, x) == x * bids[0].price && Surplus(bids, bids[0].price) == 0.0
  {
    NoSurplus(bids, bids[0].price);
  }

  lemma DualStep(v: real, r: real, p: real, x: real, f: real, s: real)
    requires p <= r && f == (x - v) * p + s
    ensures v * r + f == x * p + (v * MaxReal(0.0, r - p) + s)
  {
    assert v * (r - p) == v * r - v * p;
  }

  /** The marginal price as a witness: it is all the proofs below need to know of the walk. */
  lemma {:induction false} MarginalPrice(bids: seq<Level>, x: real) returns (p: real)
    requires Sane(bids) && Descending(bids) && 0.0 <= x
    ensures 0.0 <= p && 0.0 <= Surplus(bids, p)
    ensures SellQuote(bids, x) == x * p + Surplus(bids, p)
  {
    p := Marginal(bids, x);
    SellDual(bids, x);
    SellBound(bids, x, p);
  }

  lemma {:induction false} SellBound(bids: seq<Level>, x: real, p: real)
    requires Sane(bids) && 0.0 <= x && 0.0 <= p
    ensures 0.0 <= Surplus(bids, p) && SellQuote(bids, x) <= x * p + Surplus(bids, p)
  {
    GreedyIsTheWalk(bids, x);
    AllocationBound(bids, Greedy(bids, x), p);
    AffineMono(SellQuote(bids, x), SumOf(Greedy(bids, x)), x, p, Surplus(bids, p));
  }

  // ---------------------------------------------------------------- selling

  /** Greedy optimality: on descending bids no allocation of at most `x` receives more quote. */
  lemma {:induction false} SellOptimal(bids: seq<Level>, a: seq<real>, x: real)
    requires Sane(bids) && Descending(bids) && 0.0 <= x && Feasible(bids, a) && SumOf(a) <= x
    ensures Value(bids, a) <= SellQuote(bids, x)
  {
    var p := MarginalPrice(bids, x);
    AllocationBound(bids, a, p);
    AffineMono(Value(bids, a), SumOf(a), x, p, Surplus(bids, p));
  }

  /** Concavity: the marginal price is the slope of a line through the walk that is nowhere below it. */
  lemma {:induction false} SellConcave(bids: seq<Level>, x: real, y: real)
    requires Sane(bids) && Descending(bids) && 0.0 <= x && 0.0 <= y
    ensures 0.0 <= Marginal(bids, x)
    ensures SellQuote(bids, y) <= SellQuote(bids, x) + (y - x) * Marginal(bids, x)
  {
    var s := MarginalSupport(bids, x, y);
    LineThrough(SellQuote(bids, x), SellQuote(bids, y), x, y, Marginal(bids, x), s);
  }

  lemma {:induction false} MarginalSupport(bids: seq<Level>, x: real, y: real) returns (s: real)
    requires Sane(bids) && Descending(bids) && 0.0 <= x && 0.0 <= y
    ensures 0.0 <= Marginal(bids, x)
    ensures SellQuote(bids, x) == x * Marginal(bids, x) + s && SellQuote(bids, y) <= y * Marginal(bids, x) + s
  {
    SellDual(bids, x);
    SellBound(bids, y, Marginal(bids, x));
    s := Surplus(bids, Marginal(bids, x));
  }

  lemma LineThrough(f: real, g: real, x: real, y: real, p: real, s: real)
    requires f == x * p + s && g <= y * p + s
    ensures g <= f + (y - x) * p
  {
    assert (y - x) * p == y * p - x * p;
  }

  lemma {:induction false} SellMonotone(bids: seq<Level>, x: real, y: real)
    requires Sane(bids) && Descending(bids) && 0.0 <= x <= y
    ensures 0.0 <= SellQuote(bids, x) <= SellQuote(bids, y)
  {
    SellNonneg(bids, x);
    var p, s := MarginalLine(bids, y, x);
    AffineMono(SellQuote(bids, x), x, y, p, s);
  }

  /** Average price: it never rises with the amount sold. */
  lemma {:induction false} SellAverageFalls(bids: seq<Level>, x: real, y: real)
    requires Sane(bids) && Descending(bids) && 0.0 <= x <= y
    ensures SellQuote(bids, y) * x <= SellQuote(bids, x) * y
  {
    var p, s := MarginalLine(bids, x, y);
    LineAverage(SellQuote(bids, x), SellQuote(bids, y), x, y, p, s);
  }

  lemma LineAverage(f: real, g: real, x: real, y: real, p: real, s: real)
    requires f == x * p + s && g <= y * p + s && 0.0 <= x <= y && 0.0 <= s
    ensures g * x <= f * y
  {
    MulMono(g, y * p + s, x);
    MulMono(x, y, s);
    assert (y * p + s) * x == y * p * x + s * x;
    assert (x * p + s) * y == y * p * x + s * y;
  }

  /** The line of the marginal price at `x`, and its value at another amount. */
  lemma {:induction false} MarginalLine(bids: seq<Level>, x: real, y: real) returns (p: real, s: real)
    requires Sane(bids) && Descending(bids) && 0.0 <= x && 0.0 <= y
    ensures 0.0 <= p && 0.0 <= s
    ensures SellQuote(bids, x) == x * p + s && SellQuote(bids, y) <= y * p + s
  {
    p := MarginalPrice(bids, x);
    s := Surplus(bids, p);
    SellBound(bids, y, p);
  }

  lemma AffineMono(v: real, x: real, y: real, p: real, s: real)
    requires v <= x * p + s && x <= y && 0.0 <= p
    ensures v <= y * p + s
  {
    MulMono(x, y, p);
  }

  lemma SellNothing(bids: seq<Level>)
    requires Sane(bids)
    ensures SellQuote(bids, 0.0) == 0.0
  {
  }

  /** A bound on every price is a bound on the average price, on sorted books or not. */
  lemma {:induction false} SellAtMost(bids: seq<Level>, x: real, r: real)
    requires Sane(bids) && 0.0 <= x && 0.0 <= r
    requires forall i :: 0 <= i < |bids| ==> bids[i].price <= r
    ensures SellQuote(bids, x) <= x * r
  {
    SellBound(bids, x, r);
    NoSurplus(bids, r);
  }

  /** How many levels come before the first that pays anything. */
  function PayingFrom(bids: seq<Level>): (k: nat)
    ensures k <= |bids|
  {
    if bids == [] || Cost(bids[0]) > 0.0 then 0 else 1 + PayingFrom(bids[1..])
  }

  predicate BringsNothing(bids: seq<Level>, x: real) {
    PayingFrom(bids) == |bids| || x <= TotalVolume(bids[..PayingFrom(bids)])
  }

  /** At positive prices a positive amount brings nothing exactly when the book holds no volume. */
  lemma {:induction false} NoVolumeBringsNothing(bids: seq<Level>, x: real)
    requires Sane(bids) && 0.0 < x
    ensures BringsNothing(bids, x) <==> TotalVolume(bids) == 0.0
  {
    if bids != [] {
      var l, rest := bids[0], bids[1..];
      if Cost(l) > 0.0 {
        VolumeNonneg(rest, |rest|);
        assert rest[..|rest|] == rest && TotalVolume(bids[..0]) == 0.0;
        if l.volume <= 0.0 { MulMono(l.volume, 0.0, l.price); }
        assert TotalVolume(bids) > 0.0 && !BringsNothing(bids, x);
      } else {
        if l.volume > 0.0 { MulPos(l.price, l.volume); }
        assert l.volume == 0.0;
        NoVolumeBringsNothing(rest, x);
        var before := bids[..PayingFrom(bids)];
        assert before[0] == l && before[1..] == rest[..PayingFrom(rest)];
        assert TotalVolume(before) == l.volume + TotalVolume(before[1..]);
        assert TotalVolume(bids) == l.volume + TotalVolume(rest);
      }
    }
  }

  /** A sale brings nothing exactly when the levels before the first paying one take it whole, or none pays. */
  lemma {:induction false} SaleBringsNothingExactly(bids: seq<Level>, x: real)
    requires NonNegative(bids) && 0.0 <= x
    ensures 0.0 <= SellQuote(bids, x)
    ensures SellQuote(bids, x) == 0.0 <==> BringsNothing(bids, x)
  {
    if bids != [] {
      var l, rest := bids[0], bids[1..];
      MulNonneg(l.volume, l.price);
      if Cost(l) > 0.0 {
        if x <= l.volume { PaidShare(l, x); } else { SaleBringsNothingExactly(rest, x - l.volume); }
      } else {
        VolumeNonneg(rest, PayingFrom(rest));
        var before := bids[..PayingFrom(bids)];
        assert before[0] == l && before[1..] == rest[..PayingFrom(rest)];
        if x <= l.volume { UnpaidShare(l, x); } else { SaleBringsNothingExactly(rest, x - l.volume); }
      }
    }
  }

  lemma PaidShare(l: Level, x: real)
    requires l.price >= 0.0 && l.volume >= 0.0 && Cost(l) > 0.0 && 0.0 <= x
    ensures 0.0 <= x * l.price && (x * l.price == 0.0 <==> x == 0.0)
  {
    MulNonneg(x, l.price);
    if x > 0.0 { MulPos(x, l.price); }
  }

  lemma UnpaidShare(l: Level, x: real)
    requires l.price >= 0.0 && 0.0 <= x <= l.volume && Cost(l) <= 0.0
    ensures x * l.price == 0.0
  {
    MulMono(x, l.volume, l.price);
    MulNonneg(x, l.price);
  }

  lemma {:induction false} VolumeNonneg(levels: seq<Level>, n: nat)
    requires NonNegative(levels) && n <= |levels|
    ensures 0.0 <= TotalVolume(levels[..n])
  {
    if n > 0 {
      assert levels[..n][1..] == levels[1..][..n - 1];
      VolumeNonneg(levels[1..], n - 1);
    }
  }

  lemma {:induction false} SellNonneg(bids: seq<Level>, x: real)
    requires Sane(bids) && 0.0 <= x
    ensures 0.0 <= SellQuote(bids, x)
  {
    if bids != [] {
      if x <= bids[0].volume {
        MulNonneg(x, bids[0].price);
      } else {
        MulNonneg(bids[0].volume, bids[0].price);
        SellNonneg(bids[1..], x - bids[0].volume);
      }
    }
  }

  // ---------------------------------------------------------------- path independence

  /** The bids left after selling `x` into them. */
  function Residual(bids: seq<Level>, x: real): seq<Level> {
    if bids == [] then []
    else if x <= bids[0].volume then [Level(bids[0].price, bids[0].volume - x)] + bids[1..]
    else Residual(bids[1..], x - bids[0].volume)
  }

  lemma {:induction false} ResidualVolume(bids: seq<Level>, x: real)
    requires Sane(bids) && 0.0 <= x
    ensures Sane(Residual(bids, x)) && 0.0 <= TotalVolume(bids)
    ensures TotalVolume(Residual(bids, x)) == TotalVolume(bids) - MinReal(x, TotalVolume(bids))
  {
    if bids != [] {
      var rest := bids[1..];
      if x <= bids[0].volume {
        ResidualVolume(rest, 0.0);
        assert Residual(bids, x)[1..] == rest;
      } else {
        ResidualVolume(rest, x - bids[0].volume);
      }
    }
  }

  /** Selling x and then y on what is left earns exactly what selling x + y at once does. */
  lemma {:induction false} SellInTwoSteps(bids: seq<Level>, x: real, y: real)
    requires Sane(bids) && 0.0 <= x && 0.0 <= y
    ensures Sane(Residual(bids, x))
    ensures SellQuote(bids, x) + SellQuote(Residual(bids, x), y) == SellQuote(bids, x + y)
    ensures TotalVolume(Residual(bids, x)) == TotalVolume(bids) - MinReal(x, TotalVolume(bids))
  {
    ResidualVolume(bids, x);
    if bids != [] {
      var v, rest := bids[0].volume, bids[1..];
      if x <= v {
        TwoStepsInFirst(bids, x, y);
      } else {
        SellInTwoSteps(rest, x - v, y);
        assert x - v + y == x + y - v;
      }
    }
  }

  lemma TwoStepsInFirst(bids: seq<Level>, x: real, y: real)
    requires bids != [] && 0.0 <= x <= bids[0].volume && 0.0 <= y
    ensures SellQuote(bids, x) + SellQuote(Residual(bids, x), y) == SellQuote(bids, x + y)
  {
    var l, r := bids[0], Residual(bids, x);
    assert r[0] == Level(l.price, l.volume - x) && r[1..] == bids[1..];
    if x + y <= l.volume {
      SplitProduct(x, y, l.price);
    } else {
      assert y - (l.volume - x) == x + y - l.volume;
      SplitProduct(x, l.volume - x, l.price);
    }
  }

  lemma SplitProduct(x: real, y: real, p: real)
    ensures x * p + y * p == (x + y) * p
  {
  }

  // ---------------------------------------------------------------- next level

  /** A level is sold into exactly when it holds volume and lies within the depth the walk reached. */
  lemma {:induction false} FilledIffWithinDepth(bids: seq<Level>, x: real, i: nat)
    requires Sane(bids) && 0.0 <= x && i < |bids|
    ensures Greedy(bids, x)[i] > 0.0 <==> 0.0 < x && bids[i].volume > 0.0 && i <= SellDepth(bids, x)
  {
    if x > bids[0].volume && i > 0 {
      FilledIffWithinDepth(bids[1..], x - bids[0].volume, i - 1);
    }
  }

  /** Every level the walk sells into is priced no worse than the next level it reports. */
  lemma {:induction false} FilledAtLeastNextBid(bids: seq<Level>, x: real, i: nat)
    requires Sane(bids) && Descending(bids) && 0.0 <= x && i < |bids|
    ensures Greedy(bids, x)[i] > 0.0 ==> bids[i].price >= NextLevel(bids, SellDepth(bids, x))
  {
    FilledIffWithinDepth(bids, x, i);
  }

  /** The reported level: all volume before it is sold into, and it is itself only if it is the last. */
  lemma {:induction false} NextBidExactly(bids: seq<Level>, x: real) returns (j: nat)
    requires Sane(bids) && 0.0 < x && bids != []
    ensures j < |bids| && NextLevel(bids, SellDepth(bids, x)) == bids[j].price
    ensures forall i :: 0 <= i < j && bids[i].volume > 0.0 ==> Greedy(bids, x)[i] > 0.0
    ensures Greedy(bids, x)[j] > 0.0 ==> j == |bids| - 1
  {
    j := Min(SellDepth(bids, x) + 1, |bids| - 1);
    forall i | 0 <= i <= j ensures i < j && bids[i].volume > 0.0 ==> Greedy(bids, x)[i] > 0.0 {
      FilledIffWithinDepth(bids, x, i);
    }
    FilledIffWithinDepth(bids, x, j);
  }
}
