/**
 * The ask walk is the bid walk on mirrored levels: buying base with quote is selling
 * quote at the reciprocal price. Every property of the bid side carries over.
 */
module BuySide {
  import opened Common
  import opened RealLemmas
  import opened DepthWalk

  function MirrorLevel(l: Level): Level
    requires l.price > 0.0
  {
    Level(1.0 / l.price, Cost(l))
  }

  function Mirror(asks: seq<Level>): (bids: seq<Level>)
    requires Sane(asks)
    ensures |bids| == |asks|
    ensures forall i :: 0 <= i < |asks| ==> bids[i] == MirrorLevel(asks[i])
  {
    if asks == [] then [] else [MirrorLevel(asks[0])] + Mirror(asks[1..])
  }

  lemma MirrorLevelFacts(l: Level)
    requires l.price > 0.0 && l.volume >= 0.0
    ensures 0.0 < 1.0 / l.price && 0.0 <= Cost(l)
    ensures Cost(l) * (1.0 / l.price) == l.volume
  {
    DivMul(1.0, l.price);
    MulNonneg(l.price, l.volume);
    Reciprocal(l.price, l.volume, 1.0 / l.price);
  }

  lemma Reciprocal(p: real, v: real, q: real)
    requires 0.0 < p && q * p == 1.0
    ensures 0.0 < q && p * v * q == v
  {
    if q <= 0.0 { MulMono(q, 0.0, p); }
    assert p * v * q == q * p * v;
  }

  lemma MirrorSane(asks: seq<Level>)
    requires Sane(asks)
    ensures Sane(Mirror(asks))
  {
    forall i | 0 <= i < |asks| ensures Mirror(asks)[i].price > 0.0 && Mirror(asks)[i].volume >= 0.0 {
      MirrorLevelFacts(asks[i]);
    }
  }

  lemma MirrorDescending(asks: seq<Level>)
    requires Sane(asks) && Ascending(asks)
    ensures Descending(Mirror(asks))
  {
    forall i, j | 0 <= i < j < |asks| ensures Mirror(asks)[i].price >= Mirror(asks)[j].price {
      ReciprocalOrder(asks[i].price, asks[j].price);
    }
  }

  lemma ReciprocalOrder(a: real, b: real)
    requires 0.0 < a <= b
    ensures 1.0 / b <= 1.0 / a
  {
    DivAtMost(1.0, a, 0.0);
    DivMul(1.0, a);
    MulMono(a, b, 1.0 / a);
    DivAtMost(1.0, b, 1.0 / a);
  }

  lemma QuotientIsProduct(q: real, p: real)
    requires p > 0.0
    ensures q / p == q * (1.0 / p)
  {
    DivMul(1.0, p);
    assert q * (1.0 / p) * p == q * (1.0 / p * p);
    DivIs(q, p, q * (1.0 / p));
  }

  /** The ask walk is the bid walk on the mirrored book; no NaN arises on positive prices. */
  lemma {:induction false} BuyIsSell(asks: seq<Level>, q: real)
    requires Sane(asks)
    ensures BuyBase(asks, q) == Val(SellQuote(Mirror(asks), q))
    ensures BuyDepth(asks, q) == SellDepth(Mirror(asks), q)
  {
    if asks != [] {
      assert Mirror(asks)[1..] == Mirror(asks[1..]);
      if q <= Cost(asks[0]) {
        BuyIsSellInFirst(asks, q);
      } else {
        BuyIsSell(asks[1..], q - Cost(asks[0]));
        BuyIsSellBeyondFirst(asks, q);
      }
    }
  }

  lemma BuyIsSellInFirst(asks: seq<Level>, q: real)
    requires Sane(asks) && asks != [] && q <= Cost(asks[0])
    ensures BuyBase(asks, q) == Val(SellQuote(Mirror(asks), q))
  {
    QuotientIsProduct(q, asks[0].price);
    assert SellQuote(Mirror(asks), q) == q * (1.0 / asks[0].price);
  }

  lemma BuyIsSellBeyondFirst(asks: seq<Level>, q: real)
    requires Sane(asks) && asks != [] && Cost(asks[0]) < q && Mirror(asks)[1..] == Mirror(asks[1..])
    requires BuyBase(asks[1..], q - Cost(asks[0])) == Val(SellQuote(Mirror(asks[1..]), q - Cost(asks[0])))
    ensures BuyBase(asks, q) == Val(SellQuote(Mirror(asks), q))
  {
    var m := Mirror(asks)[0];
    MirrorLevelFacts(asks[0]);
    assert m.volume == Cost(asks[0]) && m.volume * m.price == asks[0].volume;
    SellStep(Mirror(asks), q);
    BuyStep(asks, q);
  }

  lemma SellStep(bids: seq<Level>, x: real)
    requires bids != [] && bids[0].volume < x
    ensures SellQuote(bids, x) == bids[0].volume * bids[0].price + SellQuote(bids[1..], x - bids[0].volume)
  {
  }

  lemma BuyStep(asks: seq<Level>, q: real)
    requires asks != [] && Cost(asks[0]) < q
    ensures BuyBase(asks, q) == Add(Val(asks[0].volume), BuyBase(asks[1..], q - Cost(asks[0])))
  {
  }

  // ---------------------------------------------------------------- optimality

  /** Quote spent on an allocation of base. */
  function Spending(asks: seq<Level>, b: seq<real>): (a: seq<real>)
    requires |b| == |asks|
    ensures |a| == |b|
  {
    if b == [] then [] else [b[0] * asks[0].price] + Spending(asks[1..], b[1..])
  }

  lemma {:induction false} SpendingFacts(asks: seq<Level>, b: seq<real>)
    requires Sane(asks) && Feasible(asks, b)
    ensures Feasible(Mirror(asks), Spending(asks, b))
    ensures SumOf(Spending(asks, b)) == Value(asks, b)
    ensures Value(Mirror(asks), Spending(asks, b)) == SumOf(b)
  {
    SpendingFeasible(asks, b);
    if b != [] {
      SpendingFacts(asks[1..], b[1..]);
      assert Spending(asks, b)[1..] == Spending(asks[1..], b[1..]);
      assert Mirror(asks)[1..] == Mirror(asks[1..]) && Mirror(asks)[0] == MirrorLevel(asks[0]);
      SpendingOfOne(asks[0], b[0]);
      assert Value(Mirror(asks), Spending(asks, b)) == b[0] + Value(Mirror(asks[1..]), Spending(asks[1..], b[1..]));
    }
  }

  lemma {:induction false} SpendingFeasible(asks: seq<Level>, b: seq<real>)
    requires Sane(asks) && Feasible(asks, b)
    ensures Feasible(Mirror(asks), Spending(asks, b))
  {
    if b != [] {
      SpendingFeasible(asks[1..], b[1..]);
      assert Spending(asks, b)[1..] == Spending(asks[1..], b[1..]);
      assert Mirror(asks)[1..] == Mirror(asks[1..]) && Mirror(asks)[0] == MirrorLevel(asks[0]);
      SpendingOfOne(asks[0], b[0]);
    }
  }

  lemma SpendingOfOne(l: Level, b: real)
    requires 0.0 < l.price && 0.0 <= b <= l.volume
    ensures 0.0 <= b * l.price <= Cost(l)
    ensures b * l.price * (1.0 / l.price) == b
  {
    MulNonneg(b, l.price);
    MulMono(b, l.volume, l.price);
    MirrorLevelFacts(Level(l.price, b));
  }

  /** Greedy optimality: on ascending asks no allocation costing at most `q` holds more base. */
  lemma {:induction false} BuyOptimal(asks: seq<Level>, b: seq<real>, q: real)
    requires Sane(asks) && Ascending(asks) && 0.0 <= q && Feasible(asks, b) && Value(asks, b) <= q
    ensures BuyBase(asks, q).Val? && SumOf(b) <= BuyBase(asks, q).v
  {
    BuyIsSell(asks, q);
    MirrorSane(asks);
    MirrorDescending(asks);
    SpendingFacts(asks, b);
    SellOptimal(Mirror(asks), Spending(asks, b), q);
  }

  /** The allocation the ask loop makes. */
  function GreedyBuy(asks: seq<Level>, q: real): (b: seq<real>)
    requires Sane(asks)
    ensures |b| == |asks|
  {
    if asks == [] then []
    else if q <= Cost(asks[0]) then [q / asks[0].price] + seq(|asks| - 1, _ => 0.0)
    else [asks[0].volume] + GreedyBuy(asks[1..], q - Cost(asks[0]))
  }

  lemma {:induction false} GreedyBuyLast(asks: seq<Level>, q: real)
    requires asks != [] && Sane(asks) && 0.0 <= q <= Cost(asks[0])
    ensures Feasible(asks, GreedyBuy(asks, q))
    ensures SumOf(GreedyBuy(asks, q)) == q / asks[0].price && Value(asks, GreedyBuy(asks, q)) == q
  {
    var l, b := asks[0], GreedyBuy(asks, q);
    assert b[1..] == seq(|asks| - 1, _ => 0.0);
    ZeroAllocation(asks[1..], |asks| - 1);
    DivAtMost(q, l.price, l.volume);
    DivNonneg(q, l.price);
    DivMul(q, l.price);
  }

  /** Conservation: the ask walk spends the smaller of the amount and the cost of the whole depth. */
  lemma {:induction false} GreedyBuyIsTheWalk(asks: seq<Level>, q: real)
    requires Sane(asks) && 0.0 <= q
    ensures Feasible(asks, GreedyBuy(asks, q))
    ensures Val(SumOf(GreedyBuy(asks, q))) == BuyBase(asks, q)
    ensures Value(asks, GreedyBuy(asks, q)) == MinReal(q, TotalValue(asks))
    ensures 0.0 <= TotalValue(asks)
  {
    if asks != [] {
      var l, rest := asks[0], asks[1..];
      MulNonneg(l.volume, l.price);
      if q <= Cost(l) {
        GreedyBuyIsTheWalk(rest, 0.0);
        GreedyBuyLast(asks, q);
      } else {
        GreedyBuyIsTheWalk(rest, q - Cost(l));
        GreedyBuyBeyondFirst(asks, q);
      }
    }
  }

  lemma GreedyBuyBeyondFirst(asks: seq<Level>, q: real)
    requires Sane(asks) && asks != [] && Cost(asks[0]) < q && 0.0 <= TotalValue(asks[1..])
    requires var rest, left := asks[1..], q - Cost(asks[0]);
      && Val(SumOf(GreedyBuy(rest, left))) == BuyBase(rest, left)
      && Value(rest, GreedyBuy(rest, left)) == MinReal(left, TotalValue(rest))
    ensures Val(SumOf(GreedyBuy(asks, q))) == BuyBase(asks, q)
    ensures Value(asks, GreedyBuy(asks, q)) == MinReal(q, TotalValue(asks))
  {
    assert GreedyBuy(asks, q)[1..] == GreedyBuy(asks[1..], q - Cost(asks[0]));
  }

  // ---------------------------------------------------------------- path independence

  /** The asks left after spending `q` on them. */
  function ResidualAsks(asks: seq<Level>, q: real): seq<Level>
    requires Sane(asks)
  {
    if asks == [] then []
    else if q <= Cost(asks[0]) then [Level(asks[0].price, asks[0].volume - q / asks[0].price)] + asks[1..]
    else ResidualAsks(asks[1..], q - Cost(asks[0]))
  }

  lemma {:induction false} MirrorResidual(asks: seq<Level>, q: real)
    requires Sane(asks) && 0.0 <= q
    ensures Sane(ResidualAsks(asks, q))
    ensures Mirror(ResidualAsks(asks, q)) == Residual(Mirror(asks), q)
  {
    if asks != [] {
      var l := asks[0];
      assert Mirror(asks)[1..] == Mirror(asks[1..]);
      if q <= Cost(l) {
        DivAtMost(q, l.price, l.volume);
        DivMul(q, l.price);
        var r := ResidualAsks(asks, q);
        assert r[1..] == asks[1..];
        assert Cost(r[0]) == l.price * l.volume - q / l.price * l.price;
        assert Mirror(r)[0] == Residual(Mirror(asks), q)[0];
      } else {
        MirrorResidual(asks[1..], q - Cost(l));
      }
    }
  }

  /** What is left costs what the whole depth did, less what was spent. */
  lemma {:induction false} ResidualCost(asks: seq<Level>, q: real)
    requires Sane(asks) && 0.0 <= q
    ensures 0.0 <= TotalValue(asks)
    ensures TotalValue(ResidualAsks(asks, q)) == TotalValue(asks) - MinReal(q, TotalValue(asks))
  {
    if asks != [] {
      var l, rest := asks[0], asks[1..];
      MulNonneg(l.price, l.volume);
      if q <= Cost(l) {
        ResidualCost(rest, 0.0);
        ResidualOfFirst(asks, q);
      } else {
        ResidualCost(rest, q - Cost(l));
      }
    }
  }

  lemma ResidualOfFirst(asks: seq<Level>, q: real)
    requires Sane(asks) && asks != [] && q <= Cost(asks[0])
    ensures TotalValue(ResidualAsks(asks, q)) == TotalValue(asks) - q
  {
    var l, r := asks[0], ResidualAsks(asks, q);
    var b := q / l.price;
    DivMul(q, l.price);
    LessShare(l.volume, b, l.price);
    assert r[0].volume == l.volume - b && r[0].price == l.price && r[1..] == asks[1..];
    assert TotalValue(r) == (l.volume - b) * l.price + TotalValue(asks[1..]);
  }

  lemma LessShare(v: real, b: real, p: real)
    ensures (v - b) * p == v * p - b * p
  {
  }

  /** Spending x and then y on what is left buys exactly what spending x + y at once does. */
  lemma {:induction false} BuyInTwoSteps(asks: seq<Level>, x: real, y: real)
    requires Sane(asks) && 0.0 <= x && 0.0 <= y
    ensures Sane(ResidualAsks(asks, x))
    ensures Add(BuyBase(asks, x), BuyBase(ResidualAsks(asks, x), y)) == BuyBase(asks, x + y)
    ensures TotalValue(ResidualAsks(asks, x)) == TotalValue(asks) - MinReal(x, TotalValue(asks))
  {
    ResidualCost(asks, x);
    MirrorResidual(asks, x);
    MirrorSane(asks);
    BuyIsSell(asks, x);
    BuyIsSell(ResidualAsks(asks, x), y);
    BuyIsSell(asks, x + y);
    SellInTwoSteps(Mirror(asks), x, y);
  }

  // ---------------------------------------------------------------- next level

  /** A level is bought from exactly when it holds volume and lies within the depth the walk reached. */
  lemma {:induction false} BoughtIffWithinDepth(asks: seq<Level>, q: real, i: nat)
    requires Sane(asks) && 0.0 <= q && i < |asks|
    ensures GreedyBuy(asks, q)[i] > 0.0 <==> 0.0 < q && asks[i].volume > 0.0 && i <= BuyDepth(asks, q)
  {
    var l := asks[0];
    if q <= Cost(l) {
      DivAtMost(q, l.price, 0.0);
      if l.volume <= 0.0 { assert Cost(l) == 0.0; }
    } else {
      MulNonneg(l.price, l.volume);
      if i > 0 { BoughtIffWithinDepth(asks[1..], q - Cost(l), i - 1); }
    }
  }

  /** Every level the walk buys from is priced no worse than the next level it reports. */
  lemma {:induction false} FilledAtMostNextAsk(asks: seq<Level>, q: real, i: nat)
    requires Sane(asks) && Ascending(asks) && 0.0 <= q && i < |asks|
    ensures GreedyBuy(asks, q)[i] > 0.0 ==> asks[i].price <= NextLevel(asks, BuyDepth(asks, q))
  {
    BoughtIffWithinDepth(asks, q, i);
  }

  /** The reported level: all volume before it is bought from, and it is itself only if it is the last. */
  lemma {:induction false} NextAskExactly(asks: seq<Level>, q: real) returns (j: nat)
    requires Sane(asks) && 0.0 < q && asks != []
    ensures j < |asks| && NextLevel(asks, BuyDepth(asks, q)) == asks[j].price
    ensures forall i :: 0 <= i < j && asks[i].volume > 0.0 ==> GreedyBuy(asks, q)[i] > 0.0
    ensures GreedyBuy(asks, q)[j] > 0.0 ==> j == |asks| - 1
  {
    j := Min(BuyDepth(asks, q) + 1, |asks| - 1);
    forall i | 0 <= i <= j ensures i < j && asks[i].volume > 0.0 ==> GreedyBuy(asks, q)[i] > 0.0 {
      BoughtIffWithinDepth(asks, q, i);
    }
    BoughtIffWithinDepth(asks, q, j);
  }
}
