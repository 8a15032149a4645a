/** The triangular arbitrage bot: profit of both paths over one snapshot of the books, and the profitability gate. */
module Arbitrage {
  import opened Common
  import opened RealLemmas
  import opened DepthWalk
  import opened Conversion
  import opened Legs

  /** The three books of a triangle: A against B, B against C, A against C. */
  datatype Triangle = Triangle(ab: Book, bc: Book, ac: Book)

  datatype Decision = NoTrade | TradeForward | TradeReverse

  /** A -> B -> C -> A. */
  function Forward(t: Triangle): seq<Leg> { [Sell(t.ab.bids), Sell(t.bc.bids), Buy(t.ac.asks)] }

  /** A -> C -> B -> A. */
  function Reverse(t: Triangle): seq<Leg> { [Sell(t.ac.bids), Buy(t.bc.asks), Buy(t.ab.asks)] }

  /** Profit of ending with `a` after starting with `x`, in percent. */
  function Percent(a: Num, x: real): Num
    requires x != 0.0
  {
    if a.Val? then Val((a.v - x) / x * 100.0) else NaN
  }

  /** `>` on doubles: false when either side is NaN. */
  predicate Greater(a: Num, b: Num) { a.Val? && b.Val? && a.v > b.v }

  /** std::max: the first argument unless it is less than the second. */
  function MaxNum(a: Num, b: Num): Num { if Greater(b, a) then b else a }

  /** One entry of the document of all order books; a null or malformed book cannot be walked. */
  datatype Entry = Broken | Entry(book: Book)

  /** The document of all order books by symbol; None when it is not an object. */
  type Books = Option<map<string, Entry>>

  /** What a request for the order books brings: nothing usable, or a document. */
  datatype Fetch = Failed | Fetched(books: Books)

  function Lookup(books: Books, symbol: string): Option<Book> {
    if books.Some? && symbol in books.value && books.value[symbol].Entry?
    then Some(books.value[symbol].book) else None
  }

  /** The request brings a book for the symbol. */
  predicate Answers(fetch: Fetch, symbol: string) { fetch.Fetched? && Lookup(fetch.books, symbol).Some? }

  /** The document of order books and the symbols listed from the last one that was an object. */
  datatype Held = Held(books: Books, symbols: set<string>)

  function AfterFetch(h: Held, fetch: Fetch): Held {
    match fetch
    case Failed => h
    case Fetched(None) => Held(None, h.symbols)
    case Fetched(Some(m)) => Held(Some(m), m.Keys - {"status"})
  }

  /** What is held when requests stop at the first answer. */
  function AfterAttempts(h: Held, symbol: string, fetches: seq<Fetch>): Held
    decreases |fetches|
  {
    if fetches == [] then h
    else if Answers(fetches[0], symbol) then AfterFetch(h, fetches[0])
    else AfterAttempts(AfterFetch(h, fetches[0]), symbol, fetches[1..])
  }

  predicate FirstAnswer(fetches: seq<Fetch>, symbol: string, k: nat) {
    && k < |fetches| && Answers(fetches[k], symbol)
    && forall i :: 0 <= i < k ==> !Answers(fetches[i], symbol)
  }

  /** The checks of validateConfig. */
  predicate ConfigOk(accessToken: string, symbolB: string, symbolC: string, tradeAmountA: real) {
    accessToken != "" && symbolB != "" && symbolC != "" && tradeAmountA > 0.0
  }

  class ArbitrageBot {
    const accessToken: string
    const symbolB: string
    const symbolC: string
    const tradeAmountA: real
    const useWebSocket: bool
    const maxRetryAttempts: nat := 3
    var orderbooks: Books
    var symbols: set<string>

    predicate Valid() { ConfigOk(accessToken, symbolB, symbolC, tradeAmountA) }

    constructor (accessToken: string, symbolB: string, symbolC: string, tradeAmountA: real, useWebSocket: bool)
      ensures orderbooks == None && symbols == {}
      ensures this.accessToken == accessToken && this.symbolB == symbolB && this.symbolC == symbolC
      ensures this.tradeAmountA == tradeAmountA && this.useWebSocket == useWebSocket
    {
      this.accessToken, this.symbolB, this.symbolC := accessToken, symbolB, symbolC;
      this.tradeAmountA, this.useWebSocket := tradeAmountA, useWebSocket;
      orderbooks, symbols := None, {};
    }

    /** Construction from outside: a refused configuration leaves no bot. */
    static method Create(accessToken: string, symbolB: string, symbolC: string, tradeAmountA: real, useWebSocket: bool)
      returns (r: Result<ArbitrageBot>)
      ensures r.Ok? <==> ConfigOk(accessToken, symbolB, symbolC, tradeAmountA)
      ensures r.Ok? ==> fresh(r.value) && r.value.Valid() && r.value.orderbooks == None
      ensures r.Ok? ==> r.value.symbolB == symbolB && r.value.symbolC == symbolC
      ensures r.Ok? ==> r.value.tradeAmountA == tradeAmountA && r.value.useWebSocket == useWebSocket
    {
      if accessToken == "" { return Err(InvalidArgument); }
      if symbolB == "" || symbolC == "" { return Err(InvalidArgument); }
      if tradeAmountA <= 0.0 { return Err(InvalidArgument); }
      var bot := new ArbitrageBot(accessToken, symbolB, symbolC, tradeAmountA, useWebSocket);
      r := Ok(bot);
    }

    /** The document is stored before it is found not to be an object. */
    method UpdateOrderbooks(books: Books) returns (e: Option<Error>)
      modifies this
      ensures orderbooks == books && (e.Some? <==> books.None?)
      ensures symbols == if books.Some? then books.value.Keys - {"status"} else old(symbols)
    {
      orderbooks := books;
      if books.None? { return Some(InvalidArgument); }
      symbols := books.value.Keys - {"status"};
      e := None;
    }

    function Holding(): Held
      reads this
    {
      Held(orderbooks, symbols)
    }

    /** A look-up asks for new books first: without WebSocket, and not for cached ones. */
    predicate Refreshes(cached: bool) { !useWebSocket && !cached }

    predicate Listed(symbolA: string)
      reads this
    {
      && Lookup(orderbooks, symbolA + symbolB).Some?
      && Lookup(orderbooks, symbolB + symbolC).Some?
      && Lookup(orderbooks, symbolA + symbolC).Some?
    }

    function BooksOf(symbolA: string): Triangle
      reads this
      requires Listed(symbolA)
    {
      Triangle(Lookup(orderbooks, symbolA + symbolB).value, Lookup(orderbooks, symbolB + symbolC).value,
               Lookup(orderbooks, symbolA + symbolC).value)
    }

    method TurnOverFor(symbol: string, amount: Num, cached: bool, fetch: Fetch) returns (r: Result<TurnOver>)
      modifies this
      ensures Holding() == if Refreshes(cached) then AfterFetch(old(Holding()), fetch) else old(Holding())
      ensures r.Ok? <==> if Refreshes(cached) then Answers(fetch, symbol) else Lookup(orderbooks, symbol).Some?
      ensures r.Ok? ==> Lookup(orderbooks, symbol).Some?
                        && r.value == TurnOverOf(Lookup(orderbooks, symbol).value, amount)
    {
      if !useWebSocket && !cached {
        if fetch.Failed? { return Err(NotFound); }
        var e := UpdateOrderbooks(fetch.books);
        if e.Some? { return Err(e.value); }
      }
      var book := Lookup(orderbooks, symbol);
      if book.None? { return Err(NotFound); }
      var t := GetBestTurnOver(book.value, amount);
      r := Ok(t);
    }

    /** `fetches` holds what a request at each attempt would bring. */
    method TurnOverWithRetry(symbol: string, amount: Num, cached: bool, fetches: seq<Fetch>)
      returns (r: Result<TurnOver>)
      requires |fetches| == maxRetryAttempts
      modifies this
      ensures Holding() == if Refreshes(cached) then AfterAttempts(old(Holding()), symbol, fetches) else old(Holding())
      ensures !Refreshes(cached) ==> (r.Ok? <==> Lookup(orderbooks, symbol).Some?)
      ensures Refreshes(cached) ==> (r.Ok? <==> exists k :: 0 <= k < |fetches| && Answers(fetches[k], symbol))
      ensures Refreshes(cached) && r.Ok? ==>
        exists k: nat :: FirstAnswer(fetches, symbol, k) && orderbooks == fetches[k].books
      ensures r.Ok? ==> Lookup(orderbooks, symbol).Some?
                        && r.value == TurnOverOf(Lookup(orderbooks, symbol).value, amount)
    {
      for attempt := 1 to maxRetryAttempts + 1
        invariant !Refreshes(cached) ==> Holding() == old(Holding())
        invariant Refreshes(cached) ==>
          AfterAttempts(old(Holding()), symbol, fetches) == AfterAttempts(Holding(), symbol, fetches[attempt - 1..])
        invariant !Refreshes(cached) && attempt > 1 ==> Lookup(orderbooks, symbol).None?
        invariant Refreshes(cached) ==> forall k :: 0 <= k < attempt - 1 ==> !Answers(fetches[k], symbol)
      {
        r := TurnOverFor(symbol, amount, cached, fetches[attempt - 1]);
        if r.Ok? {
          assert Refreshes(cached) ==> FirstAnswer(fetches, symbol, attempt - 1);
          return;
        }
      }
      r := Err(NotFound);
    }

    /** Profit percentages of the forward and the reverse path; only the first look-up may ask for new books. */
    method CalculateArbitrageProfit(symbolA: string, cached: bool, fetches: seq<Fetch>)
      returns (r: Result<(Num, Num)>)
      requires Valid() && |fetches| == maxRetryAttempts
      modifies this
      ensures Holding() == if Refreshes(cached)
        then AfterAttempts(old(Holding()), symbolA + symbolB, fetches) else old(Holding())
      ensures Refreshes(cached) && r.Ok? ==>
        exists k: nat :: FirstAnswer(fetches, symbolA + symbolB, k) && orderbooks == fetches[k].books
      ensures r.Ok? <==>
        && Listed(symbolA)
        && (Refreshes(cached) ==> exists k :: 0 <= k < |fetches| && Answers(fetches[k], symbolA + symbolB))
      ensures r.Ok? ==>
        && r.value.0 == Percent(Follow(Forward(BooksOf(symbolA)), Val(tradeAmountA)), tradeAmountA)
        && r.value.1 == Percent(Follow(Reverse(BooksOf(symbolA)), Val(tradeAmountA)), tradeAmountA)
    {
      var start := Val(tradeAmountA);
      var ab := TurnOverWithRetry(symbolA + symbolB, start, cached, fetches);
      if ab.Err? { return Err(ab.error); }
      var b := Charge(Val(ab.value.quote));
      var bc := TurnOverWithRetry(symbolB + symbolC, b, true, fetches);
      if bc.Err? { return Err(bc.error); }
      var c := Charge(Val(bc.value.quote));
      var ac := TurnOverWithRetry(symbolA + symbolC, c, true, fetches);
      if ac.Err? { return Err(ac.error); }
      var a := Charge(ac.value.base);
      var forwardPercent := Percent(a, tradeAmountA);
      ForwardUnfolds(BooksOf(symbolA), start);

      ac := TurnOverWithRetry(symbolA + symbolC, start, true, fetches);
      if ac.Err? { return Err(NotFound); }
      c := Charge(Val(ac.value.quote));
      bc := TurnOverWithRetry(symbolB + symbolC, c, true, fetches);
      if bc.Err? { return Err(NotFound); }
      b := Charge(bc.value.base);
      ab := TurnOverWithRetry(symbolA + symbolB, b, true, fetches);
      if ab.Err? { return Err(NotFound); }
      a := Charge(ab.value.base);
      var reversePercent := Percent(a, tradeAmountA);
      ReverseUnfolds(BooksOf(symbolA), start);
      r := Ok((forwardPercent, reversePercent));
    }

    /** The head of executeArbitrage: which path, if any, is traded. */
    method Gate(symbolA: string, cached: bool, fetches: seq<Fetch>) returns (r: Result<Decision>)
      requires Valid() && |fetches| == maxRetryAttempts
      modifies this
      ensures Holding() == if Refreshes(cached)
        then AfterAttempts(old(Holding()), symbolA + symbolB, fetches) else old(Holding())
      ensures Refreshes(cached) && r.Ok? ==>
        exists k: nat :: FirstAnswer(fetches, symbolA + symbolB, k) && orderbooks == fetches[k].books
      ensures r.Ok? <==>
        && Listed(symbolA)
        && (Refreshes(cached) ==> exists k :: 0 <= k < |fetches| && Answers(fetches[k], symbolA + symbolB))
      ensures r.Ok? ==> r.value == DecisionFor(BooksOf(symbolA), tradeAmountA)
    {
      var profit := CalculateArbitrageProfit(symbolA, cached, fetches);
      if profit.Err? { return Err(profit.error); }
      var (forwardPercent, reversePercent) := profit.value;
      var useForwardPath := Greater(forwardPercent, reversePercent);
      var best := MaxNum(forwardPercent, reversePercent);
      if AtMost(best, 0.0) { return Ok(NoTrade); }
      r := Ok(if useForwardPath then TradeForward else TradeReverse);
    }
  }

  lemma ForwardUnfolds(t: Triangle, x: Num)
    ensures Follow(Forward(t), x) ==
      var b := Charge(Val(SellQuoteOf(t.ab.bids, x)));
      var c := Charge(Val(SellQuoteOf(t.bc.bids, b)));
      Charge(BuyBaseOf(t.ac.asks, c))
  {
    var legs := Forward(t);
    assert legs[1..] == [legs[1], legs[2]] && legs[1..][1..] == [legs[2]];
    PathOfThree(legs, x);
  }

  lemma ReverseUnfolds(t: Triangle, x: Num)
    ensures Follow(Reverse(t), x) ==
      var c := Charge(Val(SellQuoteOf(t.ac.bids, x)));
      var b := Charge(BuyBaseOf(t.bc.asks, c));
      Charge(BuyBaseOf(t.ab.asks, b))
  {
    PathOfThree(Reverse(t), x);
  }

  lemma PathOfThree(legs: seq<Leg>, x: Num)
    requires |legs| == 3
    ensures Follow(legs, x) ==
      Charge(Convert(legs[2], Charge(Convert(legs[1], Charge(Convert(legs[0], x))))))
  {
    var y := Charge(Convert(legs[0], x));
    var z := Charge(Convert(legs[1], y));
    assert legs[1..][1..][1..] == [];
    assert Follow(legs[1..][1..], z) == Charge(Convert(legs[2], z));
    assert Follow(legs[1..], y) == Follow(legs[1..][1..], z);
  }

  // ---------------------------------------------------------------- the gate

  function Decide(forward: Num, reverse: Num): Decision {
    if AtMost(MaxNum(forward, reverse), 0.0) then NoTrade
    else if Greater(forward, reverse) then TradeForward else TradeReverse
  }

  /** Without NaN, the gate trades exactly when some path profits, and then on the better path. */
  lemma DecideWithoutNaN(f: real, r: real)
    ensures Decide(Val(f), Val(r)).NoTrade? <==> f <= 0.0 && r <= 0.0
    ensures Decide(Val(f), Val(r)).TradeForward? <==> f > r && f > 0.0
    ensures Decide(Val(f), Val(r)).TradeReverse? <==> r >= f && r > 0.0
  {
  }

  /**
   * With NaN the gate is not symmetric: it rejects exactly a non-positive forward
   * figure with no positive reverse one.
   */
  lemma DecideRejectsExactly(f: Num, r: Num)
    ensures Decide(f, r).NoTrade? <==> f.Val? && f.v <= 0.0 && (r.NaN? || r.v <= 0.0)
    ensures f.NaN? || r.NaN? ==> !Decide(f, r).TradeForward?
  {
  }

  /** What the bot would decide on these books for this amount. */
  function DecisionFor(t: Triangle, x: real): Decision
    requires x != 0.0
  {
    Decide(ForwardFigure(t, x), ReverseFigure(t, x))
  }

  function ForwardFigure(t: Triangle, x: real): Num
    requires x != 0.0
  {
    Percent(Follow(Forward(t), Val(x)), x)
  }

  function ReverseFigure(t: Triangle, x: real): Num
    requires x != 0.0
  {
    Percent(Follow(Reverse(t), Val(x)), x)
  }

  predicate Profits(figure: Num) { figure.Val? && figure.v > 0.0 }

  // ---------------------------------------------------------------- NaN on the paths

  /** The amount of C that the forward path spends on the asks of A against C. */
  function ForwardSpends(t: Triangle, x: real): real {
    SellQuote(t.bc.bids, SellQuote(t.ab.bids, x) * FEE_KEPT) * FEE_KEPT
  }

  /** The amount of C that the reverse path spends on the asks of B against C. */
  function ReverseSpends(t: Triangle, x: real): real { SellQuote(t.ac.bids, x) * FEE_KEPT }

  /** The forward path ends as NaN exactly when its purchase ends at an unpriced level. */
  lemma {:induction false} ForwardIsNaNExactly(t: Triangle, x: real)
    ensures Follow(Forward(t), Val(x)).NaN? <==> EndsUnpriced(t.ac.asks, ForwardSpends(t, x))
  {
    ForwardUnfolds(t, Val(x));
    BuyIsNaNExactly(t.ac.asks, ForwardSpends(t, x));
  }

  /** The reverse path ends as NaN when its last purchase does. */
  ghost predicate ReverseEndsUnpriced(t: Triangle, x: real) {
    var b := BuyBase(t.bc.asks, ReverseSpends(t, x));
    b.Val? && EndsUnpriced(t.ab.asks, b.v * FEE_KEPT)
  }

  /**
   * A NaN from the first purchase of the reverse path does not reach its end: the second
   * purchase takes it for more than any level costs and buys the whole book.
   */
  lemma {:induction false} ReverseIsNaNExactly(t: Triangle, x: real)
    ensures Follow(Reverse(t), Val(x)).NaN? <==> ReverseEndsUnpriced(t, x)
    ensures EndsUnpriced(t.bc.asks, ReverseSpends(t, x)) ==>
      Follow(Reverse(t), Val(x)) == Val(TotalVolume(t.ab.asks) * FEE_KEPT)
  {
    ReverseUnfolds(t, Val(x));
    BuyIsNaNExactly(t.bc.asks, ReverseSpends(t, x));
    var b := BuyBase(t.bc.asks, ReverseSpends(t, x));
    if b.Val? { BuyIsNaNExactly(t.ab.asks, b.v * FEE_KEPT); }
  }

  /** When neither path has a profit, the gate trades exactly when the forward purchase ends at an unpriced level. */
  lemma {:induction false} TradesWithoutProfitExactly(t: Triangle, x: real)
    requires 0.0 < x && !Profits(ForwardFigure(t, x)) && !Profits(ReverseFigure(t, x))
    ensures !DecisionFor(t, x).NoTrade? <==> EndsUnpriced(t.ac.asks, ForwardSpends(t, x))
  {
    ForwardIsNaNExactly(t, x);
    DecideRejectsExactly(ForwardFigure(t, x), ReverseFigure(t, x));
  }

  ghost predicate NonNegativeTriangle(t: Triangle) {
    && NonNegative(t.ab.bids) && NonNegative(t.ab.asks)
    && NonNegative(t.bc.bids) && NonNegative(t.bc.asks)
    && NonNegative(t.ac.bids) && NonNegative(t.ac.asks)
  }

  /** What the forward path has left to spend after its two sales. */
  lemma {:induction false} ForwardSpendsNothingExactly(t: Triangle, x: real)
    requires NonNegativeTriangle(t) && 0.0 < x
    ensures 0.0 <= ForwardSpends(t, x)
    ensures ForwardSpends(t, x) == 0.0
      <==> BringsNothing(t.ab.bids, x) || BringsNothing(t.bc.bids, SellQuote(t.ab.bids, x) * FEE_KEPT)
    ensures Sane(t.ab.bids) && Sane(t.bc.bids) ==>
      (ForwardSpends(t, x) == 0.0 <==> TotalVolume(t.ab.bids) == 0.0 || TotalVolume(t.bc.bids) == 0.0)
  {
    SaleBringsNothingExactly(t.ab.bids, x);
    var b := SellQuote(t.ab.bids, x) * FEE_KEPT;
    SaleBringsNothingExactly(t.bc.bids, b);
    if b == 0.0 { VolumeNonneg(t.bc.bids, PayingFrom(t.bc.bids)); }
    if Sane(t.ab.bids) && Sane(t.bc.bids) {
      NoVolumeBringsNothing(t.ab.bids, x);
      if 0.0 < b { NoVolumeBringsNothing(t.bc.bids, b); }
    }
  }

  /**
   * The same read off the books, on numbers that are not negative: the best ask of A against
   * C is free and one of the two sales brings nothing; with positive bids, the book of one
   * of them holds no volume.
   */
  lemma {:induction false} TradesWithoutProfitOnBooks(t: Triangle, x: real)
    requires NonNegativeTriangle(t) && 0.0 < x
    requires !Profits(ForwardFigure(t, x)) && !Profits(ReverseFigure(t, x))
    ensures !DecisionFor(t, x).NoTrade? <==>
      && t.ac.asks != [] && t.ac.asks[0].price == 0.0
      && (BringsNothing(t.ab.bids, x) || BringsNothing(t.bc.bids, SellQuote(t.ab.bids, x) * FEE_KEPT))
    ensures Sane(t.ab.bids) && Sane(t.bc.bids) ==>
      (!DecisionFor(t, x).NoTrade? <==>
        && t.ac.asks != [] && t.ac.asks[0].price == 0.0
        && (TotalVolume(t.ab.bids) == 0.0 || TotalVolume(t.bc.bids) == 0.0))
  {
    TradesWithoutProfitExactly(t, x);
    ForwardSpendsNothingExactly(t, x);
    EndsUnpricedExactly(t.ac.asks, ForwardSpends(t, x));
  }

  /**
   * On such numbers the reverse path ends as NaN exactly when its first purchase buys
   * nothing and the best ask of the last one is free.
   */
  lemma {:induction false} ReverseIsNaNOnBooks(t: Triangle, x: real)
    requires NonNegativeTriangle(t) && 0.0 < x
    ensures ReverseEndsUnpriced(t, x) <==>
      && BuyBase(t.bc.asks, ReverseSpends(t, x)) == Val(0.0)
      && t.ab.asks != [] && t.ab.asks[0].price == 0.0
  {
    SaleBringsNothingExactly(t.ac.bids, x);
    BuyNonneg(t.bc.asks, ReverseSpends(t, x));
    var b := BuyBase(t.bc.asks, ReverseSpends(t, x));
    if b.Val? { EndsUnpricedExactly(t.ab.asks, b.v * FEE_KEPT); }
  }

  /** A profitable forward path that no reverse profit matches is given up exactly when the reverse figure is NaN. */
  lemma {:induction false} ForwardGivenUpExactly(t: Triangle, x: real)
    requires 0.0 < x && Profits(ForwardFigure(t, x))
    requires ReverseFigure(t, x).Val? ==> ReverseFigure(t, x).v < ForwardFigure(t, x).v
    ensures !DecisionFor(t, x).TradeForward? <==> ReverseEndsUnpriced(t, x)
    ensures ReverseEndsUnpriced(t, x) ==> DecisionFor(t, x).TradeReverse?
  {
    ReverseIsNaNExactly(t, x);
  }

  /** One zero-priced ask: neither figure is a profit and the gate trades. */
  lemma ZeroPricedAskIsTraded()
    ensures var t := Triangle(Book([], []), Book([], []), Book([], [Level(0.0, 1.0)]));
      !Profits(ForwardFigure(t, 1.0)) && !Profits(ReverseFigure(t, 1.0)) && DecisionFor(t, 1.0) == TradeReverse
  {
    var t := Triangle(Book([], []), Book([], []), Book([], [Level(0.0, 1.0)]));
    ForwardUnfolds(t, Val(1.0));
    assert Follow(Forward(t), Val(1.0)) == NaN;
  }

  /** A free ask taken for a positive amount: the gate trades forward on a figure that is a number. */
  lemma FreeAskIsTraded()
    ensures var t := Triangle(Book([Level(1.0, 1.0)], []), Book([Level(1.0, 1.0)], []), Book([], [Level(0.0, 100.0)]));
      && ForwardFigure(t, 1.0) == Val(9875.0) && DecisionFor(t, 1.0) == TradeForward
  {
    var t := Triangle(Book([Level(1.0, 1.0)], []), Book([Level(1.0, 1.0)], []), Book([], [Level(0.0, 100.0)]));
    FreeAskForward(t);
    FreeAskReverse(t);
  }

  lemma FreeAskForward(t: Triangle)
    requires t.ab.bids == t.bc.bids == [Level(1.0, 1.0)] && t.ac.asks == [Level(0.0, 100.0)]
    ensures Follow(Forward(t), Val(1.0)) == Val(99.75)
  {
    ForwardUnfolds(t, Val(1.0));
    FreeLevelBought(t.ac.asks[0], ForwardSpends(t, 1.0));
  }

  lemma FreeAskReverse(t: Triangle)
    requires t.ac.bids == t.bc.asks == t.ab.asks == []
    ensures Follow(Reverse(t), Val(1.0)) == Val(0.0)
  {
    ReverseUnfolds(t, Val(1.0));
  }

  lemma FreeLevelBought(l: Level, q: real)
    requires l.price == 0.0 && 0.0 < q
    ensures BuyBase([l], q) == Val(l.volume)
  {
    assert [l][1..] == [] && Cost(l) == 0.0;
    assert BuyBase([], q) == Val(0.0);
  }

  /** A forward gain of several hundred percent is given up for one zero-priced ask of A against B. */
  lemma ProfitGivenUp()
    ensures var t := Triangle(Book([Level(10.0, 1.0)], [Level(0.0, 1.0)]), Book([Level(1.0, 100.0)], []),
                              Book([], [Level(1.0, 100.0)]));
      ForwardFigure(t, 1.0).Val? && ForwardFigure(t, 1.0).v > 800.0 && DecisionFor(t, 1.0) == TradeReverse
  {
    var t := Triangle(Book([Level(10.0, 1.0)], [Level(0.0, 1.0)]), Book([Level(1.0, 100.0)], []),
                      Book([], [Level(1.0, 100.0)]));
    ForwardUnfolds(t, Val(1.0));
    ReverseUnfolds(t, Val(1.0));
  }

  // ---------------------------------------------------------------- profit

  ghost predicate SaneBook(b: Book) { Sane(b.bids) && Sane(b.asks) }

  ghost predicate SortedBook(b: Book) { Descending(b.bids) && Ascending(b.asks) }

  ghost predicate SaneTriangle(t: Triangle) { SaneBook(t.ab) && SaneBook(t.bc) && SaneBook(t.ac) }

  ghost predicate SortedTriangle(t: Triangle) { SortedBook(t.ab) && SortedBook(t.bc) && SortedBook(t.ac) }

  lemma PathsSane(t: Triangle)
    requires SaneTriangle(t)
    ensures AllSane(Forward(t)) && AllSane(Reverse(t))
    ensures SortedTriangle(t) ==> AllSorted(Forward(t)) && AllSorted(Reverse(t))
  {
  }

  /** With values `u` of the base and `v` of the quote, no bid is above and no ask below their ratio. */
  ghost predicate Fair(b: Book, u: real, v: real) {
    && (forall i :: 0 <= i < |b.bids| ==> b.bids[i].price * v <= u)
    && (forall i :: 0 <= i < |b.asks| ==> u <= b.asks[i].price * v)
  }

  /** A closed path of three legs over books that respect one set of asset values. */
  lemma {:induction false} ClosedPathLoses(legs: seq<Leg>, u: real, v: real, w: real, x: real)
    requires |legs| == 3 && AllSane(legs) && 0.0 < x && 0.0 < u && 0.0 < v && 0.0 < w
    requires Consistent(legs[0], u, v) && Consistent(legs[1], v, w) && Consistent(legs[2], w, u)
    ensures Follow(legs, Val(x)).Val?
    ensures Follow(legs, Val(x)).v <= FEE_KEPT * FEE_KEPT * FEE_KEPT * x
    ensures Percent(Follow(legs, Val(x)), x).v <= -0.7481265625
  {
    FollowIsThrough(legs, x);
    NetKeepsValue(legs[0], u, v);
    NetKeepsValue(legs[1], v, w);
    NetKeepsValue(legs[2], w, u);
    ThreeLegsLose(Nets(legs), u, v, w, x);
  }

  lemma ThreeLegsLose(fs: seq<Exchange>, u: real, v: real, w: real, x: real)
    requires |fs| == 3 && 0.0 < x && 0.0 < u
    requires KeepsValue(fs[0], u, v, FEE_KEPT) && KeepsValue(fs[1], v, w, FEE_KEPT) && KeepsValue(fs[2], w, u, FEE_KEPT)
    ensures Through(fs, x) <= FEE_KEPT * FEE_KEPT * FEE_KEPT * x
    ensures (Through(fs, x) - x) / x * 100.0 <= -0.7481265625
  {
    ValueFalls(fs, x, [u, v, w, u], FEE_KEPT, x * u);
    var a := x * u * FEE_KEPT;
    assert AfterLegs(a * FEE_KEPT, FEE_KEPT, 1) == AfterLegs(a * FEE_KEPT * FEE_KEPT, FEE_KEPT, 0);
    LossPerFee(Through(fs, x), x, u);
  }

  lemma LossPerFee(out: real, x: real, u: real)
    requires 0.0 < x && 0.0 < u && out * u <= x * u * FEE_KEPT * FEE_KEPT * FEE_KEPT
    ensures out <= FEE_KEPT * FEE_KEPT * FEE_KEPT * x
    ensures (out - x) / x * 100.0 <= -0.7481265625
  {
    var f := FEE_KEPT * FEE_KEPT * FEE_KEPT;
    assert x * u * FEE_KEPT * FEE_KEPT * FEE_KEPT == f * x * u;
    CancelFactor(out, f * x, u);
    DivAtMost(out - x, x, f - 1.0);
  }

  /**
   * No arbitrage: if one set of asset values respects all three books, both paths lose
   * at least the fees and the gate rejects, whatever the amount.
   */
  lemma NoArbitrage(t: Triangle, vA: real, vB: real, vC: real, x: real)
    requires SaneTriangle(t) && 0.0 < vA && 0.0 < vB && 0.0 < vC && 0.0 < x
    requires Fair(t.ab, vA, vB) && Fair(t.bc, vB, vC) && Fair(t.ac, vA, vC)
    ensures Follow(Forward(t), Val(x)).Val? && Follow(Forward(t), Val(x)).v <= FEE_KEPT * FEE_KEPT * FEE_KEPT * x
    ensures Follow(Reverse(t), Val(x)).Val? && Follow(Reverse(t), Val(x)).v <= FEE_KEPT * FEE_KEPT * FEE_KEPT * x
    ensures var f, r := Percent(Follow(Forward(t), Val(x)), x), Percent(Follow(Reverse(t), Val(x)), x);
      f.v <= -0.7481265625 && r.v <= -0.7481265625 && Decide(f, r) == NoTrade
  {
    ForwardLoses(t, vA, vB, vC, x);
    ReverseLoses(t, vA, vB, vC, x);
  }

  lemma ForwardLoses(t: Triangle, vA: real, vB: real, vC: real, x: real)
    requires SaneTriangle(t) && 0.0 < vA && 0.0 < vB && 0.0 < vC && 0.0 < x
    requires Fair(t.ab, vA, vB) && Fair(t.bc, vB, vC) && Fair(t.ac, vA, vC)
    ensures var out := Follow(Forward(t), Val(x));
      out.Val? && out.v <= FEE_KEPT * FEE_KEPT * FEE_KEPT * x && Percent(out, x).v <= -0.7481265625
  {
    PathsSane(t);
    ClosedPathLoses(Forward(t), vA, vB, vC, x);
  }

  lemma ReverseLoses(t: Triangle, vA: real, vB: real, vC: real, x: real)
    requires SaneTriangle(t) && 0.0 < vA && 0.0 < vB && 0.0 < vC && 0.0 < x
    requires Fair(t.ab, vA, vB) && Fair(t.bc, vB, vC) && Fair(t.ac, vA, vC)
    ensures var out := Follow(Reverse(t), Val(x));
      out.Val? && out.v <= FEE_KEPT * FEE_KEPT * FEE_KEPT * x && Percent(out, x).v <= -0.7481265625
  {
    PathsSane(t);
    ClosedPathLoses(Reverse(t), vA, vC, vB, x);
  }

  lemma {:induction false} PathPercentFalls(legs: seq<Leg>, x: real, y: real)
    requires AllSane(legs) && AllSorted(legs) && 0.0 < x <= y
    ensures Follow(legs, Val(x)).Val? && Follow(legs, Val(y)).Val?
    ensures Follow(legs, Val(x)).v <= Follow(legs, Val(y)).v
    ensures Percent(Follow(legs, Val(y)), y).v <= Percent(Follow(legs, Val(x)), x).v
  {
    var f, g := PathOfTwo(legs, x, y);
    PercentOrder(f, g, x, y);
  }

  lemma PercentOrder(f: real, g: real, x: real, y: real)
    requires 0.0 < x <= y && g * x <= f * y
    ensures (g - y) / y * 100.0 <= (f - x) / x * 100.0
  {
    var q := (f - x) / x;
    DivMul(f - x, x);
    assert q * y * x == (f - x) * y;
    CancelFactor(g - y, q * y, x);
    DivAtMost(g - y, y, q);
  }

  /** Size dependence: on sorted books a larger trade amount ends with no less, but neither profit percentage rises. */
  lemma SizeDependence(t: Triangle, x: real, y: real)
    requires SaneTriangle(t) && SortedTriangle(t) && 0.0 < x <= y
    ensures Follow(Forward(t), Val(x)).Val? && Follow(Forward(t), Val(y)).Val?
    ensures Follow(Reverse(t), Val(x)).Val? && Follow(Reverse(t), Val(y)).Val?
    ensures Percent(Follow(Forward(t), Val(y)), y).v <= Percent(Follow(Forward(t), Val(x)), x).v
    ensures Percent(Follow(Reverse(t), Val(y)), y).v <= Percent(Follow(Reverse(t), Val(x)), x).v
    ensures Follow(Forward(t), Val(x)).v <= Follow(Forward(t), Val(y)).v
    ensures Follow(Reverse(t), Val(x)).v <= Follow(Reverse(t), Val(y)).v
  {
    PathsSane(t);
    PathPercentFalls(Forward(t), x, y);
    PathPercentFalls(Reverse(t), x, y);
  }

  /** On sorted books a gate that opens for an amount opens for every smaller one. */
  lemma {:induction false} GateOpensBelow(t: Triangle, x: real, y: real)
    requires SaneTriangle(t) && SortedTriangle(t) && 0.0 < x <= y
    ensures !DecisionFor(t, y).NoTrade? ==> !DecisionFor(t, x).NoTrade?
  {
    SizeDependence(t, x, y);
    DecideWithoutNaN(ForwardFigure(t, x).v, ReverseFigure(t, x).v);
    DecideWithoutNaN(ForwardFigure(t, y).v, ReverseFigure(t, y).v);
  }

  /** On sorted books, what either path ends with is concave in the trade amount. */
  lemma {:induction false} ProceedsConcave(t: Triangle, k: real, x: real, y: real)
    requires SaneTriangle(t) && SortedTriangle(t) && 0.0 <= k <= 1.0 && 0.0 <= x && 0.0 <= y
    ensures ConcaveFrom(Forward(t), k, x, y) && ConcaveFrom(Reverse(t), k, x, y)
  {
    PathsSane(t);
    PathConcave(Forward(t), k, x, y);
    PathConcave(Reverse(t), k, x, y);
  }

  lemma {:induction false} DecisionByAmounts(t: Triangle, x: real)
    requires SaneTriangle(t) && 0.0 < x && AllSane(Forward(t)) && AllSane(Reverse(t))
    ensures !DecisionFor(t, x).NoTrade? <==> Through(Nets(Forward(t)), x) > x || Through(Nets(Reverse(t)), x) > x
  {
    FollowIsThrough(Forward(t), x);
    FollowIsThrough(Reverse(t), x);
    DivAtMost(Through(Nets(Forward(t)), x) - x, x, 0.0);
    DivAtMost(Through(Nets(Reverse(t)), x) - x, x, 0.0);
  }

  /** The gate opens for some amount exactly when, at best prices and after three fees, one of the two cycles gains. */
  lemma {:induction false} GateOpensExactly(t: Triangle)
    requires SaneTriangle(t) && SortedTriangle(t)
    ensures AllSane(Forward(t)) && AllSane(Reverse(t))
    ensures (exists x: real :: 0.0 < x && !DecisionFor(t, x).NoTrade?)
            <==> AtBest(Rates(Forward(t))) > 1.0 || AtBest(Rates(Reverse(t))) > 1.0
  {
    PathsSane(t);
    var f, r := Nets(Forward(t)), Nets(Reverse(t));
    ProfitableExactly(Forward(t));
    ProfitableExactly(Reverse(t));
    forall x: real | 0.0 < x
      ensures !DecisionFor(t, x).NoTrade? <==> Through(f, x) > x || Through(r, x) > x
    {
      DecisionByAmounts(t, x);
    }
    if AtBest(Rates(Forward(t))) > 1.0 || AtBest(Rates(Reverse(t))) > 1.0 {
      var x: real :| 0.0 < x && (Through(f, x) > x || Through(r, x) > x);
      assert !DecisionFor(t, x).NoTrade?;
    }
    if x: real :| 0.0 < x && !DecisionFor(t, x).NoTrade? {
      if Through(f, x) > x {
        assert exists x: real :: 0.0 < x && Through(f, x) > x;
      } else {
        assert exists x: real :: 0.0 < x && Through(r, x) > x;
      }
    }
  }
}
