/** One candle series of CandlesState (src/Candle.cpp): insertion by timestamp, live trades and one-minute batches. */
module CandleStore {
  import opened Common
  import opened Candles
  import opened RealLemmas
  import RowStore
  import RowStoreBounds
  import RowStoreContents
  import opened DynamicArrays

  // ---------------------------------------------------------------- insertion on sequences

  datatype Outcome = Outcome(rows: seq<Candle>, error: Option<Error>)

  function Last(rows: seq<Candle>): Candle
    requires rows != []
  {
    rows[|rows| - 1]
  }

  /** How many past positions the search for a late candle tries. */
  function ScanBound(size: nat): nat { Max(size - 1, 20) }

  /** The search of the late branch from step `i` on: the row it overwrites, none, or an index out of range. */
  function LateScan(rows: seq<Candle>, ts: real, i: nat): (r: Result<Option<nat>>)
    ensures r.Ok? && r.value.Some? ==> r.value.value < |rows|
    decreases ScanBound(|rows|) - i
  {
    if i >= ScanBound(|rows|) then Ok(None) else
      match RowStore.Position(-(i as int), |rows|)
      case None => Err(OutOfRange)
      case Some(k) => if Timestamp(rows[k]) == ts then Ok(Some(k)) else LateScan(rows, ts, i + 1)
  }

  function Inserted(rows: seq<Candle>, c: Candle): (o: Outcome)
    ensures rows != [] ==> o.rows != []
  {
    if rows == [] then Outcome([c], None)
    else if Timestamp(c) > Timestamp(Last(rows)) then Outcome(rows + [c], None)
    else if Timestamp(c) == Timestamp(Last(rows)) then Outcome(rows[|rows| - 1 := c], None)
    else match LateScan(rows, Timestamp(c), 0)
         case Err(e) => Outcome(rows, Some(e))
         case Ok(None) => Outcome(rows, None)
         case Ok(Some(k)) => Outcome(rows[k := c], None)
  }

  /**
   * The trading mode; live, with the time and whether the pair's candles are admitted: it
   * is initiated, or the caller does not skip while it is being imported.
   */
  datatype Mode = Backtest | Import | Live(now: real, admitted: bool)

  /** addCandle: a zero timestamp is ignored, and in live mode one after the clock or not yet admitted. */
  function Added(rows: seq<Candle>, c: Candle, mode: Mode): (o: Outcome)
    ensures rows != [] ==> o.rows != []
  {
    if Timestamp(c) == 0.0 || (mode.Live? && (!mode.admitted || Timestamp(c) > mode.now)) then Outcome(rows, None)
    else Inserted(rows, c)
  }

  ghost predicate Ordered(rows: seq<Candle>) {
    forall i, j :: 0 <= i < j < |rows| ==> Timestamp(rows[i]) < Timestamp(rows[j])
  }

  /** Row reached at step `i`: the first one, then backwards from the last. */
  function Slot(size: nat, i: nat): nat
    requires 0 < size && i <= size
  {
    if i == 0 then 0 else size - i
  }

  lemma {:induction false} ScanHits(rows: seq<Candle>, ts: real, i: nat, j: nat)
    requires rows != [] && i <= j <= |rows| && j < ScanBound(|rows|)
    requires Timestamp(rows[Slot(|rows|, j)]) == ts
    requires forall m :: i <= m < j ==> Timestamp(rows[Slot(|rows|, m)]) != ts
    ensures LateScan(rows, ts, i) == Ok(Some(Slot(|rows|, j)))
    decreases j - i
  {
    if i < j {
      assert Timestamp(rows[Slot(|rows|, i)]) != ts;
      ScanHits(rows, ts, i + 1, j);
    }
  }

  lemma {:induction false} ScanMisses(rows: seq<Candle>, ts: real, i: nat)
    requires rows != []
    requires forall m :: i <= m <= |rows| && m < ScanBound(|rows|) ==> Timestamp(rows[Slot(|rows|, m)]) != ts
    requires i <= |rows| + 1
    ensures LateScan(rows, ts, i) == if |rows| <= 18 then Err(OutOfRange) else Ok(None)
    decreases ScanBound(|rows|) - i
  {
    if i <= |rows| && i < ScanBound(|rows|) {
      assert Timestamp(rows[Slot(|rows|, i)]) != ts;
      ScanMisses(rows, ts, i + 1);
    }
  }

  /**
   * Whether a late candle of timestamp `ts` finds row `k`: it must be stored there, and row 1
   * of more than 20 is never tried.
   */
  predicate Reaches(rows: seq<Candle>, ts: real, k: nat) {
    k < |rows| && Timestamp(rows[k]) == ts && !(k == 1 && |rows| > 20)
  }

  /**
   * A late candle replaces exactly the row of its timestamp if the search reaches it;
   * otherwise nothing changes, and a store of at most 18 rows reports an index error.
   */
  lemma {:induction false} LateCandleExactly(rows: seq<Candle>, c: Candle)
    requires rows != [] && Ordered(rows) && Timestamp(c) < Timestamp(Last(rows))
    ensures forall k: nat :: Reaches(rows, Timestamp(c), k) ==> Inserted(rows, c) == Outcome(rows[k := c], None)
    ensures (forall k: nat :: !Reaches(rows, Timestamp(c), k)) ==>
      Inserted(rows, c) == Outcome(rows, if |rows| <= 18 then Some(OutOfRange) else None)
  {
    var ts, n := Timestamp(c), |rows|;
    forall k: nat | Reaches(rows, ts, k) ensures Inserted(rows, c) == Outcome(rows[k := c], None) {
      var j := if k == 0 then 0 else n - k;
      assert forall m :: 0 <= m < j ==> Slot(n, m) != k;
      ScanHits(rows, ts, 0, j);
    }
    if forall k: nat :: !Reaches(rows, ts, k) {
      forall m | 0 <= m <= n && m < ScanBound(n) ensures Timestamp(rows[Slot(n, m)]) != ts {
        assert !Reaches(rows, ts, Slot(n, m));
      }
      ScanMisses(rows, ts, 0);
    }
  }

  /** Every insertion keeps the timestamps strictly increasing. */
  lemma InsertionKeepsOrder(rows: seq<Candle>, c: Candle, mode: Mode)
    requires Ordered(rows)
    ensures Ordered(Added(rows, c, mode).rows)
    ensures Added(rows, c, mode).error.Some? ==> Added(rows, c, mode).rows == rows
  {
    if rows != [] && Timestamp(c) < Timestamp(Last(rows)) {
      LateCandleExactly(rows, c);
      if k: nat :| Reaches(rows, Timestamp(c), k) {
        assert Ordered(rows[k := c]);
      }
    }
  }

  /**
   * An insertion changes nothing, appends a strictly newer candle, or replaces one row by a
   * candle of the same timestamp.
   */
  lemma InsertionChangesOneRow(rows: seq<Candle>, c: Candle, mode: Mode)
    requires rows != [] && Ordered(rows)
    ensures var rows' := Added(rows, c, mode).rows;
      || rows' == rows
      || (rows' == rows + [c] && Timestamp(c) > Timestamp(Last(rows)))
      || (exists k: nat :: k < |rows| && Timestamp(rows[k]) == Timestamp(c) && rows' == rows[k := c])
  {
    if Timestamp(c) < Timestamp(Last(rows)) {
      LateCandleExactly(rows, c);
      if k: nat :| Reaches(rows, Timestamp(c), k) { assert k < |rows|; }
    } else if Timestamp(c) == Timestamp(Last(rows)) {
      assert Timestamp(rows[|rows| - 1]) == Timestamp(c);
    }
  }

  // ---------------------------------------------------------------- runs of insertions

  /** A run of insertions, each in its own mode; an insertion that throws leaves the rows as they were. */
  function AddedAll(rows: seq<Candle>, cs: seq<Candle>, modes: seq<Mode>): seq<Candle>
    requires |modes| == |cs|
    decreases |cs|
  {
    if cs == [] then rows
    else AddedAll(Added(rows, cs[0], modes[0]).rows, cs[1..], modes[1..])
  }

  lemma {:induction false} RunsKeepOrder(rows: seq<Candle>, cs: seq<Candle>, modes: seq<Mode>)
    requires |modes| == |cs| && Ordered(rows)
    ensures Ordered(AddedAll(rows, cs, modes))
    decreases |cs|
  {
    if cs != [] {
      InsertionKeepsOrder(rows, cs[0], modes[0]);
      RunsKeepOrder(Added(rows, cs[0], modes[0]).rows, cs[1..], modes[1..]);
    }
  }

  predicate Accepted(c: Candle, mode: Mode) {
    Timestamp(c) != 0.0 && (mode.Live? ==> mode.admitted && Timestamp(c) <= mode.now)
  }

  /** The newest accepted candle of a run, the later one among equals, or the row held before. */
  function Newest(held: Option<Candle>, cs: seq<Candle>, modes: seq<Mode>): Option<Candle>
    requires |modes| == |cs|
    decreases |cs|
  {
    if cs == [] then held else
      var next := if Accepted(cs[0], modes[0]) && (held.Some? ==> Timestamp(held.value) <= Timestamp(cs[0]))
                  then Some(cs[0]) else held;
      Newest(next, cs[1..], modes[1..])
  }

  function LastOf(rows: seq<Candle>): Option<Candle> { if rows == [] then None else Some(Last(rows)) }

  /** What is accepted, in an empty store: any timestamp but 0, live only admitted and not after the clock. */
  lemma AcceptedExactly(c: Candle, mode: Mode)
    ensures Added([], c, mode).error.None?
    ensures Added([], c, mode).rows == [c] <==>
      Timestamp(c) != 0.0 && (mode.Live? ==> mode.admitted && Timestamp(c) <= mode.now)
    ensures Added([], c, mode).rows != [c] ==> Added([], c, mode).rows == []
  {
  }

  /** What is not accepted changes nothing. */
  lemma IgnoredExactly(rows: seq<Candle>, c: Candle, mode: Mode)
    requires Timestamp(c) == 0.0 || (mode.Live? && (!mode.admitted || mode.now < Timestamp(c)))
    ensures Added(rows, c, mode) == Outcome(rows, None)
  {
  }

  /** After any run the last row is the newest accepted candle, in its latest version. */
  lemma {:induction false} LastRowIsNewest(rows: seq<Candle>, cs: seq<Candle>, modes: seq<Mode>)
    requires |modes| == |cs| && Ordered(rows)
    ensures LastOf(AddedAll(rows, cs, modes)) == Newest(LastOf(rows), cs, modes)
    decreases |cs|
  {
    if cs != [] {
      var rows' := Added(rows, cs[0], modes[0]).rows;
      InsertionKeepsOrder(rows, cs[0], modes[0]);
      LastAfterInsertion(rows, cs[0], modes[0]);
      LastRowIsNewest(rows', cs[1..], modes[1..]);
    }
  }

  lemma LastAfterInsertion(rows: seq<Candle>, c: Candle, mode: Mode)
    requires Ordered(rows)
    ensures LastOf(Added(rows, c, mode).rows) ==
      if Accepted(c, mode) && (rows != [] ==> Timestamp(Last(rows)) <= Timestamp(c)) then Some(c) else LastOf(rows)
  {
    if rows != [] && Timestamp(c) < Timestamp(Last(rows)) {
      LateCandleExactly(rows, c);
      if k: nat :| Reaches(rows, Timestamp(c), k) { assert k != |rows| - 1; }
    }
  }

  /** What "newest" means: no accepted candle of the run is later, and none after it is as late. */
  lemma {:induction false} NewestDominates(held: Option<Candle>, cs: seq<Candle>, modes: seq<Mode>, i: nat)
    requires |modes| == |cs| && i < |cs| && Accepted(cs[i], modes[i])
    ensures Newest(held, cs, modes).Some?
    ensures Timestamp(cs[i]) <= Timestamp(Newest(held, cs, modes).value)
    decreases |cs|
  {
    var next := if Accepted(cs[0], modes[0]) && (held.Some? ==> Timestamp(held.value) <= Timestamp(cs[0]))
                then Some(cs[0]) else held;
    if i == 0 {
      NewestGrows(next, cs[1..], modes[1..]);
    } else {
      NewestDominates(next, cs[1..], modes[1..], i - 1);
    }
  }

  lemma {:induction false} NewestGrows(held: Option<Candle>, cs: seq<Candle>, modes: seq<Mode>)
    requires |modes| == |cs| && held.Some?
    ensures Newest(held, cs, modes).Some? && Timestamp(held.value) <= Timestamp(Newest(held, cs, modes).value)
    decreases |cs|
  {
    if cs != [] {
      var next := if Accepted(cs[0], modes[0]) && Timestamp(held.value) <= Timestamp(cs[0]) then Some(cs[0]) else held;
      NewestGrows(next, cs[1..], modes[1..]);
    }
  }

  // ---------------------------------------------------------------- trades

  function NextTimestamp(c: Candle, minutes: nat): real { Timestamp(c) + minutes as real * MINUTE }

  lemma NextTimestampExactly(c: Candle, minutes: nat)
    ensures NextTimestamp(c, minutes) == Timestamp(c) + minutes as real * 60000.0
  {
  }

  /** The next candle before any trade: flat at the previous close. */
  function EmptyAfter(prev: Candle, minutes: nat): Candle {
    [NextTimestamp(prev, minutes), Close(prev), Close(prev), Close(prev), Close(prev), 0.0]
  }

  function Traded(c: Candle, price: real, volume: real): Candle {
    [Timestamp(c), Open(c), price, MaxReal(High(c), price), MinReal(Low(c), price), Volume(c) + volume]
  }

  datatype Trade = Trade(price: real, volume: real)

  function TradedAll(c: Candle, trades: seq<Trade>): Candle
    decreases |trades|
  {
    if trades == [] then c else
      var n := |trades| - 1;
      Traded(TradedAll(c, trades[..n]), trades[n].price, trades[n].volume)
  }

  function Prices(trades: seq<Trade>): (r: seq<real>)
    ensures |r| == |trades|
  {
    if trades == [] then [] else Prices(trades[..|trades| - 1]) + [trades[|trades| - 1].price]
  }

  function TotalTraded(trades: seq<Trade>): real {
    if trades == [] then 0.0 else TotalTraded(trades[..|trades| - 1]) + trades[|trades| - 1].volume
  }

  lemma {:induction false} FoldHigh(c: Candle, trades: seq<Trade>)
    ensures High(TradedAll(c, trades)) == MaxOf([High(c)] + Prices(trades))
    decreases |trades|
  {
    if trades == [] {
      SpanOfOne(High(c));
      assert [High(c)] + Prices(trades) == [High(c)];
    } else {
      var init, p := trades[..|trades| - 1], trades[|trades| - 1].price;
      FoldHigh(c, init);
      assert [High(c)] + Prices(trades) == ([High(c)] + Prices(init)) + [p];
      MaxOfConcat([High(c)] + Prices(init), [p]);
    }
  }

  lemma {:induction false} FoldLow(c: Candle, trades: seq<Trade>)
    ensures Low(TradedAll(c, trades)) == MinOf([Low(c)] + Prices(trades))
    decreases |trades|
  {
    if trades == [] {
      SpanOfOne(Low(c));
      assert [Low(c)] + Prices(trades) == [Low(c)];
    } else {
      var init, p := trades[..|trades| - 1], trades[|trades| - 1].price;
      FoldLow(c, init);
      assert [Low(c)] + Prices(trades) == ([Low(c)] + Prices(init)) + [p];
      MinOfConcat([Low(c)] + Prices(init), [p]);
    }
  }

  lemma {:induction false} FoldRest(c: Candle, trades: seq<Trade>)
    ensures Timestamp(TradedAll(c, trades)) == Timestamp(c) && Open(TradedAll(c, trades)) == Open(c)
    ensures Close(TradedAll(c, trades)) == if trades == [] then Close(c) else trades[|trades| - 1].price
    ensures Volume(TradedAll(c, trades)) == Volume(c) + TotalTraded(trades)
    decreases |trades|
  {
    if trades != [] { FoldRest(c, trades[..|trades| - 1]); }
  }

  /**
   * Folding trades into the empty candle: opens at the previous close, closes at the last
   * price, spans the previous close and all prices.
   */
  lemma {:induction false} FoldFromEmpty(prev: Candle, minutes: nat, trades: seq<Trade>)
    ensures var r, close := TradedAll(EmptyAfter(prev, minutes), trades), Close(prev);
      && Timestamp(r) == NextTimestamp(prev, minutes)
      && Open(r) == close
      && Close(r) == (if trades == [] then close else trades[|trades| - 1].price)
      && High(r) == MaxOf([close] + Prices(trades))
      && Low(r) == MinOf([close] + Prices(trades))
      && Volume(r) == TotalTraded(trades)
  {
    var e := EmptyAfter(prev, minutes);
    FoldHigh(e, trades);
    FoldLow(e, trades);
    FoldRest(e, trades);
  }

  /** addCandleFromTrade for the one-minute series: for live modes only, nothing until the pair is initiated. */
  function TradeAdded(rows: seq<Candle>, t: Trade, mode: Mode): Outcome {
    if !mode.Live? then Outcome(rows, Some(WrongMode))
    else if !mode.admitted then Outcome(rows, None)
    else TradeFolded(rows, t, mode.now)
  }

  function TradeFolded(rows: seq<Candle>, t: Trade, now: real): Outcome {
    if rows == [] then Outcome(rows, Some(InvalidArgument)) else
      var rolled := if NextTimestamp(Last(rows), 1) < now
                    then Added(rows, EmptyAfter(Last(rows), 1), Live(now, true)) else Outcome(rows, None);
      if rolled.error.Some? then rolled
      else Added(rolled.rows, Traded(Last(rolled.rows), t.price, t.volume), Live(now, true))
  }

  function TradesAdded(rows: seq<Candle>, trades: seq<Trade>, times: seq<real>): seq<Candle>
    requires |times| == |trades|
    decreases |trades|
  {
    if trades == [] then rows else
      var n := |trades| - 1;
      TradeAdded(TradesAdded(rows, trades[..n], times[..n]), trades[n], Live(times[n], true)).rows
  }

  /** Outside live modes a trade is refused, before the pair is initiated ignored, and with no candle an error. */
  lemma TradeModesExactly(rows: seq<Candle>, t: Trade, mode: Mode)
    ensures !mode.Live? ==> TradeAdded(rows, t, mode) == Outcome(rows, Some(WrongMode))
    ensures mode.Live? && !mode.admitted ==> TradeAdded(rows, t, mode) == Outcome(rows, None)
    ensures mode.Live? && mode.admitted && rows == [] ==>
      TradeAdded(rows, t, mode) == Outcome(rows, Some(InvalidArgument))
  {
  }

  /** While no trade comes later than the next candle's start, trades change the last row only, and fold into it. */
  lemma {:induction false} TradesFoldIntoLastRow(rows: seq<Candle>, trades: seq<Trade>, times: seq<real>)
    requires |times| == |trades| && rows != [] && Timestamp(Last(rows)) != 0.0
    requires forall i :: 0 <= i < |times| ==> Timestamp(Last(rows)) <= times[i] <= NextTimestamp(Last(rows), 1)
    ensures TradesAdded(rows, trades, times) == rows[..|rows| - 1] + [TradedAll(Last(rows), trades)]
    decreases |trades|
  {
    var init := rows[..|rows| - 1];
    if trades == [] {
      assert rows == init + [Last(rows)];
    } else {
      var n := |trades| - 1;
      TradesFoldIntoLastRow(rows, trades[..n], times[..n]);
      FoldRest(Last(rows), trades[..n]);
      TradeFolds(init + [TradedAll(Last(rows), trades[..n])], trades[n], times[n]);
    }
  }

  lemma TradeFolds(rows: seq<Candle>, t: Trade, now: real)
    requires rows != [] && Timestamp(Last(rows)) != 0.0
    requires Timestamp(Last(rows)) <= now <= NextTimestamp(Last(rows), 1)
    ensures TradeAdded(rows, t, Live(now, true))
         == Outcome(rows[..|rows| - 1] + [Traded(Last(rows), t.price, t.volume)], None)
  {
    LastReplaced(rows, Traded(Last(rows), t.price, t.volume), now);
  }

  lemma LastReplaced(rows: seq<Candle>, c: Candle, now: real)
    requires rows != [] && Timestamp(Last(rows)) == Timestamp(c) != 0.0 && Timestamp(c) <= now
    ensures Added(rows, c, Live(now, true)) == Outcome(rows[..|rows| - 1] + [c], None)
  {
    assert rows[|rows| - 1 := c] == rows[..|rows| - 1] + [c];
  }

  /** The first trade after that opens the next candle, flat at the previous close, and is folded into it. */
  lemma TradeOpensNextCandle(rows: seq<Candle>, t: Trade, now: real)
    requires rows != [] && NextTimestamp(Last(rows), 1) < now && NextTimestamp(Last(rows), 1) != 0.0
    ensures TradeAdded(rows, t, Live(now, true)) ==
      Outcome(rows + [Traded(EmptyAfter(Last(rows), 1), t.price, t.volume)], None)
  {
    var e := EmptyAfter(Last(rows), 1);
    assert Added(rows, e, Live(now, true)) == Outcome(rows + [e], None);
    LastReplaced(rows + [e], Traded(e, t.price, t.volume), now);
    assert (rows + [e])[..|rows|] == rows;
  }

  /** The minute that starts at the candle's timestamp. */
  predicate Covers(c: Candle, now: real) { Timestamp(c) <= now < NextTimestamp(c, 1) }

  /**
   * A trade is folded into the candle of its own minute exactly when it falls into the
   * stored minute or strictly inside the next one: at the very start of the next minute,
   * and after a gap of a minute, it goes to an older one; before the stored minute it is lost.
   */
  lemma {:induction false} TradeInItsMinuteExactly(rows: seq<Candle>, t: Trade, now: real)
    requires rows != [] && Timestamp(Last(rows)) != 0.0 && NextTimestamp(Last(rows), 1) != 0.0
    ensures var last, o := Last(rows), TradeAdded(rows, t, Live(now, true));
      && (Covers(Last(o.rows), now) <==>
            Timestamp(last) <= now < NextTimestamp(last, 2) && now != NextTimestamp(last, 1))
      && (now < Timestamp(last) ==> o == Outcome(rows, None))
      && (now >= NextTimestamp(last, 2) ==> NextTimestamp(Last(o.rows), 1) <= now)
      && (now >= Timestamp(last) ==>
            exists base: Candle :: Last(o.rows) == Traded(base, t.price, t.volume)
              && (base == last || base == EmptyAfter(last, 1)))
  {
    var last := Last(rows);
    if now > NextTimestamp(last, 1) {
      TradeOpensNextCandle(rows, t, now);
      assert Last(TradeAdded(rows, t, Live(now, true)).rows) == Traded(EmptyAfter(last, 1), t.price, t.volume);
    } else if now >= Timestamp(last) {
      TradeFolds(rows, t, now);
      assert Last(TradeAdded(rows, t, Live(now, true)).rows) == Traded(last, t.price, t.volume);
    }
  }

  // ---------------------------------------------------------------- batches

  /** C++ conversion to an integer: towards zero. */
  function Truncated(x: real): int { if x >= 0.0 then x.Floor else -((-x).Floor) }

  /** addMultiple1MinCandles on sequences, for backtesting and optimizing only. */
  function BatchAdded(rows: seq<Candle>, batch: seq<Candle>, mode: Mode): Outcome
    requires rows == [] || batch != []
  {
    if mode.Backtest? then BatchStored(rows, batch) else Outcome(rows, Some(WrongMode))
  }

  /** Rejected batches leave the rows unchanged. */
  function BatchStored(rows: seq<Candle>, batch: seq<Candle>): Outcome
    requires rows == [] || batch != []
  {
    var n := |batch|;
    if rows == [] then Outcome(batch, None)
    else if Timestamp(batch[0]) > Timestamp(Last(rows)) then Outcome(rows + batch, None)
    else if n > |rows| then Outcome(rows, Some(OutOfRange))
    else if Timestamp(batch[0]) >= Timestamp(rows[|rows| - n]) && Timestamp(Last(batch)) >= Timestamp(Last(rows)) then
      var override := Truncated(n as real - (Timestamp(Last(batch)) - Timestamp(Last(rows))) / MINUTE);
      var (lo, hi) := SliceBounds(-override, |rows|, |rows|);
      if lo >= hi then Outcome(rows, Some(OutOfRange))
      else if hi - lo != n then Outcome(rows, Some(SizeMismatch))
      else Outcome(rows[..lo] + batch + rows[hi..], None)
    else Outcome(rows, Some(NotFound))
  }

  /** Outside backtesting and optimizing a batch is refused; an empty store takes any. */
  lemma BatchModesExactly(rows: seq<Candle>, batch: seq<Candle>, mode: Mode)
    requires batch != []
    ensures !mode.Backtest? ==> BatchAdded(rows, batch, mode) == Outcome(rows, Some(WrongMode))
    ensures mode.Backtest? && rows == [] ==> BatchAdded(rows, batch, mode) == Outcome(batch, None)
  {
  }

  /** The conversion cuts the fraction off. */
  lemma TruncatedExactly(x: real)
    ensures 0.0 <= x ==> Truncated(x) as real <= x < Truncated(x) as real + 1.0
    ensures x < 0.0 ==> Truncated(x) as real - 1.0 < x <= Truncated(x) as real
  {
  }

  /**
   * A batch that overlaps the stored end is accepted exactly when the number of rows to
   * override, its length less the minutes by which it ends later, cut to an integer, is its
   * length, or the slice that number addresses happens to be as long.
   */
  lemma {:induction false} OverlapAcceptedExactly(rows: seq<Candle>, batch: seq<Candle>, override: int)
    requires rows != [] && batch != [] && |batch| <= |rows|
    requires Timestamp(rows[|rows| - |batch|]) <= Timestamp(batch[0]) <= Timestamp(Last(rows)) <= Timestamp(Last(batch))
    requires var late := (Timestamp(Last(batch)) - Timestamp(Last(rows))) / 60000.0;
      override == Truncated(|batch| as real - late)
    ensures BatchAdded(rows, batch, Backtest).error.None? <==>
      override == |batch| || (override <= 0 && |rows| + override == |batch|)
  {
  }

  /** One-minute rows without gaps. */
  ghost predicate Spaced(rows: seq<Candle>) {
    forall i :: 0 <= i < |rows| - 1 ==> Timestamp(rows[i + 1]) == Timestamp(rows[i]) + MINUTE
  }

  lemma {:induction false} SpacedTimestamp(rows: seq<Candle>, i: nat, j: nat)
    requires Spaced(rows) && i <= j < |rows|
    ensures Timestamp(rows[j]) == Timestamp(rows[i]) + (j - i) as real * MINUTE
  {
    if i < j { SpacedTimestamp(rows, i, j - 1); }
  }

  lemma SpacedIsOrdered(rows: seq<Candle>)
    requires Spaced(rows)
    ensures Ordered(rows)
  {
    forall i, j | 0 <= i < j < |rows| ensures Timestamp(rows[i]) < Timestamp(rows[j]) {
      SpacedTimestamp(rows, i, j);
    }
  }

  /**
   * A gapless batch on gapless rows is appended exactly when it is newer, replaces the last
   * rows exactly when it fits and ends at the stored end, and is rejected otherwise.
   */
  lemma {:induction false} BatchExactly(rows: seq<Candle>, batch: seq<Candle>)
    requires rows != [] && batch != [] && Spaced(rows) && Spaced(batch)
    ensures var o, newer := BatchAdded(rows, batch, Backtest), Timestamp(batch[0]) > Timestamp(Last(rows));
      var fits := |batch| <= |rows| && Timestamp(Last(batch)) == Timestamp(Last(rows));
      && (newer ==> o == Outcome(rows + batch, None))
      && (!newer && fits ==> o == Outcome(rows[..|rows| - |batch|] + batch, None))
      && (!newer && !fits ==> o.error.Some? && o.rows == rows)
  {
    var n := |batch|;
    if n <= |rows| && Timestamp(batch[0]) <= Timestamp(Last(rows)) {
      SpacedTimestamp(batch, 0, n - 1);
      SpacedTimestamp(rows, |rows| - n, |rows| - 1);
      var ahead := Timestamp(Last(batch)) - Timestamp(Last(rows));
      if ahead >= 0.0 {
        DivAtMost(ahead, MINUTE, (n - 1) as real);
        DivAtMost(ahead, MINUTE, 0.0);
        assert 1.0 <= n as real - ahead / MINUTE <= n as real;
      }
    }
  }

  /** Whatever it is, a batch leaves the rows, follows them, or takes the place of as many last ones. */
  lemma {:induction false} BatchOutcomes(rows: seq<Candle>, batch: seq<Candle>, mode: Mode)
    requires batch != []
    ensures var o := BatchAdded(rows, batch, mode);
      || (o.error.Some? && o.rows == rows)
      || (o == Outcome(rows + batch, None) && (rows != [] ==> Timestamp(Last(rows)) < Timestamp(batch[0])))
      || (o == Outcome(rows[..|rows| - |batch|] + batch, None) && |batch| <= |rows|
          && Timestamp(rows[|rows| - |batch|]) <= Timestamp(batch[0]))
  {
    var o := BatchStored(rows, batch);
    if rows == [] {
      assert o.rows == rows + batch;
    } else if o.error.None? && o.rows != rows + batch {
      assert rows[|rows|..] == [];
      assert o.rows == rows[..|rows| - |batch|] + batch;
    }
  }

  /** On ordered rows an accepted batch leaves ordered rows exactly if it is ordered itself, gapless or not. */
  lemma {:induction false} BatchKeepsOrder(rows: seq<Candle>, batch: seq<Candle>, mode: Mode)
    requires batch != [] && Ordered(rows)
    ensures var o := BatchAdded(rows, batch, mode);
      if o.error.Some? then o.rows == rows else Ordered(o.rows) <==> Ordered(batch)
  {
    BatchOutcomes(rows, batch, mode);
    var o := BatchAdded(rows, batch, mode);
    if o.error.None? {
      var k: nat := |o.rows| - |batch|;
      assert o.rows == rows[..k] + batch;
      forall i | 0 <= i < k ensures Timestamp(rows[i]) < Timestamp(batch[0]) {
        assert Timestamp(rows[i]) <= Timestamp(rows[|rows| - 1]);
      }
      OrderedConcat(rows[..k], batch);
    }
  }

  /** So an accepted gapless batch leaves ordered rows. */
  lemma {:induction false} GaplessBatchKeepsOrder(rows: seq<Candle>, batch: seq<Candle>, mode: Mode)
    requires batch != [] && Ordered(rows) && Spaced(batch)
    ensures Ordered(BatchAdded(rows, batch, mode).rows)
  {
    SpacedIsOrdered(batch);
    BatchKeepsOrder(rows, batch, mode);
  }

  lemma {:induction false} OrderedConcat(a: seq<Candle>, b: seq<Candle>)
    requires Ordered(a) && b != []
    requires forall i :: 0 <= i < |a| ==> Timestamp(a[i]) < Timestamp(b[0])
    ensures Ordered(a + b) <==> Ordered(b)
  {
    var c := a + b;
    if Ordered(c) {
      forall i, j | 0 <= i < j < |b| ensures Timestamp(b[i]) < Timestamp(b[j]) {
        assert c[|a| + i] == b[i] && c[|a| + j] == b[j];
      }
    }
    if Ordered(b) {
      forall i, j | 0 <= i < j < |c| ensures Timestamp(c[i]) < Timestamp(c[j]) {
        if j >= |a| { assert Timestamp(b[0]) <= Timestamp(b[j - |a|]); }
      }
    }
  }

  // ---------------------------------------------------------------- mixed runs

  /** Anything that changes the series. */
  datatype Event =
    | CandleIn(c: Candle, mode: Mode)
    | TradeIn(t: Trade, mode: Mode)
    | BatchIn(batch: seq<Candle>, mode: Mode)

  ghost predicate OrderedEvent(e: Event) { e.BatchIn? ==> e.batch != [] && Ordered(e.batch) }

  function AfterEvent(rows: seq<Candle>, e: Event): Outcome
    requires e.BatchIn? ==> e.batch != []
  {
    match e
    case CandleIn(c, mode) => Added(rows, c, mode)
    case TradeIn(t, mode) => TradeAdded(rows, t, mode)
    case BatchIn(batch, mode) => BatchAdded(rows, batch, mode)
  }

  ghost function AfterEvents(rows: seq<Candle>, events: seq<Event>): seq<Candle>
    requires forall i :: 0 <= i < |events| ==> OrderedEvent(events[i])
    decreases |events|
  {
    if events == [] then rows else
      assert OrderedEvent(events[0]);
      AfterEvents(AfterEvent(rows, events[0]).rows, events[1..])
  }

  lemma {:induction false} TradeKeepsOrder(rows: seq<Candle>, t: Trade, mode: Mode)
    requires Ordered(rows)
    ensures Ordered(TradeAdded(rows, t, mode).rows)
  {
    if mode.Live? && mode.admitted && rows != [] {
      var next := EmptyAfter(Last(rows), 1);
      InsertionKeepsOrder(rows, next, mode);
      var rolled := if NextTimestamp(Last(rows), 1) < mode.now then Added(rows, next, mode) else Outcome(rows, None);
      if rolled.error.None? {
        InsertionKeepsOrder(rolled.rows, Traded(Last(rolled.rows), t.price, t.volume), mode);
      }
    }
  }

  /** Over every mix of candles, trades and ordered batches, in any modes, the timestamps stay strictly increasing. */
  lemma {:induction false} MixedRunsKeepOrder(rows: seq<Candle>, events: seq<Event>)
    requires Ordered(rows) && forall i :: 0 <= i < |events| ==> OrderedEvent(events[i])
    ensures Ordered(AfterEvents(rows, events))
    decreases |events|
  {
    if events != [] {
      var e := events[0];
      assert OrderedEvent(e);
      match e {
        case CandleIn(c, mode) => InsertionKeepsOrder(rows, c, mode);
        case TradeIn(t, mode) => TradeKeepsOrder(rows, t, mode);
        case BatchIn(batch, mode) => BatchKeepsOrder(rows, batch, mode);
      }
      MixedRunsKeepOrder(AfterEvent(rows, e).rows, events[1..]);
    }
  }

  // ---------------------------------------------------------------- setting up the stores

  /** A route's one-minute key, and the keys and minutes of the longer timeframes considered. */
  datatype Route = Route(key: string, longer: seq<(string, nat)>)

  /** Minutes of a timeframe are positive. */
  predicate LongerMinutes(route: Route) { forall j :: 0 <= j < |route.longer| ==> route.longer[j].1 > 0 }

  ghost predicate Present(route: Route, storage: map<string, DynamicArray>) {
    && route.key in storage
    && forall j :: 0 <= j < |route.longer| ==> route.longer[j].0 in storage
  }

  class CandleStorage {
    var storage: map<string, DynamicArray>

    constructor ()
      ensures storage == map[]
    {
      storage := map[];
    }

    method Reset()
      modifies this
      ensures storage == map[]
    {
      storage := map[];
    }

    /** Assignment through `at`, which adds no key. */
    method AssignAt(key: string, bucket: nat) returns (e: Option<Error>)
      modifies this
      ensures e == if key in old(storage) then None else Some(OutOfRange)
      ensures storage.Keys == old(storage.Keys)
    {
      if key !in storage { return Some(OutOfRange); }
      var store := new DynamicArray(bucket, COLUMNS, None);
      storage := storage[key := store];
      e := None;
    }

    /** The loop of init: it gets through exactly when every key is there already. */
    method AssignAll(bucketSize: nat, routes: seq<Route>) returns (e: Option<Error>)
      requires forall i :: 0 <= i < |routes| ==> LongerMinutes(routes[i])
      modifies this
      ensures e == None || e == Some(OutOfRange)
      ensures e.None? <==> forall i :: 0 <= i < |routes| ==> Present(routes[i], old(storage))
      ensures storage.Keys == old(storage.Keys)
    {
      for i := 0 to |routes|
        invariant storage.Keys == old(storage.Keys)
        invariant forall k :: 0 <= k < i ==> Present(routes[k], old(storage))
      {
        e := AssignRoute(bucketSize, routes[i]);
        if e.Some? { return; }
      }
      e := None;
    }

    method AssignRoute(bucketSize: nat, route: Route) returns (e: Option<Error>)
      requires LongerMinutes(route)
      modifies this
      ensures e == if Present(route, old(storage)) then None else Some(OutOfRange)
      ensures storage.Keys == old(storage.Keys)
    {
      e := AssignAt(route.key, bucketSize);
      if e.Some? { return; }
      for j := 0 to |route.longer|
        invariant storage.Keys == old(storage.Keys)
        invariant forall k :: 0 <= k < j ==> route.longer[k].0 in old(storage)
      {
        var (key, minutes) := route.longer[j];
        e := AssignAt(key, ReservedRows(bucketSize, minutes));
        if e.Some? { return; }
      }
      e := None;
    }

    /** init: since it clears the map first, it fails exactly when there is a route. */
    method Init(bucketSize: nat, routes: seq<Route>) returns (e: Option<Error>)
      requires forall i :: 0 <= i < |routes| ==> LongerMinutes(routes[i])
      modifies this
      ensures storage == map[]
      ensures e == if routes == [] then None else Some(OutOfRange)
    {
      Reset();
      e := AssignAll(bucketSize, routes);
      if routes != [] { assert !Present(routes[0], map[]); }
    }
  }

  // ---------------------------------------------------------------- capacity of longer timeframes

  /** Rows that init reserves for a timeframe above one minute. */
  function ReservedRows(bucketSize: nat, minutes: nat): nat
    requires minutes > 0
  {
    bucketSize / minutes + 1
  }

  /** Room for every whole candle of the bucket's minutes, and for the forming one. */
  lemma ReservedRowsExactly(bucketSize: nat, minutes: nat)
    requires minutes > 0
    ensures var n := ReservedRows(bucketSize, minutes);
      (n - 1) * minutes <= bucketSize < n * minutes
  {
  }

  /**
   * The store init means to make for a longer timeframe gets stuck on its second candle
   * exactly when one such candle outlasts the bucket.
   */
  lemma LongTimeframeStuckExactly(bucketSize: nat, minutes: nat, a: Candle)
    requires minutes > 0
    ensures var cfg := RowStore.Config(ReservedRows(bucketSize, minutes), COLUMNS, None);
      bucketSize < minutes <==> RowStore.Stuck(cfg, RowStore.Appended(cfg, RowStore.Fresh(cfg), a))
  {
    var cfg := RowStore.Config(ReservedRows(bucketSize, minutes), COLUMNS, None);
    RowStoreBounds.TwoAppendsGetStuckExactly(cfg, a);
    QuotientIsZeroExactly(bucketSize, minutes);
  }

  lemma QuotientIsZeroExactly(n: nat, d: nat)
    requires d > 0
    ensures n / d == 0 <==> n < d
  {
    if n < d {
      RemainderOf(n, d, 0, n);
    }
  }

  // ---------------------------------------------------------------- the stored series

  lemma FullRowsNeedNoPadding(c: Candle)
    ensures RowStore.Pad(c, COLUMNS) == c
  {
  }

  class CandlesState {
    const candles: DynamicArray   // the storage_ entry of the one-minute key

    ghost predicate Valid()
      reads this, candles, candles.data
    {
      candles.Valid() && candles.cfg.cols == COLUMNS && candles.cfg.dropAt == None && candles.cfg.bucket >= 2
    }

    ghost function Rows(): seq<Candle>
      reads this, candles, candles.data
      requires Valid()
    {
      candles.Live()
    }

    constructor (bucketSize: nat)
      requires bucketSize >= 2
      ensures Valid() && Rows() == [] && fresh(candles) && fresh(candles.data)
    {
      candles := new DynamicArray(bucketSize, COLUMNS, None);
    }

    method Append(c: Candle)
      requires Valid()
      modifies candles, candles.data
      ensures Valid() && Rows() == old(Rows()) + [c]
      ensures candles.data == old(candles.data) || fresh(candles.data)
    {
      ghost var s := candles.Store();
      RowStoreBounds.GrowthIsStrictExactly(s.Cap(), candles.cfg.bucket);
      var ok := candles.Append(c);
      ghost var op := RowStore.Op.Append(c);
      RowStoreContents.RefinesPlainStep(candles.cfg, s, op, candles.Store());
      FullRowsNeedNoPadding(c);
    }

    method AppendAll(batch: seq<Candle>)
      requires Valid()
      modifies candles, candles.data
      ensures Valid() && Rows() == old(Rows()) + batch
      ensures candles.data == old(candles.data) || fresh(candles.data)
    {
      ghost var s := candles.Store();
      candles.AppendMultiple(batch);
      ghost var op := RowStore.Op.AppendMultiple(batch);
      RowStoreContents.RefinesPlainStep(candles.cfg, s, op, candles.Store());
      forall i | 0 <= i < |batch| ensures RowStore.Pad(batch[i], COLUMNS) == batch[i] {
        FullRowsNeedNoPadding(batch[i]);
      }
    }

    /** addCandle, from the timestamp check to the storage. */
    method AddCandle(c: Candle, mode: Mode) returns (e: Option<Error>)
      requires Valid()
      modifies candles, candles.data
      ensures Valid() && Outcome(Rows(), e) == Added(old(Rows()), c, mode)
      ensures candles.data == old(candles.data) || fresh(candles.data)
    {
      if Timestamp(c) == 0.0 { return None; }
      if mode.Live? {
        if !mode.admitted { return None; }
        if Timestamp(c) > mode.now { return None; }
      }
      if candles.Size() == 0 {
        Append(c);
      }
      var last: Candle := candles.At(-1).value;
      if Timestamp(c) >= Timestamp(last) {
        if Timestamp(c) > Timestamp(last) {
          Append(c);
          e := None;
        } else {
          e := candles.SetRow(-1, c);
        }
      } else {
        e := OverwriteLate(c);
      }
    }

    /** The loop of the late branch. */
    method OverwriteLate(c: Candle) returns (e: Option<Error>)
      requires Valid() && Rows() != []
      modifies candles.data
      ensures Valid()
      ensures Outcome(Rows(), e) ==
        match LateScan(old(Rows()), Timestamp(c), 0)
        case Err(error) => Outcome(old(Rows()), Some(error))
        case Ok(None) => Outcome(old(Rows()), None)
        case Ok(Some(k)) => Outcome(old(Rows())[k := c], None)
    {
      var i := 0;
      while i < Max(candles.Size() - 1, 20)
        invariant Valid() && Rows() == old(Rows())
        invariant LateScan(Rows(), Timestamp(c), i) == LateScan(Rows(), Timestamp(c), 0)
        decreases Max(candles.Size() - 1, 20) - i
      {
        var row := candles.At(-i);
        if row.Err? { return Some(row.error); }
        var oldCandle: Candle := row.value;
        if Timestamp(c) == Timestamp(oldCandle) {
          e := candles.SetRow(-i, c);
          return;
        }
        i := i + 1;
      }
      e := None;
    }

    /** addCandleFromTrade for the one-minute timeframe. */
    method AddCandleFromTrade(t: Trade, mode: Mode) returns (e: Option<Error>)
      requires Valid()
      modifies candles, candles.data
      ensures Valid() && Outcome(Rows(), e) == TradeAdded(old(Rows()), t, mode)
      ensures candles.data == old(candles.data) || fresh(candles.data)
    {
      if !mode.Live? { return Some(WrongMode); }
      if !mode.admitted { return None; }
      var now := mode.now;
      if candles.Size() == 0 { return Some(InvalidArgument); }
      var current: Candle := candles.At(-1).value;
      if NextTimestamp(current, 1) < now {
        e := AddCandle(EmptyAfter(current, 1), Live(now, true));
        if e.Some? { return; }
      }
      current := candles.At(-1).value;
      e := AddCandle(Traded(current, t.price, t.volume), Live(now, true));
    }

    /** addMultiple1MinCandles. */
    method AddMultiple(batch: seq<Candle>, mode: Mode) returns (e: Option<Error>)
      requires Valid() && (Rows() == [] || batch != [])
      modifies candles, candles.data
      ensures Valid() && Outcome(Rows(), e) == BatchAdded(old(Rows()), batch, mode)
      ensures candles.data == old(candles.data) || fresh(candles.data)
    {
      if !mode.Backtest? { return Some(WrongMode); }
      e := None;
      if candles.Size() == 0 {
        AppendAll(batch);
        return;
      }
      var last: Candle := candles.At(-1).value;
      if Timestamp(batch[0]) > Timestamp(last) {
        AppendAll(batch);
        return;
      }
      e := ReplaceLast(batch);
    }

    /** The branch for a batch that is not newer than the stored rows. */
    method ReplaceLast(batch: seq<Candle>) returns (e: Option<Error>)
      requires Valid() && Rows() != [] && batch != [] && Timestamp(batch[0]) <= Timestamp(Last(Rows()))
      modifies candles.data
      ensures Valid() && Outcome(Rows(), e) == BatchStored(old(Rows()), batch)
    {
      var n := |batch|;
      var last: Candle := candles.At(-1).value;
      var first := candles.At(-n);
      if first.Err? { return Some(first.error); }
      var firstCandle: Candle := first.value;
      assert firstCandle == Rows()[|Rows()| - n];
      if Timestamp(batch[0]) >= Timestamp(firstCandle) && Timestamp(batch[n - 1]) >= Timestamp(last) {
        var override := Truncated(n as real - (Timestamp(batch[n - 1]) - Timestamp(last)) / MINUTE);
        e := candles.SetRows(-override, candles.Size(), batch);
      } else {
        e := Some(NotFound);
      }
    }
  }
}
