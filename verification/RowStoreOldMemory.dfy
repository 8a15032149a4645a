/**
 * How much old memory a shrink leaves behind the live rows, over every run: the number of
 * spare rows that may hold it decides whether the column sum can be trusted.
 */
module RowStoreOldMemory {
  import opened Common
  import opened RowStore
  import opened RowStoreBounds
  import opened RowStoreContents

  // ---------------------------------------------------------------- sizes and stale rows

  /** Live rows, buffer rows, and how many of the last spare rows the latest shrink left unwritten: the stale ones. */
  datatype Shape = Shape(size: nat, cap: nat, stale: nat) {
    predicate Valid() { size + stale <= cap }
  }

  function AfterAddition(cfg: Config, b: Shape, n: nat, cap: nat): (r: Shape)
    requires cfg.Valid() && b.Valid() && b.size + n <= cap && (cap == b.cap || b.cap < b.size + n)
    ensures r.Valid()
  {
    var stale := if cap == b.cap then Min(b.stale, cap - b.size - n) else 0;
    Shape(AfterDrop(cfg, b.size + n), cap, stale)
  }

  function AfterOp(cfg: Config, b: Shape, op: Op): (r: Shape)
    requires cfg.Valid() && b.Valid()
    ensures r.Valid()
  {
    match op
    case Append(_) =>
      if b.size < b.cap then AfterAddition(cfg, b, 1, b.cap)
      else if GrownCap(b.cap, cfg.bucket) == b.cap then b
      else AfterAddition(cfg, b, 1, GrownCap(b.cap, cfg.bucket))
    case AppendMultiple(items) =>
      if items == [] then b
      else AfterAddition(cfg, b, |items|,
                         if b.size + |items| > b.cap then Max(b.size + |items|, b.cap * 3 / 2) else b.cap)
    case Delete(idx) =>
      if Position(idx, b.size).None? then b
      else if ShrinkDue(cfg, b.cap, b.size - 1)
      then Shape(b.size - 1, ShrunkCap(cfg, b.cap), ShrunkCap(cfg, b.cap) - (b.size - 1))
      else Shape(b.size - 1, b.cap, b.stale)
    case Flush => Shape(0, if b.cap > 2 * cfg.bucket then cfg.bucket else b.cap, 0)
  }

  function ShapeAfter(cfg: Config, ops: seq<Op>): (r: Shape)
    requires cfg.Valid()
    ensures r.Valid()
  {
    if ops == [] then Shape(0, cfg.bucket, 0)
    else AfterOp(cfg, ShapeAfter(cfg, ops[..|ops| - 1]), ops[|ops| - 1])
  }

  // ---------------------------------------------------------------- one mutation

  predicate Shaped(s: State, b: Shape) { |s.live| == b.size && s.Cap() == b.cap && b.Valid() }

  /** All spare rows before the stale ones are zero. */
  ghost predicate ZeroBefore(cfg: Config, s: State, stale: nat) {
    forall i :: 0 <= i < |s.tail| - stale ==> s.tail[i] == ZeroRow(cfg.cols)
  }

  /** All stale rows hold `row`. */
  ghost predicate StaleHold(s: State, stale: nat, row: Row) {
    forall i :: 0 <= i < |s.tail| && |s.tail| - stale <= i ==> s.tail[i] == row
  }

  lemma {:induction false} DroppedKeeps(cfg: Config, s: State, stale: nat, row: Row)
    requires cfg.Valid() && s.live != [] && stale <= |s.tail|
    ensures var d := Dropped(cfg, s);
      && |d.live| == AfterDrop(cfg, |s.live|) && d.Cap() == s.Cap()
      && (ZeroBefore(cfg, s, stale) ==> ZeroBefore(cfg, d, stale))
      && (StaleHold(s, stale, row) ==> StaleHold(d, stale, row))
  {
    if cfg.dropAt.Some? && |s.live| % cfg.dropAt.value == 0 {
      HalfIsLess(|s.live|, cfg.dropAt.value);
    }
  }

  lemma HalfIsLess(n: nat, d: nat)
    requires 0 < n && 0 < d && n % d == 0
    ensures d / 2 < n
  {
    MultipleIsAtLeast(n, d);
  }

  /** Rows come in at the front of the tail of a buffer that has room for them. */
  lemma {:induction false} AdditionKeeps(cfg: Config, s: State, rows: seq<Row>, stale: nat, row: Row)
    requires cfg.Valid() && rows != [] && |rows| <= |s.tail| && stale <= |s.tail|
    ensures var d, left := Dropped(cfg, State(s.live + rows, s.tail[|rows|..])), Min(stale, |s.tail| - |rows|);
      && |d.live| == AfterDrop(cfg, |s.live| + |rows|) && d.Cap() == s.Cap()
      && (ZeroBefore(cfg, s, stale) ==> ZeroBefore(cfg, d, left))
      && (StaleHold(s, stale, row) ==> StaleHold(d, left, row))
  {
    DroppedKeeps(cfg, State(s.live + rows, s.tail[|rows|..]), Min(stale, |s.tail| - |rows|), row);
  }

  /** Shape, zeros and stale rows after any mutation but a shrinking deletion. */
  ghost predicate Kept(cfg: Config, s: State, b: Shape, s': State, b': Shape, row: Row) {
    && Shaped(s', b')
    && (ZeroBefore(cfg, s, b.stale) ==> ZeroBefore(cfg, s', b'.stale))
    && (StaleHold(s, b.stale, row) ==> StaleHold(s', b'.stale, row))
  }

  lemma {:induction false} AppendKeeps(cfg: Config, s: State, b: Shape, op: Op, s': State, row: Row)
    requires cfg.Valid() && Shaped(s, b) && op.Append? && Next(cfg, s, op, s')
    ensures Kept(cfg, s, b, s', AfterOp(cfg, b, op), row)
  {
    var r := RoomForOne(cfg, s);
    AdditionKeeps(cfg, r, [Pad(op.item, cfg.cols)], if s.tail == [] then 0 else b.stale, row);
  }

  lemma {:induction false} AppendMultipleKeeps(cfg: Config, s: State, b: Shape, op: Op, s': State, row: Row)
    requires cfg.Valid() && Shaped(s, b) && op.AppendMultiple? && Next(cfg, s, op, s')
    ensures Kept(cfg, s, b, s', AfterOp(cfg, b, op), row)
  {
    if op.items != [] {
      var n := |op.items|;
      var r := RoomForMany(cfg, s, n);
      AdditionKeeps(cfg, r, Overlaid(op.items, r.tail), if |s.live| + n > s.Cap() then 0 else b.stale, row);
    }
  }

  lemma {:induction false} RemovalKeeps(cfg: Config, s: State, b: Shape, op: Op, s': State, row: Row)
    requires cfg.Valid() && Shaped(s, b) && (op.Delete? || op.Flush?) && Next(cfg, s, op, s')
    requires !Shrinks(cfg, s, op)
    ensures Kept(cfg, s, b, s', AfterOp(cfg, b, op), row)
  {
  }

  lemma {:induction false} StepKeeps(cfg: Config, s: State, b: Shape, op: Op, s': State, row: Row)
    requires cfg.Valid() && Shaped(s, b) && Next(cfg, s, op, s') && !Shrinks(cfg, s, op)
    ensures Kept(cfg, s, b, s', AfterOp(cfg, b, op), row)
  {
    if op.Append? {
      AppendKeeps(cfg, s, b, op, s', row);
    } else if op.AppendMultiple? {
      AppendMultipleKeeps(cfg, s, b, op, s', row);
    } else {
      RemovalKeeps(cfg, s, b, op, s', row);
    }
  }

  lemma {:induction false} ShrinkShapes(cfg: Config, s: State, b: Shape, op: Op, s': State)
    requires cfg.Valid() && Shaped(s, b) && Next(cfg, s, op, s') && Shrinks(cfg, s, op)
    ensures Shaped(s', AfterOp(cfg, b, op)) && AfterOp(cfg, b, op).stale == |s'.tail|
  {
  }

  // ---------------------------------------------------------------- runs

  lemma {:induction false} RunPrefix(cfg: Config, ops: seq<Op>, states: seq<State>)
    requires cfg.Valid() && IsRun(cfg, ops, states) && ops != []
    ensures IsRun(cfg, ops[..|ops| - 1], states[..|ops|])
    ensures Next(cfg, states[|ops| - 1], ops[|ops| - 1], states[|ops|])
  {
    var m := |ops| - 1;
    RunStep(cfg, ops, states, m);
    var shorter, run := ops[..m], states[..m + 1];
    forall i | 0 <= i < m ensures StepAt(cfg, shorter, run, i) { RunStep(cfg, ops, states, i); }
  }

  lemma {:induction false} RunExtends(cfg: Config, ops: seq<Op>, states: seq<State>, op: Op, s': State)
    requires cfg.Valid() && IsRun(cfg, ops, states) && Next(cfg, states[|ops|], op, s')
    ensures IsRun(cfg, ops + [op], states + [s'])
  {
    var longer, run := ops + [op], states + [s'];
    forall i | 0 <= i < |longer| ensures StepAt(cfg, longer, run, i) {
      if i < |ops| { RunStep(cfg, ops, states, i); }
    }
  }

  /** In every run the spare rows before the stale ones are zero. */
  lemma {:induction false} StaleRowsLast(cfg: Config, ops: seq<Op>, states: seq<State>)
    requires cfg.Valid() && IsRun(cfg, ops, states)
    ensures Shaped(states[|ops|], ShapeAfter(cfg, ops))
    ensures ZeroBefore(cfg, states[|ops|], ShapeAfter(cfg, ops).stale)
    decreases |ops|
  {
    if ops != [] {
      var m := |ops| - 1;
      RunPrefix(cfg, ops, states);
      StaleRowsLast(cfg, ops[..m], states[..m + 1]);
      var s, s', b := states[m], states[m + 1], ShapeAfter(cfg, ops[..m]);
      if Shrinks(cfg, s, ops[m]) {
        ShrinkShapes(cfg, s, b, ops[m], s');
      } else {
        StepKeeps(cfg, s, b, ops[m], s', []);
      }
    }
  }

  function Ones(cols: nat): Row { seq(cols, _ => 1.0) }

  /** An outcome of a mutation in which a shrink hands back rows of ones. */
  lemma {:induction false} OnesStep(cfg: Config, s: State, t: State, t': State, b: Shape, op: Op) returns (s': State)
    requires cfg.Valid() && Shaped(s, b) && StaleHold(s, b.stale, Ones(cfg.cols))
    requires Shaped(t, b) && Next(cfg, t, op, t')
    ensures Next(cfg, s, op, s') && Shaped(s', AfterOp(cfg, b, op))
    ensures StaleHold(s', AfterOp(cfg, b, op).stale, Ones(cfg.cols))
  {
    if Shrinks(cfg, s, op) {
      var live := Without(s.live, Position(op.idx, |s.live|).value);
      s' := State(live, seq(ShrunkCap(cfg, s.Cap()) - |live|, _ => Ones(cfg.cols)));
      ShrinkShapes(cfg, s, b, op, s');
    } else {
      s' := SomeNext(cfg, s, op);
      StepKeeps(cfg, s, b, op, s', Ones(cfg.cols));
    }
  }

  lemma {:induction false} SomeNext(cfg: Config, s: State, op: Op) returns (s': State)
    requires cfg.Valid() && (op.Append? ==> !Stuck(cfg, s)) && !Shrinks(cfg, s, op)
    ensures Next(cfg, s, op, s')
  {
    match op
    case Append(item) => s' := Appended(cfg, s, item);
    case AppendMultiple(items) => s' := AppendedMany(cfg, s, items);
    case Delete(idx) =>
      var k := Position(idx, |s.live|);
      s' := if k.Some? then State(Without(s.live, k.value), [ZeroRow(cfg.cols)] + s.tail) else s;
    case Flush => s' := Flushed(cfg, s);
  }

  /** Operations that can be run at all can be run so that every stale row holds ones. */
  lemma {:induction false} OnesRun(cfg: Config, ops: seq<Op>, states: seq<State>) returns (r: seq<State>)
    requires cfg.Valid() && IsRun(cfg, ops, states)
    ensures IsRun(cfg, ops, r) && Shaped(r[|ops|], ShapeAfter(cfg, ops))
    ensures StaleHold(r[|ops|], ShapeAfter(cfg, ops).stale, Ones(cfg.cols))
    decreases |ops|
  {
    if ops == [] {
      r := states;
    } else {
      var m := |ops| - 1;
      RunPrefix(cfg, ops, states);
      var before := OnesRun(cfg, ops[..m], states[..m + 1]);
      StaleRowsLast(cfg, ops[..m], states[..m + 1]);
      var s' := OnesStep(cfg, before[m], states[m], states[m + 1], ShapeAfter(cfg, ops[..m]), ops[m]);
      RunExtends(cfg, ops[..m], before, ops[m], s');
      assert ops[..m] + [ops[m]] == ops;
      r := before + [s'];
    }
  }

  // ---------------------------------------------------------------- the column sum

  lemma {:induction false} SumNonneg(rows: seq<Row>, c: nat)
    requires forall i :: 0 <= i < |rows| ==> c < |rows[i]| && 0.0 <= rows[i][c]
    ensures 0.0 <= ColumnSum(rows, c)
  {
    if rows != [] { SumNonneg(rows[..|rows| - 1], c); }
  }

  lemma {:induction false} OnesSpoilSum(cfg: Config, s: State, stale: nat, c: nat)
    requires WellShaped(cfg, s) && c < cfg.cols && 0 < stale <= |s.tail|
    requires ZeroBefore(cfg, s, stale) && StaleHold(s, stale, Ones(cfg.cols))
    ensures !SumIsLive(s, c)
  {
    var n := |s.tail|;
    SumNonneg(s.tail[..n - 1], c);
    assert s.tail[n - 1] == Ones(cfg.cols);
    SumSplits(s.live, s.tail, c);
  }

  /** The buffer column has the sum of the live rows in every run of these operations. */
  ghost predicate SumTrusted(cfg: Config, ops: seq<Op>, c: nat)
    requires cfg.Valid() && c < cfg.cols
  {
    forall r :: IsRun(cfg, ops, r) ==> WellShaped(cfg, r[|ops|]) && SumIsLive(r[|ops|], c)
  }

  /**
   * After any operations that can be run, the column sum is right under every allocation
   * exactly when no spare row is left from a shrink.
   */
  lemma {:induction false} SumTrustedExactly(cfg: Config, ops: seq<Op>, states: seq<State>, c: nat)
    requires cfg.Valid() && IsRun(cfg, ops, states) && c < cfg.cols
    ensures SumTrusted(cfg, ops, c) <==> ShapeAfter(cfg, ops).stale == 0
  {
    var stale := ShapeAfter(cfg, ops).stale;
    if stale == 0 {
      forall r | IsRun(cfg, ops, r) ensures WellShaped(cfg, r[|ops|]) && SumIsLive(r[|ops|], c) {
        StaleRowsLast(cfg, ops, r);
        ShapedRun(cfg, ops, r, |ops|);
        CleanSum(cfg, r[|ops|], c);
      }
    } else {
      var r := OnesRun(cfg, ops, states);
      StaleRowsLast(cfg, ops, r);
      ShapedRun(cfg, ops, r, |ops|);
      OnesSpoilSum(cfg, r[|ops|], stale, c);
    }
  }

  /** Growth and a flush leave no stale rows, and every row that comes in takes one away once the zeros are used up. */
  lemma {:induction false} StaleRowsWearOff(cfg: Config, b: Shape, op: Op)
    requires cfg.Valid() && b.Valid()
    ensures op.Flush? ==> AfterOp(cfg, b, op).stale == 0
    ensures AfterOp(cfg, b, op).cap > b.cap ==> AfterOp(cfg, b, op).stale == 0
    ensures AfterOp(cfg, b, op).stale > b.stale ==> op.Delete? && ShrinkDue(cfg, b.cap, b.size - 1)
    ensures (op.Append? || op.AppendMultiple?) && AfterOp(cfg, b, op).cap == b.cap && b.size + RowsIn(op) <= b.cap
      ==> AfterOp(cfg, b, op).stale == Min(b.stale, b.cap - b.size - RowsIn(op))
  {
  }
}
