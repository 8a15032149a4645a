/** What the rows of the store are, over every run: a plain sequence, a clean tail, the most recent history. */
module RowStoreContents {
  import opened Common
  import opened RowStore
  import opened RowStoreBounds

  // ---------------------------------------------------------------- clean tail

  ghost predicate Clean(cfg: Config, s: State) {
    s.tail == ZeroRows(|s.tail|, cfg.cols)
  }

  /** The one mutation that may leave old memory behind the live rows. */
  predicate Shrinks(cfg: Config, s: State, op: Op) {
    op.Delete? && Position(op.idx, |s.live|).Some? && ShrinkDue(cfg, s.Cap(), |s.live| - 1)
  }

  lemma CleanDropped(cfg: Config, s: State)
    requires cfg.Valid() && Clean(cfg, s)
    ensures Clean(cfg, Dropped(cfg, s))
  {
  }

  lemma CleanStep(cfg: Config, s: State, op: Op, s': State)
    requires cfg.Valid() && Clean(cfg, s) && Next(cfg, s, op, s') && !Shrinks(cfg, s, op)
    ensures Clean(cfg, s')
  {
    match op
    case Append(item) =>
      var r := RoomForOne(cfg, s);
      CleanDropped(cfg, State(r.live + [Pad(item, cfg.cols)], r.tail[1..]));
    case AppendMultiple(items) =>
      var r := RoomForMany(cfg, s, |items|);
      CleanDropped(cfg, State(r.live + Overlaid(items, r.tail), r.tail[|items|..]));
    case Delete(idx) =>
    case Flush =>
  }

  /** In every run whose deletions never shrink the buffer, all rows behind the live ones are zero. */
  lemma {:induction false} CleanRun(cfg: Config, ops: seq<Op>, states: seq<State>, n: nat)
    requires cfg.Valid() && IsRun(cfg, ops, states) && n <= |ops|
    requires forall i :: 0 <= i < n ==> !Shrinks(cfg, states[i], ops[i])
    ensures Clean(cfg, states[n])
  {
    if n > 0 {
      CleanRun(cfg, ops, states, n - 1);
      RunStep(cfg, ops, states, n - 1);
      CleanStep(cfg, states[n - 1], ops[n - 1], states[n]);
    }
  }

  // ---------------------------------------------------------------- column sum

  ghost predicate WellShaped(cfg: Config, s: State) {
    AllWidth(s.live, cfg.cols) && AllWidth(s.tail, cfg.cols)
  }

  lemma ShapeStep(cfg: Config, s: State, op: Op, s': State)
    requires cfg.Valid() && WellShaped(cfg, s) && Next(cfg, s, op, s')
    ensures WellShaped(cfg, s')
  {
    match op
    case Append(item) =>
      var r := RoomForOne(cfg, s);
      ShapeDropped(cfg, State(r.live + [Pad(item, cfg.cols)], r.tail[1..]));
    case AppendMultiple(items) =>
      var r := RoomForMany(cfg, s, |items|);
      ShapeDropped(cfg, State(r.live + Overlaid(items, r.tail), r.tail[|items|..]));
    case Delete(idx) =>
    case Flush =>
  }

  lemma ShapeDropped(cfg: Config, s: State)
    requires cfg.Valid() && WellShaped(cfg, s)
    ensures WellShaped(cfg, Dropped(cfg, s))
  {
  }

  function ColumnSum(rows: seq<Row>, c: nat): real
    requires forall i :: 0 <= i < |rows| ==> c < |rows[i]|
  {
    if rows == [] then 0.0 else ColumnSum(rows[..|rows| - 1], c) + rows[|rows| - 1][c]
  }

  lemma {:induction false} SumSplits(a: seq<Row>, b: seq<Row>, c: nat)
    requires forall i :: 0 <= i < |a| ==> c < |a[i]|
    requires forall i :: 0 <= i < |b| ==> c < |b[i]|
    ensures ColumnSum(a + b, c) == ColumnSum(a, c) + ColumnSum(b, c)
  {
    if b == [] {
      assert a + b == a;
    } else {
      assert (a + b)[..|a + b| - 1] == a + b[..|b| - 1];
      SumSplits(a, b[..|b| - 1], c);
    }
  }

  lemma SumOfOneRow(row: Row, c: nat)
    requires c < |row|
    ensures ColumnSum([row], c) == row[c]
  {
    assert [row][..0] == [];
  }

  lemma {:induction false} ZeroRowsSum(n: nat, cols: nat, c: nat)
    requires c < cols
    ensures ColumnSum(ZeroRows(n, cols), c) == 0.0
  {
    if n > 0 {
      assert ZeroRows(n, cols)[..n - 1] == ZeroRows(n - 1, cols);
      ZeroRowsSum(n - 1, cols, c);
    }
  }

  /** Summing the whole buffer column gives the sum over the live rows. */
  ghost predicate SumIsLive(s: State, c: nat)
    requires forall i :: 0 <= i < |s.live| ==> c < |s.live[i]|
    requires forall i :: 0 <= i < |s.tail| ==> c < |s.tail[i]|
  {
    ColumnSum(s.live + s.tail, c) == ColumnSum(s.live, c)
  }

  lemma CleanSum(cfg: Config, s: State, c: nat)
    requires WellShaped(cfg, s) && c < cfg.cols && Clean(cfg, s)
    ensures SumIsLive(s, c)
  {
    SumSplits(s.live, s.tail, c);
    ZeroRowsSum(|s.tail|, cfg.cols, c);
  }

  lemma {:induction false} ShapedRun(cfg: Config, ops: seq<Op>, states: seq<State>, n: nat)
    requires cfg.Valid() && IsRun(cfg, ops, states) && n <= |ops|
    ensures WellShaped(cfg, states[n])
  {
    if n > 0 {
      ShapedRun(cfg, ops, states, n - 1);
      RunStep(cfg, ops, states, n - 1);
      ShapeStep(cfg, states[n - 1], ops[n - 1], states[n]);
    }
  }

  /** In every run without a shrinking deletion, the buffer column sum is the sum over the live rows. */
  lemma SumRun(cfg: Config, ops: seq<Op>, states: seq<State>, n: nat, c: nat)
    requires cfg.Valid() && IsRun(cfg, ops, states) && n <= |ops| && c < cfg.cols
    requires forall i :: 0 <= i < n ==> !Shrinks(cfg, states[i], ops[i])
    ensures WellShaped(cfg, states[n])
    ensures ColumnSum(states[n].live + states[n].tail, c) == ColumnSum(states[n].live, c)
  {
    CleanRun(cfg, ops, states, n);
    ShapedRun(cfg, ops, states, n);
    CleanSum(cfg, states[n], c);
  }

  /**
   * From a clean buffer, the sum is right after every outcome of a mutation exactly when that
   * mutation is not a shrinking deletion.
   */
  lemma SumSurvivesExactly(cfg: Config, s: State, op: Op, c: nat)
    requires cfg.Valid() && WellShaped(cfg, s) && Clean(cfg, s) && c < cfg.cols
    requires op.Append? ==> !Stuck(cfg, s)
    ensures (forall s' :: Next(cfg, s, op, s') && WellShaped(cfg, s') ==> SumIsLive(s', c))
            <==> !Shrinks(cfg, s, op)
  {
    if Shrinks(cfg, s, op) {
      var s' := SpoiledByShrink(cfg, s, op, c);
    } else {
      forall s' | Next(cfg, s, op, s') && WellShaped(cfg, s') ensures SumIsLive(s', c) {
        CleanStep(cfg, s, op, s');
        CleanSum(cfg, s', c);
      }
    }
  }

  /** The outcome in which the allocator hands back a row of ones behind the live rows. */
  lemma SpoiledByShrink(cfg: Config, s: State, op: Op, c: nat) returns (s': State)
    requires cfg.Valid() && WellShaped(cfg, s) && c < cfg.cols && Shrinks(cfg, s, op)
    ensures Next(cfg, s, op, s') && WellShaped(cfg, s') && !SumIsLive(s', c)
  {
    var k := Position(op.idx, |s.live|).value;
    var live := Without(s.live, k);
    var ones := seq(cfg.cols, _ => 1.0);
    var spare := ShrunkCap(cfg, s.Cap()) - |live|;
    s' := State(live, ZeroRows(spare - 1, cfg.cols) + [ones]);
    OneRowOfOnes(spare - 1, cfg.cols, c);
    SumSplits(s'.live, s'.tail, c);
  }

  lemma OneRowOfOnes(n: nat, cols: nat, c: nat)
    requires c < cols
    ensures ColumnSum(ZeroRows(n, cols) + [seq(cols, _ => 1.0)], c) == 1.0
  {
    ZeroRowsSum(n, cols, c);
    SumOfOneRow(seq(cols, _ => 1.0), c);
    SumSplits(ZeroRows(n, cols), [seq(cols, _ => 1.0)], c);
  }

  // ---------------------------------------------------------------- plain sequence

  function PadAll(items: seq<Row>, cols: nat): (r: seq<Row>)
    ensures |r| == |items|
  {
    seq(|items|, i requires 0 <= i < |items| => Pad(items[i], cols))
  }

  function PlainDrop(cfg: Config, rows: seq<Row>): seq<Row>
    requires cfg.Valid()
  {
    if cfg.dropAt.Some? && |rows| % cfg.dropAt.value == 0
    then rows[Min(cfg.dropAt.value / 2, |rows|)..] else rows
  }

  /** The same mutation on a list that knows nothing of capacity. */
  function PlainStep(cfg: Config, rows: seq<Row>, op: Op): seq<Row>
    requires cfg.Valid()
  {
    match op
    case Append(item) => PlainDrop(cfg, rows + [Pad(item, cfg.cols)])
    case AppendMultiple(items) => if items == [] then rows else PlainDrop(cfg, rows + PadAll(items, cfg.cols))
    case Delete(idx) =>
      var k := Position(idx, |rows|);
      if k.Some? then Without(rows, k.value) else rows
    case Flush => []
  }

  function PlainRun(cfg: Config, ops: seq<Op>, n: nat): seq<Row>
    requires cfg.Valid() && n <= |ops|
  {
    if n == 0 then [] else PlainStep(cfg, PlainRun(cfg, ops, n - 1), ops[n - 1])
  }

  predicate FullWidth(cfg: Config, op: Op) {
    op.AppendMultiple? ==> forall i :: 0 <= i < |op.items| ==> |op.items[i]| >= cfg.cols
  }

  lemma PlainDropped(cfg: Config, s: State)
    requires cfg.Valid()
    ensures Dropped(cfg, s).live == PlainDrop(cfg, s.live)
  {
  }

  lemma OverlaidIsPadded(cfg: Config, items: seq<Row>, under: seq<Row>)
    requires |items| <= |under| && AllWidth(under, cfg.cols)
    requires under == ZeroRows(|under|, cfg.cols) || forall i :: 0 <= i < |items| ==> |items[i]| >= cfg.cols
    ensures Overlaid(items, under) == PadAll(items, cfg.cols)
  {
    forall i | 0 <= i < |items| ensures Overlay(items[i], under[i]) == Pad(items[i], cfg.cols) {
    }
  }

  /** Cell (i, j) of a batch row that is too narrow to cover old memory in the spare row under it. */
  predicate OldCell(cfg: Config, s: State, items: seq<Row>, i: nat, j: nat)
    requires AllWidth(s.tail, cfg.cols)
  {
    i < |items| <= |s.tail| && |items[i]| <= j < cfg.cols && s.tail[i][j] != 0.0
  }

  /** A batch that fits the buffer leaves old memory in a row that the drop test does not remove again. */
  ghost predicate TakesOverOld(cfg: Config, s: State, op: Op)
    requires cfg.Valid() && AllWidth(s.tail, cfg.cols)
  {
    op.AppendMultiple? && OldFrom(cfg, s, op.items, Cut(cfg, |s.live| + |op.items|))
  }

  /** Some old cell lies in a row behind the first `cut` ones. */
  ghost predicate OldFrom(cfg: Config, s: State, items: seq<Row>, cut: nat)
    requires AllWidth(s.tail, cfg.cols)
  {
    exists i: nat, j: nat :: OldCell(cfg, s, items, i, j) && cut <= |s.live| + i
  }

  /** How many of `size` rows the drop test removes. */
  function Cut(cfg: Config, size: nat): (d: nat)
    requires cfg.Valid()
    ensures d <= size
  {
    size - AfterDrop(cfg, size)
  }

  lemma DropsAgreeExactly(cfg: Config, a: seq<Row>, b: seq<Row>, cut: nat)
    requires cfg.Valid() && |a| == |b| && cut == Cut(cfg, |a|)
    ensures PlainDrop(cfg, a) == PlainDrop(cfg, b) <==> a[cut..] == b[cut..]
  {
    assert a[0..] == a && b[0..] == b;
  }

  /** A batch row over a spare row is the padded batch row exactly when nothing old shows through. */
  lemma {:induction false} OverlayIsPadExactly(item: Row, under: Row)
    ensures Overlay(item, under) == Pad(item, |under|)
            <==> forall j :: |item| <= j < |under| ==> under[j] == 0.0
  {
    var a, b := Overlay(item, under), Pad(item, |under|);
    if a == b {
      forall j | |item| <= j < |under| ensures under[j] == 0.0 { assert a[j] == b[j]; }
    }
  }

  /** Rows of a batch laid over the spare rows are the padded ones, but for those with old cells. */
  lemma {:induction false} OverlaidRowExactly(cfg: Config, s: State, items: seq<Row>, i: nat)
    requires AllWidth(s.tail, cfg.cols) && i < |items| <= |s.tail|
    ensures Overlaid(items, s.tail)[i] == PadAll(items, cfg.cols)[i] <==> forall j: nat :: !OldCell(cfg, s, items, i, j)
  {
    OverlayIsPadExactly(items[i], s.tail[i]);
    if forall j: nat :: !OldCell(cfg, s, items, i, j) {
      forall j | |items[i]| <= j < cfg.cols ensures s.tail[i][j] == 0.0 { assert !OldCell(cfg, s, items, i, j); }
    }
  }

  lemma {:induction false} BatchOutcome(cfg: Config, s: State, items: seq<Row>)
    requires cfg.Valid() && items != []
    ensures var under := RoomForMany(cfg, s, |items|).tail;
      AppendedMany(cfg, s, items).live == PlainDrop(cfg, s.live + Overlaid(items, under))
  {
    var r := RoomForMany(cfg, s, |items|);
    PlainDropped(cfg, State(r.live + Overlaid(items, r.tail), r.tail[|items|..]));
  }

  lemma {:induction false} BatchRefinesExactly(cfg: Config, s: State, op: Op)
    requires cfg.Valid() && AllWidth(s.tail, cfg.cols) && op.AppendMultiple? && op.items != []
    ensures AppendedMany(cfg, s, op.items).live == PlainStep(cfg, s.live, op) <==> !TakesOverOld(cfg, s, op)
  {
    BatchOutcome(cfg, s, op.items);
    if |op.items| > |s.tail| {
      OverlaidIsPadded(cfg, op.items, RoomForMany(cfg, s, |op.items|).tail);
    } else {
      FittingBatchExactly(cfg, s, op);
    }
  }

  lemma {:induction false} FittingBatchExactly(cfg: Config, s: State, op: Op)
    requires cfg.Valid() && AllWidth(s.tail, cfg.cols) && op.AppendMultiple? && |op.items| <= |s.tail|
    ensures PlainDrop(cfg, s.live + Overlaid(op.items, s.tail)) == PlainDrop(cfg, s.live + PadAll(op.items, cfg.cols))
      <==> !TakesOverOld(cfg, s, op)
  {
    var a, b := s.live + Overlaid(op.items, s.tail), s.live + PadAll(op.items, cfg.cols);
    var cut := Cut(cfg, |s.live| + |op.items|);
    DropsAgreeExactly(cfg, a, b, cut);
    SuffixesAgreeExactly(cfg, s, op.items, cut);
  }

  lemma {:induction false} SuffixesAgreeExactly(cfg: Config, s: State, items: seq<Row>, cut: nat)
    requires AllWidth(s.tail, cfg.cols) && |items| <= |s.tail| && cut <= |s.live| + |items|
    ensures (s.live + Overlaid(items, s.tail))[cut..] == (s.live + PadAll(items, cfg.cols))[cut..]
      <==> !OldFrom(cfg, s, items, cut)
  {
    var a, b := s.live + Overlaid(items, s.tail), s.live + PadAll(items, cfg.cols);
    if i: nat, j: nat :| OldCell(cfg, s, items, i, j) && cut <= |s.live| + i {
      OverlaidRowExactly(cfg, s, items, i);
      assert a[cut..][|s.live| + i - cut] != b[cut..][|s.live| + i - cut];
    } else {
      forall k | cut <= k < |a| ensures a[k] == b[k] {
        if k >= |s.live| { OverlaidRowExactly(cfg, s, items, k - |s.live|); }
      }
      assert a[cut..] == b[cut..];
    }
  }

  /** One mutation does to the live rows what it does to a plain list, unless a batch takes over old memory. */
  lemma {:induction false} RefinesPlainStep(cfg: Config, s: State, op: Op, s': State)
    requires cfg.Valid() && WellShaped(cfg, s) && Next(cfg, s, op, s')
    ensures s'.live == PlainStep(cfg, s.live, op) <==> !TakesOverOld(cfg, s, op)
  {
    if op.AppendMultiple? {
      if op.items != [] { BatchRefinesExactly(cfg, s, op); }
    } else if op.Append? {
      var r := RoomForOne(cfg, s);
      PlainDropped(cfg, State(r.live + [Pad(op.item, cfg.cols)], r.tail[1..]));
    }
  }

  /** Neither a clean buffer nor a batch of full width has old cells. */
  lemma {:induction false} NothingOld(cfg: Config, s: State, op: Op)
    requires cfg.Valid() && AllWidth(s.tail, cfg.cols) && (Clean(cfg, s) || FullWidth(cfg, op))
    ensures !TakesOverOld(cfg, s, op)
  {
    if Clean(cfg, s) {
      assert forall i :: 0 <= i < |s.tail| ==> s.tail[i] == ZeroRow(cfg.cols);
    }
  }

  /** No step up to the n-th takes over old memory. */
  ghost predicate NeverTakesOver(cfg: Config, ops: seq<Op>, states: seq<State>, n: nat)
    requires cfg.Valid() && IsRun(cfg, ops, states) && n <= |ops|
  {
    forall i :: 0 <= i < n ==> AllWidth(states[i].tail, cfg.cols) && !TakesOverOld(cfg, states[i], ops[i])
  }

  /**
   * Growth, shrinking and shifting are invisible through the whole of a run exactly if no
   * batch takes over old memory.
   */
  lemma {:induction false} RefinesPlain(cfg: Config, ops: seq<Op>, states: seq<State>, n: nat)
    requires cfg.Valid() && IsRun(cfg, ops, states) && n <= |ops|
    ensures (forall i :: 0 <= i <= n ==> LiveIsPlain(cfg, ops, states, i)) <==> NeverTakesOver(cfg, ops, states, n)
  {
    if n > 0 {
      RefinesPlain(cfg, ops, states, n - 1);
      assert NeverTakesOver(cfg, ops, states, n) ==> NeverTakesOver(cfg, ops, states, n - 1);
      if LiveIsPlain(cfg, ops, states, n - 1) { PlainAfterStep(cfg, ops, states, n - 1); }
    }
  }

  ghost predicate LiveIsPlain(cfg: Config, ops: seq<Op>, states: seq<State>, n: nat)
    requires cfg.Valid() && IsRun(cfg, ops, states) && n <= |ops|
  {
    states[n].live == PlainRun(cfg, ops, n)
  }

  lemma {:induction false} PlainAfterStep(cfg: Config, ops: seq<Op>, states: seq<State>, i: nat)
    requires cfg.Valid() && IsRun(cfg, ops, states) && i < |ops| && LiveIsPlain(cfg, ops, states, i)
    ensures AllWidth(states[i].tail, cfg.cols)
    ensures LiveIsPlain(cfg, ops, states, i + 1) <==> !TakesOverOld(cfg, states[i], ops[i])
  {
    ShapedRun(cfg, ops, states, i);
    RunStep(cfg, ops, states, i);
    RefinesPlainStep(cfg, states[i], ops[i], states[i + 1]);
  }

  /** So they are in every run whose batches after the first shrinking deletion have full width. */
  lemma {:induction false} RefinesPlainUnlessNarrow(cfg: Config, ops: seq<Op>, states: seq<State>, n: nat)
    requires cfg.Valid() && IsRun(cfg, ops, states) && n <= |ops|
    requires forall i, j :: 0 <= i < j < n && Shrinks(cfg, states[i], ops[i]) ==> FullWidth(cfg, ops[j])
    ensures states[n].live == PlainRun(cfg, ops, n)
  {
    forall j | 0 <= j < n
      ensures AllWidth(states[j].tail, cfg.cols) && !TakesOverOld(cfg, states[j], ops[j])
    {
      ShapedRun(cfg, ops, states, j);
      if !FullWidth(cfg, ops[j]) { CleanRun(cfg, ops, states, j); }
      NothingOld(cfg, states[j], ops[j]);
    }
    RefinesPlain(cfg, ops, states, n);
    assert LiveIsPlain(cfg, ops, states, n);
  }

  // ---------------------------------------------------------------- a run that differs

  const NARROW_CFG: Config := Config(2, 2, None)

  /** Four rows in, all four out again, and then a batch of one narrow row. */
  const NARROW_OPS: seq<Op> :=
    [AppendMultiple([[1.0, 1.0], [1.0, 1.0], [1.0, 1.0], [1.0, 1.0]]),
     Delete(0), Delete(0), Delete(0), Delete(0), AppendMultiple([[7.0]])]

  /** In an outcome of that run the narrow row ends in old memory, which the plain list does not have. */
  lemma {:induction false} NarrowBatchDiffers() returns (states: seq<State>)
    ensures IsRun(NARROW_CFG, NARROW_OPS, states)
    ensures states[6].live == [[7.0, 1.0]] && PlainRun(NARROW_CFG, NARROW_OPS, 6) == [[7.0, 0.0]]
  {
    var cfg, row, zero := NARROW_CFG, [1.0, 1.0], ZeroRow(2);
    var s0, s1, s2 := Fresh(cfg), State([row, row, row, row], []), State([row, row, row], [zero]);
    var s3, s4 := State([row, row], [zero, zero]), State([row], [zero, zero, zero]);
    var s5, s6 := State([], [row, row]), State([[7.0, 1.0]], [row]);
    states := [s0, s1, s2, s3, s4, s5, s6];
    NarrowFill(s1);
    assert Next(cfg, s1, Delete(0), s2) && Next(cfg, s2, Delete(0), s3) && Next(cfg, s3, Delete(0), s4);
    assert Next(cfg, s4, Delete(0), s5);
    NarrowLast(s5, s6);
    forall i | 0 <= i < 6 ensures StepAt(cfg, NARROW_OPS, states, i) { }
    NarrowPlain(5);
    NarrowPadded();
  }

  lemma FullRowCovers(item: Row, under: Row)
    requires |item| == |under|
    ensures Overlay(item, under) == item
  {
  }

  lemma NarrowFill(s: State)
    requires s == State(NARROW_OPS[0].items, [])
    ensures Next(NARROW_CFG, Fresh(NARROW_CFG), NARROW_OPS[0], s)
  {
    var four, r := NARROW_OPS[0].items, RoomForMany(NARROW_CFG, Fresh(NARROW_CFG), 4);
    forall i | 0 <= i < 4 ensures Overlaid(four, r.tail)[i] == four[i] { FullRowCovers(four[i], r.tail[i]); }
    assert Overlaid(four, r.tail) == four;
    assert s.live == r.live + four && s.tail == r.tail[4..];
  }

  lemma NarrowLast(s: State, s': State)
    requires s == State([], [[1.0, 1.0], [1.0, 1.0]]) && s' == State([[7.0, 1.0]], [[1.0, 1.0]])
    ensures Next(NARROW_CFG, s, NARROW_OPS[5], s')
  {
    assert Overlay([7.0], [1.0, 1.0]) == [7.0, 1.0];
    assert Overlaid([[7.0]], s.tail) == [[7.0, 1.0]];
  }

  lemma NarrowPadded()
    ensures PlainStep(NARROW_CFG, [], NARROW_OPS[5]) == [[7.0, 0.0]]
  {
    assert Pad([7.0], 2) == [7.0, 0.0];
    assert PadAll([[7.0]], 2) == [[7.0, 0.0]];
  }

  lemma {:induction false} NarrowPlain(n: nat)
    requires 1 <= n <= 5
    ensures PlainRun(NARROW_CFG, NARROW_OPS, n) == seq(5 - n, _ => [1.0, 1.0])
  {
    if n == 1 {
      var four := NARROW_OPS[0].items;
      assert PlainRun(NARROW_CFG, NARROW_OPS, 0) == [];
      forall i | 0 <= i < 4 ensures PadAll(four, 2)[i] == four[i] { FullRowCovers(four[i], ZeroRow(2)); }
      assert PadAll(four, 2) == four == seq(4, _ => [1.0, 1.0]);
    } else {
      NarrowPlain(n - 1);
      var rows := seq(6 - n, _ => [1.0, 1.0]);
      assert Without(rows, 0) == seq(5 - n, _ => [1.0, 1.0]);
    }
  }

  // ---------------------------------------------------------------- retention

  /** How many of n appended rows are held with drop threshold d. */
  function Retained(n: nat, d: nat): (r: nat)
    requires d >= 2
  {
    if n < d then n else (d - d / 2) + (n - d) % (d / 2)
  }

  function History(cfg: Config, ops: seq<Op>, n: nat): (h: seq<Row>)
    requires n <= |ops| && forall i :: 0 <= i < n ==> ops[i].Append?
    ensures |h| == n
  {
    seq(n, i requires 0 <= i < n => Pad(ops[i].item, cfg.cols))
  }

  lemma RetainedStep(n: nat, d: nat)
    requires d >= 2
    ensures Retained(n, d) < d && Retained(n, d) <= n
    ensures Retained(n + 1, d) == if Retained(n, d) + 1 == d then d - d / 2 else Retained(n, d) + 1
  {
    if n >= d {
      RemainderStep(n - d, d / 2);
      RemainderAtMost(n - d, d / 2);
    }
  }

  lemma RemainderAtMost(m: nat, h: nat)
    requires h > 0
    ensures m % h <= m
  {
  }

  lemma RemainderStep(m: nat, h: nat)
    requires h > 0
    ensures (m + 1) % h == if m % h == h - 1 then 0 else m % h + 1
  {
    if m % h == h - 1 {
      RemainderOf(m + 1, h, m / h + 1, 0);
    } else {
      RemainderOf(m + 1, h, m / h, m % h + 1);
    }
  }

  /** With appends only, the live rows are exactly the most recent ones of the padded history, in order. */
  lemma {:induction false} Retention(cfg: Config, d: nat, ops: seq<Op>, states: seq<State>, n: nat)
    requires cfg.Valid() && cfg.dropAt == Some(d) && d >= 2 && IsRun(cfg, ops, states) && n <= |ops|
    requires forall i :: 0 <= i < n ==> ops[i].Append?
    ensures Retained(n, d) <= n && states[n].live == History(cfg, ops, n)[n - Retained(n, d)..]
  {
    RetainedStep(n, d);
    if n > 0 {
      var m := n - 1;
      Retention(cfg, d, ops, states, m);
      RetainedStep(m, d);
      var s, h := states[m], History(cfg, ops, m);
      var item := Pad(ops[m].item, cfg.cols);
      assert History(cfg, ops, n) == h + [item];
      RunStep(cfg, ops, states, m);
      AppendSize(cfg, d, s, ops[m].item);
      PlainDropped(cfg, State(s.live + [item], RoomForOne(cfg, s).tail[1..]));
      assert s.live + [item] == History(cfg, ops, n)[m - Retained(m, d)..];
      assert states[n].live == PlainDrop(cfg, s.live + [item]);
    }
  }
}
