/** What each mutation does to every row, cell and capacity, in plain indices and numbers. */
module RowStoreEffects {
  import opened Common
  import opened RowStore
  import opened RowStoreBounds

  /** Deletion: the rows before the addressed one stay, those behind it move up by one; nothing else is removed. */
  lemma {:induction false} DeleteExactly(cfg: Config, s: State, idx: int, s': State)
    requires cfg.Valid() && Next(cfg, s, Delete(idx), s')
    ensures var size, k := |s.live|, if idx < 0 then |s.live| + idx else idx;
      if 0 <= k < size then
        && |s'.live| == size - 1
        && (forall i :: 0 <= i < k ==> s'.live[i] == s.live[i])
        && (forall i :: k <= i < size - 1 ==> s'.live[i] == s.live[i + 1])
      else s' == s
  {
  }

  /** A deletion that leaves less than a quarter halves the buffer, but not below the bucket. */
  lemma {:induction false} DeleteCapacityExactly(cfg: Config, s: State, idx: int, s': State)
    requires cfg.Valid() && Next(cfg, s, Delete(idx), s') && -|s.live| <= idx < |s.live|
    ensures cfg.bucket < s.Cap() && 4 * |s.live| <= s.Cap() ==>
      && cfg.bucket <= s'.Cap() && s.Cap() <= 2 * s'.Cap() + 1
      && (s'.Cap() == cfg.bucket || 2 * s'.Cap() <= s.Cap())
    ensures !(cfg.bucket < s.Cap() && 4 * |s.live| <= s.Cap()) ==>
      && s'.Cap() == s.Cap() && s'.tail != [] && s'.tail[1..] == s.tail
      && |s'.tail[0]| == cfg.cols && forall j :: 0 <= j < cfg.cols ==> s'.tail[0][j] == 0.0
  {
  }

  /** How many of `n` rows a drop removes: half the threshold at its multiples. */
  lemma CutInNumbers(cfg: Config, n: nat)
    requires cfg.Valid() && 0 < n
    ensures AfterDrop(cfg, n) ==
      if cfg.dropAt.Some? && n % cfg.dropAt.value == 0 then n - cfg.dropAt.value / 2 else n
    ensures 0 < AfterDrop(cfg, n) <= n
  {
    if cfg.dropAt.Some? && n % cfg.dropAt.value == 0 { MultipleIsAtLeast(n, cfg.dropAt.value); }
  }

  lemma {:induction false} DroppedRows(cfg: Config, s: State)
    requires cfg.Valid() && s.live != []
    ensures Dropped(cfg, s).live == s.live[|s.live| - AfterDrop(cfg, |s.live|)..]
  {
    CutInNumbers(cfg, |s.live|);
  }

  /** Cells of `item` where it has them, of `under` where it has not. */
  lemma {:induction false} OverlayCells(item: Row, under: Row)
    ensures |Overlay(item, under)| == |under|
    ensures forall j :: 0 <= j < |under| ==> Overlay(item, under)[j] == if j < |item| then item[j] else under[j]
  {
  }

  /** Append: the new row comes last, padded with zeros or cut to the width; a drop removes the oldest rows. */
  lemma {:induction false} AppendExactly(cfg: Config, s: State, item: Row, s': State)
    requires cfg.Valid() && Next(cfg, s, Append(item), s')
    ensures var n := |s.live| + 1;
      var d := if cfg.dropAt.Some? && n % cfg.dropAt.value == 0 then cfg.dropAt.value / 2 else 0;
      && d < n && |s'.live| == n - d
      && (forall i :: 0 <= i < n - d - 1 ==> s'.live[i] == s.live[i + d])
      && |s'.live[n - d - 1]| == cfg.cols
      && forall j :: 0 <= j < cfg.cols ==> s'.live[n - d - 1][j] == if j < |item| then item[j] else 0.0
  {
    var r := RoomForOne(cfg, s);
    var longer := State(r.live + [Pad(item, cfg.cols)], r.tail[1..]);
    DroppedRows(cfg, longer);
    CutInNumbers(cfg, |longer.live|);
    OverlayCells(item, ZeroRow(cfg.cols));
  }

  /** A full buffer grows by half, to the bucket or to one row, whichever is most. */
  lemma {:induction false} AppendCapacityExactly(cfg: Config, s: State, item: Row, s': State)
    requires cfg.Valid() && Next(cfg, s, Append(item), s')
    ensures |s.live| < s.Cap() ==> s'.Cap() == s.Cap()
    ensures |s.live| == s.Cap() ==>
      && 1 <= s'.Cap() && cfg.bucket <= s'.Cap() && 3 * s.Cap() <= 2 * s'.Cap() + 1
      && (s'.Cap() == 1 || s'.Cap() == cfg.bucket || 2 * s'.Cap() <= 3 * s.Cap())
  {
    NextSizes(cfg, s, Append(item), s');
  }

  /** `row` holds the cells of `item`, and where it is narrow, those of `under`. */
  ghost predicate LaidOver(row: Row, item: Row, under: Row) {
    && |row| == |under|
    && forall j :: 0 <= j < |row| ==> row[j] == if j < |item| then item[j] else under[j]
  }

  /** Batch: it follows the live rows, and a drop removes the oldest of them all. */
  lemma {:induction false} BatchExactly(cfg: Config, s: State, items: seq<Row>, s': State)
    requires cfg.Valid() && items != [] && Next(cfg, s, AppendMultiple(items), s')
    ensures var n := |s.live| + |items|;
      var d := if cfg.dropAt.Some? && n % cfg.dropAt.value == 0 then cfg.dropAt.value / 2 else 0;
      && d < n && |s'.live| == n - d
      && forall i :: 0 <= i < n - d && i + d < |s.live| ==> s'.live[i] == s.live[i + d]
  {
    var d := BatchShift(cfg, s, items, s');
  }

  /** Its rows come in order; where one is narrow, what the spare row under it held shows through. */
  lemma {:induction false} BatchCellsExactly(cfg: Config, s: State, items: seq<Row>, s': State, r: nat)
    requires cfg.Valid() && items != [] && Next(cfg, s, AppendMultiple(items), s') && r < |items|
    ensures var at := |s'.live| - |items| + r;
      0 <= at ==> LaidOver(s'.live[at], items[r], if |items| <= |s.tail| then s.tail[r] else ZeroRow(cfg.cols))
  {
    var d := BatchShift(cfg, s, items, s');
    BatchLaid(cfg, s, items);
  }

  lemma {:induction false} BatchShift(cfg: Config, s: State, items: seq<Row>, s': State) returns (d: nat)
    requires cfg.Valid() && items != [] && Next(cfg, s, AppendMultiple(items), s')
    ensures var n := |s.live| + |items|;
      && d == (if cfg.dropAt.Some? && n % cfg.dropAt.value == 0 then cfg.dropAt.value / 2 else 0)
      && d < n && s'.live == (s.live + Overlaid(items, RoomForMany(cfg, s, |items|).tail))[d..]
  {
    var n, room := |s.live| + |items|, RoomForMany(cfg, s, |items|);
    DroppedRows(cfg, State(room.live + Overlaid(items, room.tail), room.tail[|items|..]));
    CutInNumbers(cfg, n);
    d := n - AfterDrop(cfg, n);
  }

  lemma {:induction false} BatchLaid(cfg: Config, s: State, items: seq<Row>)
    ensures forall r :: 0 <= r < |items| ==>
      LaidOver(Overlaid(items, RoomForMany(cfg, s, |items|).tail)[r], items[r],
               if |items| <= |s.tail| then s.tail[r] else ZeroRow(cfg.cols))
  {
    var room := RoomForMany(cfg, s, |items|);
    forall r | 0 <= r < |items|
      ensures LaidOver(Overlaid(items, room.tail)[r], items[r],
                       if |items| <= |s.tail| then s.tail[r] else ZeroRow(cfg.cols))
    {
      OverlayCells(items[r], room.tail[r]);
    }
  }

  /** A batch that does not fit makes the buffer as large as it needs, or larger by half. */
  lemma {:induction false} BatchCapacityExactly(cfg: Config, s: State, items: seq<Row>, s': State)
    requires cfg.Valid() && Next(cfg, s, AppendMultiple(items), s')
    ensures items == [] ==> s' == s
    ensures |s.live| + |items| <= s.Cap() ==> s'.Cap() == s.Cap()
    ensures |s.live| + |items| > s.Cap() ==>
      && |s.live| + |items| <= s'.Cap() && 3 * s.Cap() <= 2 * s'.Cap() + 1
      && (s'.Cap() == |s.live| + |items| || 2 * s'.Cap() <= 3 * s.Cap())
  {
    NextSizes(cfg, s, AppendMultiple(items), s');
  }

  /** Flush: nothing live, zeros only, the bucket again if the buffer is more than twice as large. */
  lemma {:induction false} FlushExactly(cfg: Config, s: State, s': State)
    requires cfg.Valid() && Next(cfg, s, Flush, s')
    ensures s'.live == [] && s'.Cap() == if 2 * cfg.bucket < s.Cap() then cfg.bucket else s.Cap()
    ensures forall i, j :: 0 <= i < |s'.tail| && 0 <= j < |s'.tail[i]| ==> s'.tail[i][j] == 0.0
    ensures forall i :: 0 <= i < |s'.tail| ==> |s'.tail[i]| == cfg.cols
  {
  }

  /** A change of capacity, but for a flush, copies every row that was live and still is; nothing else copies rows. */
  lemma {:induction false} CopiedExactly(cfg: Config, s: State, op: Op, s': State)
    requires cfg.Valid() && Next(cfg, s, op, s')
    ensures s'.Cap() == s.Cap() || op.Flush? ==> Copied(cfg, |s.live|, s.Cap(), op) == 0
    ensures s'.Cap() != s.Cap() && !op.Flush? ==>
      Copied(cfg, |s.live|, s.Cap(), op) == if op.Delete? then |s.live| - 1 else |s.live|
  {
    NextSizes(cfg, s, op, s');
  }
}
