/** Space and amortised reallocation cost of the row store, over every run of mutations. */
module RowStoreBounds {
  import opened Common
  import opened RowStore

  // ---------------------------------------------------------------- sizes

  /** The size and capacity a mutation leads to, without the rows. */
  ghost predicate Resizes(cfg: Config, size: nat, cap: nat, op: Op, size': nat, cap': nat)
    requires cfg.Valid()
  {
    match op
    case Append(_) =>
      && cap' == (if size == cap then GrownCap(cap, cfg.bucket) else cap)
      && cap' > size
      && size' == AfterDrop(cfg, size + 1)
    case AppendMultiple(items) =>
      && cap' == (if size + |items| > cap then Max(size + |items|, cap * 3 / 2) else cap)
      && size' == if items == [] then size else AfterDrop(cfg, size + |items|)
    case Delete(idx) =>
      if Position(idx, size).Some?
      then size' == size - 1 && cap' == (if ShrinkDue(cfg, cap, size') then ShrunkCap(cfg, cap) else cap)
      else size' == size && cap' == cap
    case Flush => size' == 0 && cap' == (if cap > 2 * cfg.bucket then cfg.bucket else cap)
  }

  /** Rows left by the drop test on a store of `size` rows. */
  function AfterDrop(cfg: Config, size: nat): (n: nat)
    requires cfg.Valid()
    ensures n <= size
  {
    if cfg.dropAt.Some? && size % cfg.dropAt.value == 0 then size - Min(cfg.dropAt.value / 2, size) else size
  }

  lemma DroppedSizes(cfg: Config, s: State)
    requires cfg.Valid()
    ensures Dropped(cfg, s).Cap() == s.Cap()
    ensures |Dropped(cfg, s).live| == AfterDrop(cfg, |s.live|)
  {
  }

  lemma AppendSizes(cfg: Config, s: State, op: Op, s': State)
    requires cfg.Valid() && op.Append? && Next(cfg, s, op, s')
    ensures Resizes(cfg, |s.live|, s.Cap(), op, |s'.live|, s'.Cap())
  {
    var r := RoomForOne(cfg, s);
    DroppedSizes(cfg, State(r.live + [Pad(op.item, cfg.cols)], r.tail[1..]));
  }

  lemma AppendMultipleSizes(cfg: Config, s: State, op: Op, s': State)
    requires cfg.Valid() && op.AppendMultiple? && Next(cfg, s, op, s')
    ensures Resizes(cfg, |s.live|, s.Cap(), op, |s'.live|, s'.Cap())
  {
    var r := RoomForMany(cfg, s, |op.items|);
    DroppedSizes(cfg, State(r.live + Overlaid(op.items, r.tail), r.tail[|op.items|..]));
  }

  lemma RemovalSizes(cfg: Config, s: State, op: Op, s': State)
    requires cfg.Valid() && (op.Delete? || op.Flush?) && Next(cfg, s, op, s')
    ensures Resizes(cfg, |s.live|, s.Cap(), op, |s'.live|, s'.Cap())
  {
  }

  lemma {:induction false} NextSizes(cfg: Config, s: State, op: Op, s': State)
    requires cfg.Valid() && Next(cfg, s, op, s')
    ensures Resizes(cfg, |s.live|, s.Cap(), op, |s'.live|, s'.Cap())
  {
    if op.Append? {
      AppendSizes(cfg, s, op, s');
    } else if op.AppendMultiple? {
      AppendMultipleSizes(cfg, s, op, s');
    } else {
      RemovalSizes(cfg, s, op, s');
    }
  }

  // ---------------------------------------------------------------- growth

  /** A growth step makes room exactly when the buffer has no row, two or more, or a bucket above one. */
  lemma GrowthIsStrictExactly(cap: nat, bucket: nat)
    ensures GrownCap(cap, bucket) > cap <==> cap == 0 || bucket > cap || cap >= 2
  {
  }

  /** Bucket sizes 0 and 1 are exactly those from which two plain appends get stuck. */
  lemma TwoAppendsGetStuckExactly(cfg: Config, a: Row)
    requires cfg.Valid()
    ensures !Stuck(cfg, Fresh(cfg))
    ensures cfg.bucket <= 1 <==> Stuck(cfg, Appended(cfg, Fresh(cfg), a))
  {
  }

  /** With a bucket of at least two, an append can be taken in every reachable state. */
  lemma AppendAlwaysPossible(cfg: Config, ops: seq<Op>, states: seq<State>, n: nat)
    requires cfg.Valid() && IsRun(cfg, ops, states) && n <= |ops|
    ensures cfg.bucket >= 2 ==> !Stuck(cfg, states[n])
    ensures cfg.bucket <= states[n].Cap()
  {
    CapacityAtLeastBucket(cfg, ops, states, n);
  }

  lemma {:induction false} CapacityAtLeastBucket(cfg: Config, ops: seq<Op>, states: seq<State>, n: nat)
    requires cfg.Valid() && IsRun(cfg, ops, states) && n <= |ops|
    ensures cfg.bucket <= states[n].Cap()
  {
    if n > 0 {
      CapacityAtLeastBucket(cfg, ops, states, n - 1);
      RunStep(cfg, ops, states, n - 1);
      NextSizes(cfg, states[n - 1], ops[n - 1], states[n]);
    }
  }

  // ---------------------------------------------------------------- space

  predicate SpaceBounded(cfg: Config, size: nat, cap: nat) {
    cfg.bucket <= cap <= Max(2 * cfg.bucket, 4 * size + 3)
  }

  lemma SpaceStep(cfg: Config, size: nat, cap: nat, op: Op, size': nat, cap': nat)
    requires cfg.Valid() && cfg.dropAt == None && size <= cap
    requires SpaceBounded(cfg, size, cap) && Resizes(cfg, size, cap, op, size', cap')
    ensures SpaceBounded(cfg, size', cap')
  {
    match op
    case Append(item) =>
    case AppendMultiple(items) =>
    case Delete(idx) =>
    case Flush =>
  }

  /** Without a drop threshold the buffer stays within four times the live rows (or two buckets). */
  lemma {:induction false} SpaceBound(cfg: Config, ops: seq<Op>, states: seq<State>, n: nat)
    requires cfg.Valid() && cfg.dropAt == None && IsRun(cfg, ops, states) && n <= |ops|
    ensures cfg.bucket <= states[n].Cap() <= Max(2 * cfg.bucket, 4 * |states[n].live| + 3)
  {
    if n > 0 {
      SpaceBound(cfg, ops, states, n - 1);
      var s, s' := states[n - 1], states[n];
      RunStep(cfg, ops, states, n - 1);
      NextSizes(cfg, s, ops[n - 1], s');
      SpaceStep(cfg, |s.live|, s.Cap(), ops[n - 1], |s'.live|, s'.Cap());
    }
  }

  // ---------------------------------------------------------------- amortised copying

  /** Rows copied into a new buffer by one mutation (in `resize` or `shrinkToFit`). */
  function Copied(cfg: Config, size: nat, cap: nat, op: Op): nat {
    match op
    case Append(_) => if size == cap then size else 0
    case AppendMultiple(items) => if size + |items| > cap then size else 0
    case Delete(idx) =>
      if Position(idx, size).Some? && ShrinkDue(cfg, cap, size - 1) then size - 1 else 0
    case Flush => 0
  }

  function RowsIn(op: Op): nat {
    match op
    case Append(_) => 1
    case AppendMultiple(items) => |items|
    case Delete(_) => 0
    case Flush => 0
  }

  function TotalCopied(cfg: Config, ops: seq<Op>, states: seq<State>, n: nat): nat
    requires n <= |ops| && n <= |states|
  {
    if n == 0 then 0
    else TotalCopied(cfg, ops, states, n - 1) + Copied(cfg, |states[n - 1].live|, states[n - 1].Cap(), ops[n - 1])
  }

  function TotalIn(ops: seq<Op>, n: nat): nat
    requires n <= |ops|
  {
    if n == 0 then 0 else TotalIn(ops, n - 1) + RowsIn(ops[n - 1])
  }

  /** Copying that the present fill level has already paid for: near-full, or near-empty above the bucket. */
  function Potential(cfg: Config, size: nat, cap: nat): nat {
    Max(0, 3 * size - 2 * cap) + (if cap > cfg.bucket then Max(0, cap / 2 - size) else 0)
  }

  /** Removing rows never raises potential plus size. */
  lemma PotentialOfFewer(cfg: Config, size: nat, size': nat, cap: nat)
    requires size' <= size
    ensures Potential(cfg, size', cap) + size' <= Potential(cfg, size, cap) + size
  {
  }

  lemma PotentialOfGrowth(cfg: Config, size: nat, cap: nat, n: nat, cap': nat)
    requires cfg.bucket <= cap && size <= cap < size + n
    requires cap' == Max(size + n, cap * 3 / 2)
    ensures size + Potential(cfg, size + n, cap') <= Potential(cfg, size, cap) + 4 * n
  {
    assert Potential(cfg, size + n, cap') == Max(0, 3 * (size + n) - 2 * cap');
    assert Potential(cfg, size, cap) >= Max(0, 3 * size - 2 * cap);
  }

  lemma PotentialOfShrink(cfg: Config, size: nat, cap: nat)
    requires cfg.bucket <= cap && 0 < size <= cap && ShrinkDue(cfg, cap, size - 1)
    ensures size - 1 + Potential(cfg, size - 1, ShrunkCap(cfg, cap)) <= Potential(cfg, size, cap) + 1
  {
  }

  /** What one mutation copies is paid from the potential and from five units per incoming row. */
  ghost predicate Paid(cfg: Config, size: nat, cap: nat, op: Op, size': nat, cap': nat) {
    Copied(cfg, size, cap, op) + Potential(cfg, size', cap') + size'
    <= Potential(cfg, size, cap) + size + 5 * RowsIn(op)
  }

  /** `n` rows come in: into a buffer that has room, or into one grown for them. */
  lemma AdditionPaid(cfg: Config, size: nat, cap: nat, n: nat, size': nat, cap': nat)
    requires cfg.bucket <= cap && size <= cap && size' <= size + n
    requires cap' == if size + n > cap then Max(size + n, cap * 3 / 2) else cap
    ensures (if size + n > cap then size else 0) + Potential(cfg, size', cap') + size'
            <= Potential(cfg, size, cap) + size + 5 * n
  {
    PotentialOfFewer(cfg, size + n, size', cap');
    if size + n > cap { PotentialOfGrowth(cfg, size, cap, n, cap'); }
  }

  lemma RemovalPaid(cfg: Config, size: nat, cap: nat, op: Op, size': nat, cap': nat)
    requires cfg.Valid() && (op.Delete? || op.Flush?) && cfg.bucket <= cap && size <= cap
    requires Resizes(cfg, size, cap, op, size', cap')
    ensures Paid(cfg, size, cap, op, size', cap')
  {
    if op.Delete? && Position(op.idx, size).Some? && ShrinkDue(cfg, cap, size - 1) {
      PotentialOfShrink(cfg, size, cap);
    }
  }

  lemma StepPaid(cfg: Config, s: State, op: Op, s': State)
    requires cfg.Valid() && cfg.bucket <= s.Cap() && Next(cfg, s, op, s')
    ensures Paid(cfg, |s.live|, s.Cap(), op, |s'.live|, s'.Cap())
  {
    NextSizes(cfg, s, op, s');
    if op.Append? || op.AppendMultiple? {
      AdditionPaid(cfg, |s.live|, s.Cap(), RowsIn(op), |s'.live|, s'.Cap());
    } else {
      RemovalPaid(cfg, |s.live|, s.Cap(), op, |s'.live|, s'.Cap());
    }
  }

  /** Reallocation is amortised over every run: at most five copies per row ever added, less the rows still held. */
  lemma {:induction false} AmortisedCopying(cfg: Config, ops: seq<Op>, states: seq<State>, n: nat)
    requires cfg.Valid() && IsRun(cfg, ops, states) && n <= |ops|
    ensures TotalCopied(cfg, ops, states, n) + |states[n].live| <= 5 * TotalIn(ops, n)
  {
    AmortisedWithPotential(cfg, ops, states, n);
  }

  lemma {:induction false} AmortisedWithPotential(cfg: Config, ops: seq<Op>, states: seq<State>, n: nat)
    requires cfg.Valid() && IsRun(cfg, ops, states) && n <= |ops|
    ensures TotalCopied(cfg, ops, states, n) + |states[n].live|
            + Potential(cfg, |states[n].live|, states[n].Cap()) <= 5 * TotalIn(ops, n)
  {
    if n > 0 {
      AmortisedWithPotential(cfg, ops, states, n - 1);
      RunPaid(cfg, ops, states, n - 1);
    }
  }

  lemma RunPaid(cfg: Config, ops: seq<Op>, states: seq<State>, i: nat)
    requires cfg.Valid() && IsRun(cfg, ops, states) && i < |ops|
    ensures Paid(cfg, |states[i].live|, states[i].Cap(), ops[i], |states[i + 1].live|, states[i + 1].Cap())
  {
    CapacityAtLeastBucket(cfg, ops, states, i);
    RunStep(cfg, ops, states, i);
    StepPaid(cfg, states[i], ops[i], states[i + 1]);
  }

  /** A run that only adds rows copies at most four times as many. */
  lemma {:induction false} CopyingWithoutRemoval(cfg: Config, ops: seq<Op>, states: seq<State>, n: nat)
    requires cfg.Valid() && cfg.dropAt == None && IsRun(cfg, ops, states) && n <= |ops|
    requires forall i :: 0 <= i < n ==> ops[i].Append? || ops[i].AppendMultiple?
    ensures |states[n].live| == TotalIn(ops, n)
    ensures TotalCopied(cfg, ops, states, n) <= 4 * TotalIn(ops, n)
  {
    if n > 0 {
      CopyingWithoutRemoval(cfg, ops, states, n - 1);
      RunStep(cfg, ops, states, n - 1);
      NextSizes(cfg, states[n - 1], ops[n - 1], states[n]);
    }
    AmortisedCopying(cfg, ops, states, n);
  }

  // ---------------------------------------------------------------- drop threshold

  predicate BelowThreshold(cfg: Config, d: nat, size: nat, cap: nat) {
    size < d && cap <= Max(cfg.bucket, 3 * (d - 1) / 2)
  }

  /** With threshold d and single appends, deletions and flushes, fewer than d rows stay and the buffer stays small. */
  lemma {:induction false} ThresholdBound(cfg: Config, d: nat, ops: seq<Op>, states: seq<State>, n: nat)
    requires cfg.Valid() && cfg.dropAt == Some(d) && d >= 2 && IsRun(cfg, ops, states) && n <= |ops|
    requires forall i :: 0 <= i < n ==> !ops[i].AppendMultiple?
    ensures |states[n].live| < d
    ensures states[n].Cap() <= Max(cfg.bucket, 3 * (d - 1) / 2)
  {
    if n > 0 {
      ThresholdBound(cfg, d, ops, states, n - 1);
      RunStep(cfg, ops, states, n - 1);
      ThresholdStep(cfg, d, states[n - 1], ops[n - 1], states[n]);
    }
  }

  lemma ThresholdStep(cfg: Config, d: nat, s: State, op: Op, s': State)
    requires cfg.Valid() && cfg.dropAt == Some(d) && d >= 2 && !op.AppendMultiple? && Next(cfg, s, op, s')
    requires BelowThreshold(cfg, d, |s.live|, s.Cap())
    ensures BelowThreshold(cfg, d, |s'.live|, s'.Cap())
  {
    NextSizes(cfg, s, op, s');
    if op.Append? { AppendSize(cfg, d, s, op.item); }
  }

  /** The size after an append, with a drop exactly when it reaches the threshold. */
  lemma AppendSize(cfg: Config, d: nat, s: State, item: Row)
    requires cfg.Valid() && cfg.dropAt == Some(d) && d >= 2 && |s.live| < d && !Stuck(cfg, s)
    ensures |Appended(cfg, s, item).live| == if |s.live| + 1 == d then d - d / 2 else |s.live| + 1
  {
    if |s.live| + 1 < d { BelowIsNoMultiple(|s.live| + 1, d); }
  }

  lemma BelowIsNoMultiple(n: nat, d: nat)
    requires 0 < n < d
    ensures n % d == n
  {
  }

  /** A batch keeps the size below the threshold exactly when it does not carry it past the threshold. */
  lemma BatchStaysBelowExactly(cfg: Config, d: nat, s: State, items: seq<Row>)
    requires cfg.Valid() && cfg.dropAt == Some(d) && d >= 2 && |s.live| < d
    ensures |AppendedMany(cfg, s, items).live| < d <==> |s.live| + |items| <= d
  {
    if items != [] {
      var n := |s.live| + |items|;
      BatchSize(cfg, d, s, items);
      if n < d { BelowIsNoMultiple(n, d); }
      if d < n { DropLeavesAtLeast(n, d); }
    }
  }

  lemma BatchSize(cfg: Config, d: nat, s: State, items: seq<Row>)
    requires cfg.Valid() && cfg.dropAt == Some(d) && d >= 2 && items != []
    ensures var n := |s.live| + |items|;
      |AppendedMany(cfg, s, items).live| == if n % d == 0 then n - d / 2 else n
  {
    var n := |s.live| + |items|;
    if n % d == 0 { MultipleIsAtLeast(n, d); }
  }

  lemma MultipleIsAtLeast(n: nat, d: nat)
    requires 0 < n && 0 < d && n % d == 0
    ensures d <= n
  {
    if n < d { BelowIsNoMultiple(n, d); }
  }

  lemma DropLeavesAtLeast(n: nat, d: nat)
    requires 2 <= d < n
    ensures n % d == 0 ==> n - d / 2 >= d
  {
    if n % d == 0 {
      RemainderOf(n - d, d, n / d - 1, 0);
      MultipleIsAtLeast(n - d, d);
    }
  }

  /** Once a batch has jumped over the threshold, appends and batches alone never bring the size back below it. */
  lemma {:induction false} OverflowPersists(cfg: Config, d: nat, ops: seq<Op>, states: seq<State>, m: nat, n: nat)
    requires cfg.Valid() && cfg.dropAt == Some(d) && d >= 2 && IsRun(cfg, ops, states) && m <= n <= |ops|
    requires |states[m].live| >= d && forall i :: m <= i < n ==> ops[i].Append? || ops[i].AppendMultiple?
    ensures |states[n].live| >= d
  {
    if m < n {
      OverflowPersists(cfg, d, ops, states, m, n - 1);
      RunStep(cfg, ops, states, n - 1);
      OverflowStep(cfg, d, states[n - 1], ops[n - 1], states[n]);
    }
  }

  lemma OverflowStep(cfg: Config, d: nat, s: State, op: Op, s': State)
    requires cfg.Valid() && cfg.dropAt == Some(d) && d >= 2
    requires |s.live| >= d && (op.Append? || op.AppendMultiple?) && Next(cfg, s, op, s')
    ensures |s'.live| >= d
  {
    var n := |s.live| + RowsIn(op);
    if n > d { DropLeavesAtLeast(n, d); }
    if op.AppendMultiple? && op.items != [] { BatchSize(cfg, d, s, op.items); }
  }
}
