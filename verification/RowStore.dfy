/**
 * The growable row store as a transition system on values: what one public
 * mutation may do to the live rows and to the spare rows behind them, and what
 * every run of mutations keeps.
 */
module RowStore {
  import opened Common

  type Row = seq<real>

  /** Construction parameters: shape [bucket, cols] and the optional drop threshold. */
  datatype Config = Config(bucket: nat, cols: nat, dropAt: Option<nat>) {
    predicate Valid() { dropAt.Some? ==> dropAt.value > 0 }
  }

  /** The buffer, cut behind the last live row. */
  datatype State = State(live: seq<Row>, tail: seq<Row>) {
    function Cap(): nat { |live| + |tail| }
  }

  datatype Op =
    | Append(item: Row)
    | AppendMultiple(items: seq<Row>)
    | Delete(idx: int)
    | Flush

  // ---------------------------------------------------------------- rows

  function ZeroRow(cols: nat): Row { seq(cols, _ => 0.0) }

  function ZeroRows(n: nat, cols: nat): seq<Row> { seq(n, _ => ZeroRow(cols)) }

  /** `item` written over `under`: as wide as `under`, surplus columns of `item` are cut. */
  function Overlay(item: Row, under: Row): Row {
    var k := Min(|item|, |under|);
    item[..k] + under[k..]
  }

  function Pad(item: Row, cols: nat): Row { Overlay(item, ZeroRow(cols)) }

  predicate AllWidth(rows: seq<Row>, cols: nat) {
    forall i :: 0 <= i < |rows| ==> |rows[i]| == cols
  }

  /** Python-style index: negative counts from the end. */
  function Position(i: int, size: nat): (k: Option<nat>)
    ensures k.Some? <==> -(size as int) <= i < size
    ensures k.Some? ==> k.value < size && (k.value == i || k.value == i + size)
  {
    var p := if i < 0 then size + i else i;
    if 0 <= p < size then Some(p) else None
  }

  // ---------------------------------------------------------------- transitions

  function GrownCap(cap: nat, bucket: nat): nat { Max(1, Max(bucket, cap * 3 / 2)) }

  /** A reallocation that keeps the live rows and zeroes everything behind them. */
  function Resized(s: State, cap: nat, cols: nat): State
    requires |s.live| <= cap
  {
    State(s.live, ZeroRows(cap - |s.live|, cols))
  }

  /** Dropping the `n` oldest rows; the vacated rows join the tail as zeros. */
  function Shifted(s: State, n: nat, cols: nat): State {
    if |s.live| <= n && n > 0
    then State([], ZeroRows(s.Cap(), cols))
    else State(s.live[n..], ZeroRows(n, cols) + s.tail)
  }

  function Dropped(cfg: Config, s: State): State
    requires cfg.Valid()
  {
    if cfg.dropAt.Some? && |s.live| % cfg.dropAt.value == 0
    then Shifted(s, cfg.dropAt.value / 2, cfg.cols) else s
  }

  /** A full one-row buffer with bucket 0 or 1: growing by 1.5 yields one row again. */
  predicate Stuck(cfg: Config, s: State) {
    s.tail == [] && GrownCap(s.Cap(), cfg.bucket) == s.Cap()
  }

  function RoomForOne(cfg: Config, s: State): (r: State)
    requires !Stuck(cfg, s)
    ensures r.live == s.live && |r.tail| > 0
  {
    if s.tail == [] then Resized(s, GrownCap(s.Cap(), cfg.bucket), cfg.cols) else s
  }

  function Appended(cfg: Config, s: State, item: Row): State
    requires cfg.Valid() && !Stuck(cfg, s)
  {
    var r := RoomForOne(cfg, s);
    Dropped(cfg, State(r.live + [Pad(item, cfg.cols)], r.tail[1..]))
  }

  function RoomForMany(cfg: Config, s: State, n: nat): (r: State)
    ensures r.live == s.live && n <= |r.tail|
  {
    if |s.live| + n > s.Cap()
    then Resized(s, Max(|s.live| + n, s.Cap() * 3 / 2), cfg.cols) else s
  }

  function Overlaid(items: seq<Row>, under: seq<Row>): (r: seq<Row>)
    requires |items| <= |under|
    ensures |r| == |items|
  {
    seq(|items|, i requires 0 <= i < |items| => Overlay(items[i], under[i]))
  }

  function AppendedMany(cfg: Config, s: State, items: seq<Row>): State
    requires cfg.Valid()
  {
    if items == [] then s else
      var r := RoomForMany(cfg, s, |items|);
      Dropped(cfg, State(r.live + Overlaid(items, r.tail), r.tail[|items|..]))
  }

  function Without(rows: seq<Row>, k: nat): seq<Row>
    requires k < |rows|
  {
    rows[..k] + rows[k + 1..]
  }

  predicate ShrinkDue(cfg: Config, cap: nat, size: nat) {
    cap > cfg.bucket && size < cap / 4
  }

  function ShrunkCap(cfg: Config, cap: nat): nat { Max(cfg.bucket, cap / 2) }

  /** After a deletion: a shrink leaves the new spare rows with whatever the allocator held. */
  ghost predicate Deleted(cfg: Config, s: State, k: nat, s': State)
    requires k < |s.live|
  {
    && s'.live == Without(s.live, k)
    && if ShrinkDue(cfg, s.Cap(), |s.live| - 1)
       then s'.Cap() == ShrunkCap(cfg, s.Cap()) && AllWidth(s'.tail, cfg.cols)
       else s'.tail == [ZeroRow(cfg.cols)] + s.tail
  }

  function Flushed(cfg: Config, s: State): State {
    State([], ZeroRows(if s.Cap() > 2 * cfg.bucket then cfg.bucket else s.Cap(), cfg.cols))
  }

  /** One mutation; a rejected deletion changes nothing, a stuck append has no successor. */
  ghost predicate Next(cfg: Config, s: State, op: Op, s': State)
    requires cfg.Valid()
  {
    match op
    case Append(item) => !Stuck(cfg, s) && s' == Appended(cfg, s, item)
    case AppendMultiple(items) => s' == AppendedMany(cfg, s, items)
    case Delete(idx) =>
      var k := Position(idx, |s.live|);
      if k.Some? then Deleted(cfg, s, k.value, s') else s' == s
    case Flush => s' == Flushed(cfg, s)
  }

  function Fresh(cfg: Config): State { State([], ZeroRows(cfg.bucket, cfg.cols)) }

  ghost predicate StepAt(cfg: Config, ops: seq<Op>, states: seq<State>, i: nat)
    requires cfg.Valid() && i < |ops| && |states| == |ops| + 1
  {
    Next(cfg, states[i], ops[i], states[i + 1])
  }

  /** A run of mutations from a fresh array, with every state it passes through. */
  ghost predicate IsRun(cfg: Config, ops: seq<Op>, states: seq<State>)
    requires cfg.Valid()
  {
    && |states| == |ops| + 1
    && states[0] == Fresh(cfg)
    && forall i :: 0 <= i < |ops| ==> StepAt(cfg, ops, states, i)
  }

  lemma RunStep(cfg: Config, ops: seq<Op>, states: seq<State>, i: nat)
    requires cfg.Valid() && IsRun(cfg, ops, states) && i < |ops|
    ensures Next(cfg, states[i], ops[i], states[i + 1])
  {
    assert StepAt(cfg, ops, states, i);
  }
}
