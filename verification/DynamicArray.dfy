/** The row buffer class of include/DynamicArray.hpp, updated in place and refined to RowStore. */
module DynamicArrays {
  import opened Common
  import opened RowStore
  import RowStoreBounds
  import RowStoreContents
  import RowStoreEffects

  /** Rows whose column `c` lies within `eps` of `v`, in order. */
  function Matching(rows: seq<Row>, c: nat, v: real, eps: real): (m: seq<Row>)
    requires forall i :: 0 <= i < |rows| ==> c < |rows[i]|
    ensures |m| <= |rows|
  {
    if rows == [] then [] else
      var last := rows[|rows| - 1];
      Matching(rows[..|rows| - 1], c, v, eps) + if Abs(last[c] - v) <= eps then [last] else []
  }

  lemma {:induction false} MatchingPrefix(rows: seq<Row>, n: nat, c: nat, v: real, eps: real)
    requires n <= |rows| && forall i :: 0 <= i < |rows| ==> c < |rows[i]|
    ensures |Matching(rows[..n], c, v, eps)| <= |Matching(rows, c, v, eps)|
  {
    if n < |rows| {
      MatchingPrefix(rows[..|rows| - 1], n, c, v, eps);
      assert rows[..|rows| - 1][..n] == rows[..n];
    } else {
      assert rows[..n] == rows;
    }
  }

  lemma {:induction false} MatchingMembers(rows: seq<Row>, c: nat, v: real, eps: real, r: Row)
    requires forall i :: 0 <= i < |rows| ==> c < |rows[i]|
    ensures r in Matching(rows, c, v, eps) <==> r in rows && Abs(r[c] - v) <= eps
  {
    if rows != [] {
      assert rows == rows[..|rows| - 1] + [rows[|rows| - 1]];
      MatchingMembers(rows[..|rows| - 1], c, v, eps, r);
    }
  }

  lemma MatchingSnoc(rows: seq<Row>, i: nat, c: nat, v: real, eps: real)
    requires i < |rows| && forall j :: 0 <= j < |rows| ==> c < |rows[j]|
    ensures Matching(rows[..i + 1], c, v, eps)
         == Matching(rows[..i], c, v, eps) + if Abs(rows[i][c] - v) <= eps then [rows[i]] else []
  {
    assert rows[..i + 1][..i] == rows[..i];
  }

  lemma AreZeroRows(rows: seq<Row>, cols: nat)
    requires forall i :: 0 <= i < |rows| ==> rows[i] == ZeroRow(cols)
    ensures rows == ZeroRows(|rows|, cols)
  {
  }

  /** `at` lists, in order, exactly the positions of the rows within the tolerance. */
  ghost predicate ListsMatches(at: seq<nat>, rows: seq<Row>, c: nat, v: real, eps: real)
    requires forall i :: 0 <= i < |rows| ==> c < |rows[i]|
  {
    && (forall k, l :: 0 <= k < l < |at| ==> at[k] < at[l])
    && (forall k :: 0 <= k < |at| ==> at[k] < |rows|)
    && (forall i: nat :: i < |rows| ==> (i in at <==> -eps <= rows[i][c] - v <= eps))
  }

  /** `m` holds the rows at the positions `at`. */
  ghost predicate HoldsRows(m: seq<Row>, at: seq<nat>, rows: seq<Row>) {
    && |m| == |at|
    && forall k :: 0 <= k < |at| ==> at[k] < |rows| && m[k] == rows[at[k]]
  }

  /** The filter result holds the rows at those positions. */
  lemma {:induction false} MatchingInOrder(rows: seq<Row>, c: nat, v: real, eps: real) returns (at: seq<nat>)
    requires forall i :: 0 <= i < |rows| ==> c < |rows[i]|
    ensures ListsMatches(at, rows, c, v, eps) && HoldsRows(Matching(rows, c, v, eps), at, rows)
    decreases |rows|
  {
    if rows == [] {
      at := [];
    } else {
      var n: nat := |rows| - 1;
      var init := MatchingInOrder(rows[..n], c, v, eps);
      var m := Matching(rows[..n], c, v, eps);
      MatchingLast(rows, n, c, v, eps);
      OneMoreRow(m, init, rows, n);
      if Abs(rows[n][c] - v) <= eps {
        at := init + [n];
      } else {
        at := init;
        assert m + [] == m;
      }
      OneMoreMatch(init, at, rows, n, c, v, eps);
    }
  }

  lemma MatchingLast(rows: seq<Row>, n: nat, c: nat, v: real, eps: real)
    requires |rows| == n + 1 && forall i :: 0 <= i < |rows| ==> c < |rows[i]|
    ensures Matching(rows, c, v, eps)
         == Matching(rows[..n], c, v, eps) + if Abs(rows[n][c] - v) <= eps then [rows[n]] else []
  {
  }

  lemma OneMoreRow(m: seq<Row>, at: seq<nat>, rows: seq<Row>, n: nat)
    requires n < |rows| && HoldsRows(m, at, rows[..n])
    ensures HoldsRows(m, at, rows) && HoldsRows(m + [rows[n]], at + [n], rows)
  {
  }

  lemma {:induction false} OneMoreMatch(
      init: seq<nat>, at: seq<nat>, rows: seq<Row>, n: nat, c: nat, v: real, eps: real)
    requires |rows| == n + 1 && forall i :: 0 <= i < |rows| ==> c < |rows[i]|
    requires ListsMatches(init, rows[..n], c, v, eps)
    requires at == if Abs(rows[n][c] - v) <= eps then init + [n] else init
    ensures ListsMatches(at, rows, c, v, eps)
  {
    forall i: nat | i < |rows| ensures i in at <==> -eps <= rows[i][c] - v <= eps {
      if i < n { assert rows[..n][i] == rows[i]; }
    }
  }

  /**
   * Slice bounds in numbers: negative ones count from the end, 0 stops at it, and both are cut
   * to the rows there are.
   */
  lemma SliceBoundsExactly(start: int, stop: int, size: nat)
    ensures var (lo, hi) := SliceBounds(start, stop, size);
      && (0 <= start ==> lo == start) && (0 <= size + start < size ==> lo == size + start)
      && (size + start < 0 ==> lo == 0)
      && (stop == 0 || size <= stop ==> hi == size) && (0 < stop < size ==> hi == stop)
      && (stop < 0 ==> hi == size + stop)
  {
  }

  /** Python-style slice bounds, a stop of 0 standing for the end. */
  function SliceBounds(start: int, stop: int, size: nat): (b: (int, int)) {
    var lo := if start < 0 then size + start else start;
    var hi := if stop == 0 then size else if stop < 0 then size + stop else stop;
    (Max(0, lo), Min(hi, size))
  }

  class DynamicArray {
    const cfg: Config       // bucket_size_, shape_[1] and drop_at_
    var index: int          // last live row, -1 when empty
    var data: array<Row>
    ghost var copied: nat   // rows copied by reallocations so far

    ghost predicate Valid()
      reads this, data
    {
      && cfg.Valid()
      && -1 <= index < data.Length
      && forall i :: 0 <= i < data.Length ==> |data[i]| == cfg.cols
    }

    ghost function Store(): State
      reads this, data
      requires Valid()
    {
      State(data[..index + 1], data[index + 1..])
    }

    ghost function Live(): (live: seq<Row>)
      reads this, data
      requires Valid()
      ensures live == Store().live && |live| == index + 1
    {
      data[..index + 1]
    }

    constructor (bucket: nat, cols: nat, dropAt: Option<nat>)
      requires dropAt.Some? ==> dropAt.value > 0
      ensures Valid() && fresh(data) && cfg == Config(bucket, cols, dropAt)
      ensures Store() == Fresh(cfg) && copied == 0
    {
      cfg := Config(bucket, cols, dropAt);
      index := -1;
      data := new Row[bucket](_ => ZeroRow(cols));
      copied := 0;
      new;
      assert data[..0] == [];
      assert data[0..] == ZeroRows(bucket, cols);
    }

    // -------------------------------------------------------------- reads

    function Size(): (n: nat)
      reads this, data
      requires Valid()
      ensures n == |Live()|
    {
      index + 1
    }

    function Capacity(): (n: nat)
      reads this, data
      requires Valid()
      ensures n == Store().Cap()
    {
      data.Length
    }

    function At(i: int): (r: Result<Row>)
      reads this, data
      requires Valid()
      ensures r == match Position(i, |Live()|) { case Some(k) => Ok(Live()[k]) case None => Err(OutOfRange) }
    {
      if index == -1 then Err(OutOfRange) else
        var j := if i < 0 then index + 1 - (-i) else i;
        if j < 0 || j > index then Err(OutOfRange) else Ok(data[j])
    }

    function GetLastItem(): (r: Result<Row>)
      reads this, data
      requires Valid()
      ensures r == At(-1)
    {
      if index == -1 then Err(OutOfRange) else Ok(data[index])
    }

    function GetPastItem(past: nat): (r: Result<Row>)
      reads this, data
      requires Valid()
      ensures r == At(-1 - past)
    {
      if index == -1 || index < past then Err(OutOfRange) else Ok(data[index - past])
    }

    function Slice(start: int, stop: int): (r: Result<seq<Row>>)
      reads this, data
      requires Valid()
      ensures var (lo, hi) := SliceBounds(start, stop, |Live()|);
        r == if lo < hi then Ok(Live()[lo..hi]) else Err(OutOfRange)
    {
      if index == -1 then Err(OutOfRange) else
        var start := if start < 0 then index + 1 - (-start) else start;
        var stop := if stop == 0 then index + 1 else if stop < 0 then index + 1 - (-stop) else stop;
        var start := Max(0, start);
        var stop := Min(stop, index + 1);
        if start >= stop then Err(OutOfRange) else Ok(data[..index + 1][start..stop])
    }

    method Filter(column: nat, value: real, eps: real) returns (r: Result<seq<Row>>)
      requires Valid()
      ensures r.Err? <==> Live() != [] && cfg.cols <= column
      ensures r.Ok? && Live() == [] ==> r.value == []
      ensures r.Ok? && Live() != [] ==> r.value == Matching(Live(), column, value, eps)
    {
      if index == -1 { return Ok([]); }
      if column >= cfg.cols { return Err(OutOfRange); }
      var mask, matchCount := MatchMask(column, value, eps);
      var rows := Gather(data[..index + 1], mask, matchCount, column, value, eps);
      r := Ok(rows);
    }

    /** The second pass of `filter`: the marked rows, copied in order into a matrix of the counted size. */
    static method Gather(live: seq<Row>, mask: seq<bool>, matchCount: nat, column: nat, ghost value: real,
                         ghost eps: real)
      returns (rows: seq<Row>)
      requires forall i :: 0 <= i < |live| ==> column < |live[i]|
      requires |mask| == |live| && matchCount == |Matching(live, column, value, eps)|
      requires forall j :: 0 <= j < |mask| ==> mask[j] == (Abs(live[j][column] - value) <= eps)
      ensures rows == Matching(live, column, value, eps)
    {
      var result := new Row[matchCount];
      var row := 0;
      for i := 0 to |live|
        invariant row <= matchCount
        invariant result[..row] == Matching(live[..i], column, value, eps)
      {
        MatchingPrefix(live, i + 1, column, value, eps);
        MatchingSnoc(live, i, column, value, eps);
        if mask[i] {
          CopyRow(result, row, live[i]);
          row := row + 1;
        }
      }
      assert live[..|live|] == live;
      assert result[..row] == result[..];
      rows := result[..];
    }

    static method CopyRow(rows: array<Row>, k: nat, item: Row)
      requires k < rows.Length
      modifies rows
      ensures rows[..k + 1] == old(rows[..k]) + [item]
    {
      rows[k] := item;
    }

    /** The first pass of `filter`: which live rows match, and how many. */
    method MatchMask(column: nat, value: real, eps: real) returns (mask: seq<bool>, matchCount: nat)
      requires Valid() && column < cfg.cols
      ensures |mask| == |Live()| && matchCount == |Matching(Live(), column, value, eps)|
      ensures forall j :: 0 <= j < |mask| ==> mask[j] == (Abs(Live()[j][column] - value) <= eps)
    {
      ghost var live := Live();
      mask := seq(index + 1, _ => false);
      matchCount := 0;
      for i := 0 to index + 1
        invariant |mask| == index + 1
        invariant matchCount == |Matching(live[..i], column, value, eps)|
        invariant forall j :: 0 <= j < i ==> mask[j] == (Abs(live[j][column] - value) <= eps)
        invariant forall j :: i <= j <= index ==> !mask[j]
      {
        assert live[..i + 1][..i] == live[..i];
        if Abs(data[i][column] - value) <= eps {
          matchCount := matchCount + 1;
          mask := mask[i := true];
        }
      }
      assert live[..index + 1] == live;
    }

    /** Adds up the whole buffer column, spare rows included. */
    method Sum(column: nat) returns (r: Result<real>)
      requires Valid()
      ensures r.Err? <==> cfg.cols <= column
      ensures r.Ok? ==> r.value == RowStoreContents.ColumnSum(Store().live + Store().tail, column)
    {
      if column >= cfg.cols { return Err(OutOfRange); }
      var total := 0.0;
      for i := 0 to data.Length
        invariant total == RowStoreContents.ColumnSum(data[..i], column)
      {
        assert data[..i + 1][..i] == data[..i];
        total := total + data[i][column];
      }
      assert data[..data.Length] == Store().live + Store().tail;
      r := Ok(total);
    }

    // -------------------------------------------------------------- mutations

    method Append(item: Row) returns (ok: bool)
      requires Valid()
      modifies this, data
      ensures ok <==> !Stuck(cfg, old(Store()))
      ensures ok ==> Valid() && Next(cfg, old(Store()), Op.Append(item), Store())
      ensures !ok ==> index == old(index) + 1 == data.Length
      ensures data == old(data) || fresh(data)
      ensures copied == old(copied) + RowStoreBounds.Copied(cfg, |old(Live())|, old(Capacity()), Op.Append(item))
    {
      ghost var s := Store();
      MakeRoom();
      if index + 1 >= data.Length {
        assert s.tail == [] && GrownCap(s.Cap(), cfg.bucket) == s.Cap();
        index := index + 1;   // the row view of the incremented index is refused
        return false;
      }
      assert Store() == RoomForOne(cfg, s);
      PushRow(item);
      DropIfDue();
      ok := true;
    }

    method AppendMultiple(items: seq<Row>)
      requires Valid()
      modifies this, data
      ensures Valid() && Next(cfg, old(Store()), Op.AppendMultiple(items), Store())
      ensures data == old(data) || fresh(data)
      ensures copied == old(copied)
        + RowStoreBounds.Copied(cfg, |old(Live())|, old(Capacity()), Op.AppendMultiple(items))
    {
      ghost var s := Store();
      var n := |items|;
      if n == 0 { return; }
      var newIndex := index + n;
      if newIndex >= data.Length {
        var newSize := Max(newIndex + 1, data.Length * 3 / 2);
        Resize(newSize);
      }
      assert Store() == RoomForMany(cfg, s, n);
      PushRows(items);
      DropIfDue();
    }

    method Flush()
      requires Valid()
      modifies this, data
      ensures Valid() && Next(cfg, old(Store()), Op.Flush, Store())
      ensures data == old(data) || fresh(data)
      ensures copied == old(copied)
    {
      index := -1;
      if data.Length > 2 * cfg.bucket {
        data := new Row[cfg.bucket](_ => ZeroRow(cfg.cols));
      }
      ResetRows();
    }

    method DeleteRow(idx: int) returns (e: Option<Error>)
      requires Valid()
      modifies this, data
      ensures e == if Position(idx, |old(Live())|).Some? then None else Some(OutOfRange)
      ensures e == None <==> -|old(Live())| <= idx < |old(Live())|
      ensures Valid() && Next(cfg, old(Store()), Op.Delete(idx), Store())
      ensures var was, k := old(Live()), if idx < 0 then |old(Live())| + idx else idx;
        if e == None then
          && |Live()| == |was| - 1
          && (forall i :: 0 <= i < k ==> Live()[i] == was[i])
          && (forall i :: k <= i < |Live()| ==> Live()[i] == was[i + 1])
        else Live() == was
      ensures data == old(data) || fresh(data)
      ensures copied == old(copied) + RowStoreBounds.Copied(cfg, |old(Live())|, old(Capacity()), Op.Delete(idx))
    {
      ghost var s, given := Store(), idx;
      if index == -1 { return Some(OutOfRange); }
      var idx := if idx < 0 then index + 1 - (-idx) else idx;
      if idx < 0 || idx > index { return Some(OutOfRange); }
      DeleteAt(idx);
      e := None;
      RowStoreEffects.DeleteExactly(cfg, s, given, Store());
    }

    /** Assignment through the row view of `operator[]`; the view refuses another width. */
    method SetRow(i: int, item: Row) returns (e: Option<Error>)
      requires Valid()
      modifies data
      ensures Valid()
      ensures e == if Position(i, |old(Live())|).None? then Some(OutOfRange)
                   else if |item| != cfg.cols then Some(SizeMismatch) else None
      ensures Store() == if e == None
        then State(old(Live())[Position(i, |old(Live())|).value := item], old(Store()).tail) else old(Store())
    {
      if At(i).Err? { return Some(OutOfRange); }
      if |item| != cfg.cols { return Some(SizeMismatch); }
      var k := if i < 0 then index + 1 + i else i;
      data[k] := item;
      e := None;
    }

    /** Assignment through the submatrix view of a slice; the view refuses another shape. */
    method SetRows(start: int, stop: int, items: seq<Row>) returns (e: Option<Error>)
      requires Valid()
      modifies data
      ensures Valid()
      ensures var (lo, hi) := SliceBounds(start, stop, |old(Live())|);
        && e == (if hi <= lo then Some(OutOfRange)
                 else if |items| != hi - lo || !AllWidth(items, cfg.cols) then Some(SizeMismatch) else None)
        && Store() == if e == None
             then State(old(Live())[..lo] + items + old(Live())[hi..], old(Store()).tail) else old(Store())
    {
      var view := Slice(start, stop);
      if view.Err? { return Some(view.error); }
      if |items| != |view.value| || !AllWidth(items, cfg.cols) { return Some(SizeMismatch); }
      var (lo, hi) := SliceBounds(start, stop, index + 1);
      WriteRows(lo, items);
      e := None;
    }

    // -------------------------------------------------------------- private

    /** The block assignment through a submatrix view. */
    method WriteRows(lo: nat, items: seq<Row>)
      requires Valid() && AllWidth(items, cfg.cols) && lo + |items| <= index + 1
      modifies data
      ensures Valid() && Store().tail == old(Store()).tail
      ensures Live() == old(Live())[..lo] + items + old(Live())[lo + |items|..]
    {
      var hi := lo + |items|;
      ghost var was := Live();
      forall i | lo <= i < hi { data[i] := items[i - lo]; }
      ghost var want := was[..lo] + items + was[hi..];
      forall i | 0 <= i <= index ensures data[i] == want[i] {
        if i < lo { assert want[i] == was[i]; }
        else if i < hi { assert want[i] == items[i - lo]; }
        else { assert want[i] == was[hi..][i - hi]; }
      }
      assert Live() == want;
    }

    /** The growth at the head of `append`. */
    method MakeRoom()
      requires Valid()
      modifies `data, `copied
      ensures Valid() && index == old(index) && (data == old(data) || fresh(data))
      ensures old(index) + 1 < old(data.Length) ==> data == old(data) && copied == old(copied)
      ensures old(index) + 1 == old(data.Length) ==>
        && data.Length == GrownCap(old(data.Length), cfg.bucket) && copied == old(copied) + |old(Live())|
        && Store() == Resized(old(Store()), data.Length, cfg.cols)
    {
      if index + 1 >= data.Length {
        var newSize := Max(1, Max(cfg.bucket, data.Length * 3 / 2));
        Resize(newSize);
      }
    }

    /** The increment, the column copy and the clearing of the remaining columns in `append`. */
    method PushRow(item: Row)
      requires Valid() && index + 1 < data.Length
      modifies `index, data
      ensures Valid()
      ensures Store() == State(old(Live()) + [Pad(item, cfg.cols)], old(Store()).tail[1..])
    {
      index := index + 1;
      var k := Min(cfg.cols, |item|);
      data[index] := item[..k] + data[index][k..];
      if k < cfg.cols {
        data[index] := data[index][..k] + ZeroRow(cfg.cols - k);
      }
      assert data[index] == Pad(item, cfg.cols);
      assert data[..index] == old(Live());
    }

    /** The block copy in `appendMultiple`. */
    method PushRows(items: seq<Row>)
      requires Valid() && index + |items| < data.Length
      modifies `index, data
      ensures Valid()
      ensures Store() == State(old(Live()) + Overlaid(items, old(Store()).tail), old(Store()).tail[|items|..])
    {
      var n, base := |items|, index + 1;
      forall i | base <= i < base + n {
        data[i] := Overlay(items[i - base], data[i]);
      }
      index := index + n;
      assert data[..base] == old(Live());
      assert data[base..base + n] == Overlaid(items, old(Store()).tail);
      assert data[..index + 1] == data[..base] + data[base..base + n];
    }

    /** The upward move of the later rows and the clearing of the last one in `deleteRow`. */
    method RemoveRow(k: nat)
      requires Valid() && k <= index
      modifies `index, data
      ensures Valid()
      ensures Store() == State(Without(old(Live()), k), [ZeroRow(cfg.cols)] + old(Store()).tail)
    {
      MoveUp(k);
      ghost var moved := data[..index];
      data[index] := ZeroRow(cfg.cols);
      index := index - 1;
      assert data[..index + 1] == moved;
      assert data[index + 2..] == old(data[index + 1..]);
      assert data[index + 1..] == [data[index + 1]] + data[index + 2..];
    }

    /** `deleteRow` behind its index checks. */
    method DeleteAt(k: nat)
      requires Valid() && k <= index
      modifies this, data
      ensures Valid() && Deleted(cfg, old(Store()), k, Store())
      ensures data == old(data) || fresh(data)
      ensures copied == old(copied) + if ShrinkDue(cfg, old(Capacity()), |old(Live())| - 1) then |Live()| else 0
    {
      RemoveRow(k);
      ShrinkIfDue();
    }

    /** The shrink test at the end of `deleteRow`. */
    method ShrinkIfDue()
      requires Valid()
      modifies `data, `copied
      ensures Valid() && Live() == old(Live()) && (data == old(data) || fresh(data))
      ensures if ShrinkDue(cfg, old(Capacity()), |Live()|)
        then Capacity() == ShrunkCap(cfg, old(Capacity())) && copied == old(copied) + |Live()|
        else Store() == old(Store()) && copied == old(copied)
    {
      if data.Length > cfg.bucket && index + 1 < data.Length / 4 {
        var newSize := Max(cfg.bucket, data.Length / 2);
        if newSize < data.Length {
          var shrunk := ShrinkToFit(newSize);
          assert shrunk;   // the argument check in shrinkToFit never fires here
        }
      }
    }

    method MoveUp(k: nat)
      requires Valid() && k <= index
      modifies data
      ensures Valid() && data[..index] == Without(old(Live()), k)
      ensures data[index + 1..] == old(data[index + 1..])
    {
      if k < index {
        forall i | k <= i < index { data[i] := data[i + 1]; }
      }
      ghost var was, want := old(Live()), Without(old(Live()), k);
      forall i | 0 <= i < index ensures data[i] == want[i] {
        if i < k { assert want[i] == was[i]; } else { assert want[i] == was[i + 1]; }
      }
      assert |want| == index && data[..index] == want;
      assert data[index + 1..] == old(data[index + 1..]);
    }

    /** The drop test at the end of `append` and of `appendMultiple`. */
    method DropIfDue()
      requires Valid()
      modifies `index, data
      ensures Valid() && Store() == Dropped(cfg, old(Store()))
    {
      if cfg.dropAt.Some? && (index + 1) % cfg.dropAt.value == 0 {
        var toDrop := cfg.dropAt.value / 2;
        var shifted := ShiftMatrix(-toDrop);
      }
    }

    method ResetRows()
      requires cfg.Valid() && index == -1
      requires forall i :: 0 <= i < data.Length ==> |data[i]| == cfg.cols
      modifies data
      ensures Valid() && Store() == State([], ZeroRows(data.Length, cfg.cols))
    {
      forall i | 0 <= i < data.Length { data[i] := ZeroRow(cfg.cols); }
      assert data[..0] == [];
      assert data[0..] == ZeroRows(data.Length, cfg.cols);
    }

    method Resize(newRows: nat)
      requires Valid() && index < newRows
      modifies `data, `copied
      ensures Valid() && fresh(data) && data.Length == newRows
      ensures Store() == Resized(old(Store()), newRows, cfg.cols)
      ensures copied == old(copied) + |old(Live())|
    {
      var newData := LiveCopy(newRows);
      copied := copied + (index + 1);
      data := newData;
    }

    /** A zeroed matrix with the live rows copied into it. */
    method LiveCopy(newRows: nat) returns (newData: array<Row>)
      requires Valid() && index < newRows
      ensures fresh(newData) && newData.Length == newRows
      ensures newData[..index + 1] == Live() && newData[index + 1..] == ZeroRows(newRows - (index + 1), cfg.cols)
      ensures forall i :: 0 <= i < newRows ==> |newData[i]| == cfg.cols
    {
      newData := new Row[newRows](_ => ZeroRow(cfg.cols));
      CopyLive(newData);
      AreZeroRows(newData[index + 1..], cfg.cols);
    }

    method CopyLive(to: array<Row>)
      requires Valid() && index < to.Length && to != data
      modifies to
      ensures to[..index + 1] == Live()
      ensures forall j :: index < j < to.Length ==> to[j] == old(to[j])
    {
      if index >= 0 {
        forall i | 0 <= i <= index { to[i] := data[i]; }
      }
    }

    /** A matrix as its constructor leaves it: the right shape, any values. */
    method AllocateRows(n: nat) returns (rows: array<Row>)
      ensures fresh(rows) && rows.Length == n
      ensures forall i :: 0 <= i < n ==> |rows[i]| == cfg.cols
    {
      rows := new Row[n];
      for i := 0 to n
        invariant forall j :: 0 <= j < i ==> |rows[j]| == cfg.cols
      {
        if |rows[i]| != cfg.cols { rows[i] := ZeroRow(cfg.cols); }
      }
    }

    method ShrinkToFit(newSize: nat) returns (ok: bool)
      requires Valid()
      modifies `data, `copied
      ensures Valid() && (ok <==> index < newSize)
      ensures !ok || newSize >= old(data.Length) ==> data == old(data) && copied == old(copied)
      ensures ok && newSize < old(data.Length) ==>
        && fresh(data) && data.Length == newSize
        && Live() == old(Live()) && copied == old(copied) + |Live()|
    {
      if newSize <= index { return false; }
      if newSize < data.Length {
        var newData := AllocateRows(newSize);
        CopyLive(newData);
        copied := copied + (index + 1);
        data := newData;
        assert data[..index + 1] == old(data[..index + 1]);
      }
      ok := true;
    }

    method ShiftMatrix(n: int) returns (ok: bool)
      requires Valid()
      modifies `index, data
      ensures Valid() && (ok <==> n <= 0)
      ensures Store() == if n < 0 then Shifted(old(Store()), -n, cfg.cols) else old(Store())
    {
      if n == 0 { return true; }
      if n > 0 { return false; }
      var absN := -n;
      index := index - absN;
      if index < 0 {
        index := -1;
        ResetRows();
        return true;
      }
      MoveBack(absN);
      ClearRows(absN);
      ok := true;
    }

    /** The block move of `shiftMatrix`: the rows that stay, to the front. */
    method MoveBack(n: nat)
      requires Valid() && 0 <= index && index + n < data.Length
      modifies data
      ensures Valid() && data[..index + 1] == old(data[n..n + index + 1])
      ensures data[index + 1 + n..] == old(data[index + 1 + n..])
    {
      forall i | 0 <= i < index + 1 { data[i] := data[i + n]; }
      assert forall i :: 0 <= i < index + 1 ==> data[i] == old(data[n..n + index + 1])[i];
    }

    /** The clearing loop of `shiftMatrix`. */
    method ClearRows(n: nat)
      requires Valid() && 0 <= index && index + n < data.Length
      modifies data
      ensures Valid() && data[..index + 1] == old(data[..index + 1])
      ensures data[index + 1..] == ZeroRows(n, cfg.cols) + old(data[index + 1 + n..])
    {
      var remaining := index + 1;
      for i := remaining to Min(remaining + n, data.Length)
        invariant forall j :: 0 <= j < data.Length ==> |data[j]| == cfg.cols
        invariant forall j :: remaining <= j < i ==> data[j] == ZeroRow(cfg.cols)
        invariant forall j :: 0 <= j < remaining || i <= j < data.Length ==> data[j] == old(data[j])
      {
        data[i] := ZeroRow(cfg.cols);
      }
      assert data[remaining..remaining + n] == ZeroRows(n, cfg.cols);
      assert data[remaining + n..] == old(data[remaining + n..]);
      assert data[remaining..] == data[remaining..remaining + n] + data[remaining + n..];
    }
  }
}
