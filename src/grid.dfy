/**
 * The quick-view grid of the web copy: one label per seat, in ascending seat
 * order, green for a scored seat and white for an unscored one, laid out ten to
 * a row.
 */
module Grid {
  import opened Wrappers
  import opened Text
  import opened Store

  /** `cols_per_row`. */
  const ColsPerRow: nat := 10

  const GreenMark: char := '\U{1F7E2}'
  const WhiteMark: char := '\U{26AA}'

  /** `f"🟢 {key:02d}"` for a scored seat, `f"⚪ {key:02d}"` otherwise. */
  function Label(seat: int, score: Option<int>): (s: string)
    ensures |s| >= 4 && s[1] == ' '
    ensures s[0] == GreenMark <==> score.Some?
    ensures s[0] == WhiteMark <==> score == None
    ensures ParseInt(s[2..]) == Some(seat)
  {
    var mark := if score.Some? then GreenMark else WhiteMark;
    var s := [mark, ' '] + Format02(seat);
    assert s[2..] == Format02(seat);
    s
  }

  /** The labels of the seats of `order`, in that order. */
  function Labels(m: Table, order: seq<int>): (labels: seq<string>)
    requires forall i :: 0 <= i < |order| ==> order[i] in m
    ensures |labels| == |order|
    ensures forall i :: 0 <= i < |order| ==> labels[i] == Label(order[i], m[order[i]])
  {
    seq(|order|, i requires 0 <= i < |order| => Label(order[i], m[order[i]]))
  }

  /** The rows read left to right, top to bottom. */
  function Flatten<T>(rows: seq<seq<T>>): seq<T>
  {
    if rows == [] then [] else Flatten(rows[..|rows| - 1]) + rows[|rows| - 1]
  }

  /** Every row but the last is full, and the last one is not empty. */
  predicate Chunked<T>(rows: seq<seq<T>>, width: nat)
  {
    && (forall i :: 0 <= i < |rows| - 1 ==> |rows[i]| == width)
    && (|rows| > 0 ==> 0 < |rows[|rows| - 1]| <= width)
  }

  lemma FlattenAppend<T>(rows: seq<seq<T>>, row: seq<T>)
    ensures Flatten(rows + [row]) == Flatten(rows) + row
  {
    assert (rows + [row])[..|rows|] == rows;
  }

  /**
   * The grid loop: append each item to the current row, close the row when it
   * holds `width` items, and close a last partial row at the end.
   */
  method ChunkRows<T>(items: seq<T>, width: nat) returns (rows: seq<seq<T>>)
    requires width > 0
    ensures Flatten(rows) == items
    ensures Chunked(rows, width)
  {
    rows := [];
    var current: seq<T> := [];
    var i := 0;
    while i < |items|
      invariant 0 <= i <= |items|
      invariant Flatten(rows) + current == items[..i]
      invariant |current| < width
      invariant forall r :: 0 <= r < |rows| ==> |rows[r]| == width
    {
      assert items[..i + 1] == items[..i] + [items[i]];
      current := current + [items[i]];
      if |current| == width {
        FlattenAppend(rows, current);
        rows := rows + [current];
        current := [];
      }
      i := i + 1;
    }
    assert items[..|items|] == items;
    if current != [] {
      FlattenAppend(rows, current);
      rows := rows + [current];
    }
  }

  /** The grid of the web copy: the seat labels of `order`, `ColsPerRow` to a row. */
  method GridRows(m: Table, order: seq<int>) returns (rows: seq<seq<string>>)
    requires forall i :: 0 <= i < |order| ==> order[i] in m
    ensures Flatten(rows) == Labels(m, order)
    ensures Chunked(rows, ColsPerRow)
  {
    rows := ChunkRows(Labels(m, order), ColsPerRow);
  }

  /** Chunked rows hold as many rows as the items need and no more: all but the
      last are full, so the count is the item count over the width, rounded up. */
  lemma {:induction false} ChunkedRowCount<T>(rows: seq<seq<T>>, width: nat)
    requires Chunked(rows, width)
    ensures (|rows| - 1) * width < |Flatten(rows)| <= |rows| * width || rows == []
  {
    if rows != [] {
      var n := |rows| - 1;
      FullRowsLength(rows[..n], width);
      assert rows[..n] == rows[..|rows| - 1];
      assert |Flatten(rows)| == n * width + |rows[n]|;
      assert |rows| * width == n * width + width;
    }
  }

  lemma {:induction false} FullRowsLength<T>(rows: seq<seq<T>>, width: nat)
    requires forall i :: 0 <= i < |rows| ==> |rows[i]| == width
    ensures |Flatten(rows)| == |rows| * width
  {
    if rows != [] {
      var n := |rows| - 1;
      FullRowsLength(rows[..n], width);
      assert |Flatten(rows)| == n * width + width;
      assert n * width + width == |rows| * width;
    }
  }
}
