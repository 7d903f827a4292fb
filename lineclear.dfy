/**
 * Removal of full rows (src/components/Tetris.tsx, second half of
 * mergePiece): the surviving rows keep their order and are pushed down
 * under as many fresh empty rows as were removed.
 */
module LineClear {
  import opened Wrappers
  import opened Tetrominoes
  import opened Board

  /** The rows that are not full, in their original order. */
  function Survivors(rows: Grid): (kept: Grid)
    ensures |kept| + FullCount(rows) == |rows|
  {
    if rows == [] then []
    else
      var last := rows[|rows| - 1];
      assert rows == rows[..|rows| - 1] + [last];
      Survivors(rows[..|rows| - 1]) + (if Full(last) then [] else [last])
  }

  /** The number of full rows. */
  function FullCount(rows: Grid): (n: nat)
    ensures n <= |rows|
  {
    if rows == [] then 0
    else FullCount(rows[..|rows| - 1]) + (if Full(rows[|rows| - 1]) then 1 else 0)
  }

  /** The board after the line clear: one empty row on top for each full row removed. */
  function ClearLines(b: Grid): (r: Grid)
    requires WellFormed(b)
    ensures WellFormed(r) && NoFullRow(r)
    ensures forall k :: 0 <= k < FullCount(b) ==> r[k] == EmptyRow()
  {
    SurvivorsExactly(b);
    var top := seq(FullCount(b), _ => EmptyRow());
    var r := top + Survivors(b);
    assert forall k :: 0 <= k < |top| ==> r[k] == EmptyRow() && r[k][0] == None;
    assert forall k :: |top| <= k < |r| ==> r[k] == Survivors(b)[k - |top|] && r[k] in Survivors(b);
    r
  }

  /** Filtering distributes over concatenation, so survivors keep their relative order. */
  lemma {:induction false} SurvivorsAppend(a: Grid, c: Grid)
    ensures Survivors(a + c) == Survivors(a) + Survivors(c)
    ensures FullCount(a + c) == FullCount(a) + FullCount(c)
    decreases |c|
  {
    if c == [] {
      assert a + c == a;
    } else {
      var front := c[..|c| - 1];
      SplitLast(a, c);
      SurvivorsAppend(a, front);
    }
  }

  /** Dropping the last row of a + c, for c non-empty, drops the last row of c. */
  lemma SplitLast(a: Grid, c: Grid)
    requires c != []
    ensures (a + c)[..|a + c| - 1] == a + c[..|c| - 1]
    ensures (a + c)[|a + c| - 1] == c[|c| - 1]
  {
  }

  /** A row survives exactly when it is a row of the board and is not full. */
  lemma {:induction false} SurvivorsExactly(rows: Grid)
    ensures forall row :: row in Survivors(rows) <==> row in rows && !Full(row)
  {
    if rows != [] {
      var front, last := rows[..|rows| - 1], rows[|rows| - 1];
      assert rows == front + [last];
      SurvivorsExactly(front);
    }
  }

  /** Rows with no full row among them all survive, and none is counted. */
  lemma {:induction false} SurvivorsOfOpenRows(rows: Grid)
    requires NoFullRow(rows)
    ensures Survivors(rows) == rows && FullCount(rows) == 0
  {
    if rows != [] {
      SurvivorsOfOpenRows(rows[..|rows| - 1]);
      assert rows == rows[..|rows| - 1] + [rows[|rows| - 1]];
    }
  }

  /** A merge that completes no row leaves the board as it is. */
  lemma ClearLinesNoFullRow(b: Grid)
    requires WellFormed(b) && NoFullRow(b)
    ensures ClearLines(b) == b
  {
    SurvivorsOfOpenRows(b);
  }

  /** Clearing twice clears nothing more. */
  lemma ClearLinesIdempotent(b: Grid)
    requires WellFormed(b)
    ensures ClearLines(ClearLines(b)) == ClearLines(b)
  {
    ClearLinesNoFullRow(ClearLines(b));
  }

  /**
   * A board whose only full row is row k: that row disappears, the rows
   * above it move down one, the rows below stay, and one empty row appears
   * at the top.
   */
  lemma ClearOneRow(b: Grid, k: int)
    requires WellFormed(b) && 0 <= k < Height && Full(b[k])
    requires forall r :: 0 <= r < Height && r != k ==> !Full(b[r])
    ensures FullCount(b) == 1
    ensures ClearLines(b) == [EmptyRow()] + b[..k] + b[k + 1..]
  {
    OpenSlice(b, 0, k);
    OpenSlice(b, k + 1, |b|);
    assert b == b[..k] + [b[k]] + b[k + 1..];
    SurvivorsAroundFullRow(b[..k], b[k], b[k + 1..]);
    assert seq(FullCount(b), _ => EmptyRow()) == [EmptyRow()];
  }

  /** Only the full row between two stretches of open rows is dropped by the filter. */
  lemma SurvivorsAroundFullRow(above: Grid, row: Row, below: Grid)
    requires NoFullRow(above) && Full(row) && NoFullRow(below)
    ensures FullCount(above + [row] + below) == 1
    ensures Survivors(above + [row] + below) == above + below
  {
    SurvivorsBeforeFullRow(above, row);
    SurvivorsOfOpenRows(below);
    SurvivorsAppend(above + [row], below);
  }

  /** A full row after a stretch of open rows is the only row dropped. */
  lemma SurvivorsBeforeFullRow(above: Grid, row: Row)
    requires NoFullRow(above) && Full(row)
    ensures FullCount(above + [row]) == 1
    ensures Survivors(above + [row]) == above
  {
    SurvivorsOfOpenRows(above);
    SurvivorsOfFullRow(row);
    SurvivorsAppend(above, [row]);
  }

  /** A stretch of rows that avoids every full row has no full row. */
  lemma OpenSlice(rows: Grid, lo: int, hi: int)
    requires 0 <= lo <= hi <= |rows|
    requires forall r :: lo <= r < hi ==> !Full(rows[r])
    ensures NoFullRow(rows[lo..hi])
  {
  }

  /** A single full row is removed and counted. */
  lemma SurvivorsOfFullRow(row: Row)
    requires Full(row)
    ensures Survivors([row]) == [] && FullCount([row]) == 1
  {
  }

  /**
   * If every full row has its index in S and S holds only row indices,
   * there are at most |S| full rows.
   */
  lemma {:induction false} FullCountWithin(rows: Grid, s: set<int>)
    requires forall k :: 0 <= k < |rows| && Full(rows[k]) ==> k in s
    requires forall k :: k in s ==> 0 <= k < |rows|
    ensures FullCount(rows) <= |s|
  {
    if rows != [] {
      var n := |rows| - 1;
      var front := rows[..n];
      FullCountWithin(front, s - {n});
      if n in s {
        assert |s - {n}| == |s| - 1;
      } else {
        assert s - {n} == s;
      }
    }
  }

  /**
   * Writing a piece into a board without full rows completes at most one
   * row per cell of the piece: each newly full row must hold a cell of the
   * piece.
   */
  lemma FullCountAfterStamp(b: Grid, pos: Pos, shape: Shape, c: Color)
    requires WellFormed(b) && NoFullRow(b) && InColumns(pos, shape)
    ensures FullCount(Stamp(b, pos, shape, c)) <= |shape|
  {
    var r := Stamp(b, pos, shape, c);
    var ys := RowsTouched(pos, shape);
    StampCells(b, pos, shape, c);
    forall k | 0 <= k < |r| && Full(r[k])
      ensures k in ys
    {
      assert !Full(b[k]);
      var x :| 0 <= x < |b[k]| && b[k][x].None?;
      assert r[k][x].Some?;
      assert Covers(pos, shape, k, x);
      var i :| 0 <= i < |shape| && pos.y + shape[i].dy == k && pos.x + shape[i].dx == x;
      RowTouched(pos, shape, i);
    }
    FullCountWithin(r, ys);
  }
}
