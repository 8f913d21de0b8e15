/** Removing completed rows after a piece locks. */
module Lines {
  import opened Grid

  /** The rows that are not full, in their original top-to-bottom order. */
  function Keep(rows: Board): (kept: Board)
    ensures |kept| <= |rows|
    ensures forall r :: r in kept ==> r in rows && !Full(r)
    ensures forall r :: r in rows && !Full(r) ==> r in kept
  {
    if |rows| == 0 then []
    else (if Full(rows[0]) then [] else [rows[0]]) + Keep(rows[1..])
  }

  /** Filtering distributes over concatenation, so it keeps the relative
      order of the rows it keeps. */
  lemma {:induction false} KeepAppend(a: Board, b: Board)
    ensures Keep(a + b) == Keep(a) + Keep(b)
    decreases |a|
  {
    if |a| == 0 {
      assert a + b == b;
    } else {
      assert (a + b)[1..] == a[1..] + b;
      KeepAppend(a[1..], b);
    }
  }

  /** With no full row the filter keeps everything. */
  lemma {:induction false} KeepNoneFull(rows: Board)
    requires forall y :: 0 <= y < |rows| ==> !Full(rows[y])
    ensures Keep(rows) == rows
    decreases |rows|
  {
    if |rows| > 0 {
      KeepNoneFull(rows[1..]);
    }
  }

  /** The indices of the full rows. */
  ghost function FullIndices(b: Board): set<int> {
    set y | 0 <= y < |b| && Full(b[y])
  }

  /** Reference count: the number of row indices holding a full row. */
  ghost function FullRowCount(b: Board): nat {
    |FullIndices(b)|
  }

  /** Appending a row adds its index to the full indices exactly when it is
      full. */
  lemma FullIndicesSnoc(front: Board, last: Row)
    ensures FullIndices(front + [last]) ==
      FullIndices(front) + (if Full(last) then {|front|} else {})
  {
    var rows := front + [last];
    forall y | 0 <= y < |front|
      ensures rows[y] == front[y]
    {
    }
  }

  /** Every row is either kept or counted as full. */
  lemma {:induction false} KeepCount(rows: Board)
    ensures |Keep(rows)| + FullRowCount(rows) == |rows|
    decreases |rows|
  {
    if |rows| > 0 {
      var n := |rows| - 1;
      var front, last := rows[..n], rows[n];
      assert rows == front + [last];
      KeepAppend(front, [last]);
      KeepCount(front);
      assert Keep([last]) == if Full(last) then [] else [last] by {
        assert [last][1..] == [];
      }
      FullIndicesSnoc(front, last);
      assert n !in FullIndices(front);
    }
  }

  /** With no full row the reference count is zero. */
  lemma NoFullRowCountsZero(b: Board)
    requires forall y :: 0 <= y < |b| ==> !Full(b[y])
    ensures FullRowCount(b) == 0
  {
    assert FullIndices(b) == {};
  }

  /** A zero reference count means no row is full. */
  lemma ZeroCountNoFullRow(b: Board)
    requires FullRowCount(b) == 0
    ensures forall y :: 0 <= y < |b| ==> !Full(b[y])
  {
    assert FullIndices(b) == {};
    forall y | 0 <= y < |b|
      ensures !Full(b[y])
    {
      assert y !in FullIndices(b);
    }
  }

  datatype Cleared = Cleared(board: Board, lines: nat)

  /** Drops every full row and puts as many empty rows on top, so the rows
      above a cleared one move down. The number of cleared rows is the number
      of full rows; with none, the board comes back unchanged. */
  function ClearLines(b: Board): (c: Cleared)
    requires WellFormed(b)
    ensures WellFormed(c.board)
    ensures c.lines == FullRowCount(b)
    ensures c.board == EmptyRows(c.lines) + Keep(b)
    ensures c.lines == 0 ==> c.board == b
  {
    KeepCount(b);
    var kept := Keep(b);
    var lines := Rows - |kept|;
    if lines > 0 then
      var nb := EmptyRows(lines) + kept;
      assert forall y :: lines <= y < Rows ==> nb[y] in b;
      Cleared(nb, lines)
    else
      ZeroCountNoFullRow(b);
      KeepNoneFull(b);
      Cleared(b, 0)
  }

  /** After a clear no row is full, so a second clear removes nothing and
      returns its input. */
  lemma ClearLinesIdempotent(b: Board)
    requires WellFormed(b)
    ensures var c := ClearLines(b);
      ClearLines(c.board) == Cleared(c.board, 0)
  {
    var c := ClearLines(b);
    forall y | 0 <= y < |c.board|
      ensures !Full(c.board[y])
    {
      if y >= c.lines {
        assert c.board[y] in Keep(b);
      }
    }
    NoFullRowCountsZero(c.board);
  }
}
