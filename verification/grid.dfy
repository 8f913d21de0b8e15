/** The playing field: a fixed grid of cells, each empty or holding the colour
    of the piece that locked there. */
module Grid {

  /** Board width and height in cells. */
  const Cols: int := 10
  const Rows: int := 20

  /** The empty cell; any other string is the colour of a locked block. */
  const Empty: string := ""

  type Row = seq<string>
  type Board = seq<Row>

  /** The board keeps its dimensions for the whole session. */
  predicate WellFormed(b: Board) {
    |b| == Rows && forall y :: 0 <= y < |b| ==> |b[y]| == Cols
  }

  /** A row with no empty cell; such a row is removed by line clearing. */
  predicate Full(row: Row) {
    Empty !in row
  }

  function EmptyRow(): (r: Row)
    ensures |r| == Cols && !Full(r)
    ensures forall x :: 0 <= x < |r| ==> r[x] == Empty
  {
    var r := seq(Cols, _ => Empty);
    assert r[0] == Empty;
    r
  }

  /** `k` empty rows, used as filler on top of the board after a clear. */
  function EmptyRows(k: nat): (rs: Board)
    ensures |rs| == k
    ensures forall y :: 0 <= y < k ==> rs[y] == EmptyRow()
  {
    seq(k, _ => EmptyRow())
  }

  /** The board the game starts and restarts with. */
  function EmptyBoard(): (b: Board)
    ensures WellFormed(b)
    ensures forall y, x :: 0 <= y < Rows && 0 <= x < Cols ==> b[y][x] == Empty
  {
    EmptyRows(Rows)
  }
}
