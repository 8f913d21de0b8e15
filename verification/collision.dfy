/** The placement test every move, rotation and spawn goes through. */
module Collision {
  import opened Grid
  import opened Shapes
  import opened Tetromino
  import opened Wrappers

  /** A block may sit at column `x`, row `y` when it is inside the side
      walls, above the floor, and, if it is on the visible board (y >= 0),
      on an empty cell. Rows above the board are checked only against the
      walls. */
  predicate CellOk(b: Board, x: int, y: int)
    requires WellFormed(b)
  {
    0 <= x < Cols && y < Rows && (0 <= y ==> b[y][x] == Empty)
  }

  /** Reference definition: every block of `shape`, with the matrix's
      top-left cell placed at (x, y), passes `CellOk`. */
  ghost predicate Fits(shape: Shape, b: Board, x: int, y: int)
    requires WellFormed(b)
  {
    forall i, j :: 0 <= i < |shape| && 0 <= j < |shape[i]| && shape[i][j] != 0 ==> CellOk(b, x + j, y + i)
  }

  /** The inner loop of the test: the blocks of `row` from column `j` on,
      the row being placed at board row `y` with its first cell at `x`. */
  function RowFits(row: seq<int>, b: Board, x: int, y: int, j: nat): (ok: bool)
    requires WellFormed(b) && j <= |row|
    ensures ok <==> forall k :: j <= k < |row| && row[k] != 0 ==> CellOk(b, x + k, y)
    decreases |row| - j
  {
    if j == |row| then true
    else if row[j] != 0 && !CellOk(b, x + j, y) then false
    else RowFits(row, b, x, y, j + 1)
  }

  /** The outer loop of the test: the rows of `shape` from row `i` on. */
  function RowsFit(shape: Shape, b: Board, x: int, y: int, i: nat): (ok: bool)
    requires WellFormed(b) && i <= |shape|
    ensures ok <==> forall k, j :: i <= k < |shape| && 0 <= j < |shape[k]| && shape[k][j] != 0 ==> CellOk(b, x + j, y + k)
    decreases |shape| - i
  {
    if i == |shape| then true
    else if !RowFits(shape[i], b, x, y + i, 0) then false
    else RowsFit(shape, b, x, y, i + 1)
  }

  /** Whether piece `p`, shifted by (dx, dy) and carrying `rotated` instead
      of its own shape when one is given, may stand on `b`. It is false
      exactly when some block leaves the side walls, passes the floor, or
      lands on a filled cell of the visible board. */
  function IsValidMove(p: Piece, b: Board, dx: int, dy: int, rotated: Option<Shape>): (ok: bool)
    requires WellFormed(b)
    ensures var shape := if rotated.Some? then rotated.value else p.shape;
      ok <==> Fits(shape, b, p.pos.x + dx, p.pos.y + dy)
  {
    var shape := if rotated.Some? then rotated.value else p.shape;
    RowsFit(shape, b, p.pos.x + dx, p.pos.y + dy, 0)
  }

  /** The spawn check: a fresh piece of kind `k` is valid exactly when its
      template fits with its top-left cell at column 4, row 0. */
  lemma SpawnValidity(k: Kind, b: Board)
    requires WellFormed(b)
    ensures IsValidMove(Spawn(k), b, 0, 0, None) == Fits(Template(k), b, 4, 0)
  {
  }

  /** A block outside the walls or below the floor makes the placement
      invalid whatever the board holds. */
  lemma OutOfBoundsRejects(shape: Shape, b: Board, x: int, y: int, i: int, j: int)
    requires WellFormed(b)
    requires 0 <= i < |shape| && 0 <= j < |shape[i]| && shape[i][j] != 0
    requires x + j < 0 || x + j >= Cols || y + i >= Rows
    ensures !Fits(shape, b, x, y)
  {
    assert !CellOk(b, x + j, y + i);
  }

  /** Rows above the board are checked only against the walls: a shape
      whose blocks all lie above row 0 and within columns 0..9 fits
      whatever the board holds. */
  lemma AboveBoardFits(shape: Shape, b: Board, x: int, y: int)
    requires WellFormed(b)
    requires forall i, j :: 0 <= i < |shape| && 0 <= j < |shape[i]| && shape[i][j] != 0 ==>
      0 <= x + j < Cols && y + i < 0
    ensures Fits(shape, b, x, y)
  {
  }

  /** A shape of at most 4 by 4 cells fits at the spawn position of an
      empty board. */
  lemma SmallShapeFitsEmptyBoard(shape: Shape)
    requires |shape| <= 4 && forall i :: 0 <= i < |shape| ==> |shape[i]| <= 4
    ensures Fits(shape, EmptyBoard(), Cols / 2 - 1, 0)
  {
  }

  /** On the initial empty board every spawned piece is validly placed. */
  lemma SpawnFitsEmptyBoard(k: Kind)
    ensures IsValidMove(Spawn(k), EmptyBoard(), 0, 0, None)
  {
    TemplateFacts(k);
    SmallShapeFitsEmptyBoard(Template(k));
  }
}
