/** The game record and the transitions on it: gravity with lock, line
    clear and respawn, and the three piece commands. */
module Engine {
  import opened Grid
  import opened Shapes
  import opened Tetromino
  import opened Collision
  import opened Lines
  import opened Wrappers

  /** Points per cleared row. */
  const LinePoints: nat := 100

  /** One game session. `active` is set by the start button; `lastTime` is
      the time of the last gravity step taken by the clock. */
  datatype Game = Game(board: Board, piece: Piece, score: nat, gameOver: bool, active: bool, lastTime: int)

  /** Whether the block of `shape` at row `y - y0`, column `x - x0` exists,
      looking only at shape rows from `from` on. */
  predicate CoversFrom(shape: Shape, x0: int, y0: int, x: int, y: int, from: nat) {
    var i, j := y - y0, x - x0;
    from <= i < |shape| && 0 <= j < |shape[i]| && shape[i][j] != 0
  }

  /** Whether piece `p` has a block on board cell (x, y). */
  predicate Covers(p: Piece, x: int, y: int) {
    CoversFrom(p.shape, p.pos.x, p.pos.y, x, y, 0)
  }

  /** Writes `color` at (x, y) when that cell is on the board. */
  function Paint(b: Board, x: int, y: int, color: string): (m: Board)
    requires WellFormed(b)
    ensures WellFormed(m)
  {
    if 0 <= y < Rows && 0 <= x < Cols then b[y := b[y][x := color]] else b
  }

  /** Paints the blocks of `row` from column `j` on, the row standing at
      board row `y` with its first cell at column `x0`. */
  function PaintRow(b: Board, row: seq<int>, x0: int, y: int, j: nat, color: string): (m: Board)
    requires WellFormed(b) && j <= |row|
    ensures WellFormed(m)
    ensures forall yy, xx :: 0 <= yy < Rows && 0 <= xx < Cols ==>
      m[yy][xx] == if yy == y && j <= xx - x0 < |row| && row[xx - x0] != 0 then color else b[yy][xx]
    decreases |row| - j
  {
    if j == |row| then b
    else
      var next := if row[j] != 0 then Paint(b, x0 + j, y, color) else b;
      PaintRow(next, row, x0, y, j + 1, color)
  }

  /** Paints the rows of `shape` from row `i` on. */
  function PaintRows(b: Board, shape: Shape, x0: int, y0: int, i: nat, color: string): (m: Board)
    requires WellFormed(b) && i <= |shape|
    ensures WellFormed(m)
    ensures forall yy, xx :: 0 <= yy < Rows && 0 <= xx < Cols ==>
      m[yy][xx] == if CoversFrom(shape, x0, y0, xx, yy, i) then color else b[yy][xx]
    decreases |shape| - i
  {
    if i == |shape| then b
    else PaintRows(PaintRow(b, shape[i], x0, y0 + i, 0, color), shape, x0, y0, i + 1, color)
  }

  /** Locks piece `p` into `b`: its colour on every board cell it covers,
      every other cell as it was. Blocks above the board are dropped. */
  function Merge(b: Board, p: Piece): (m: Board)
    requires WellFormed(b)
    ensures WellFormed(m)
    ensures forall y, x :: 0 <= y < Rows && 0 <= x < Cols ==>
      m[y][x] == if Covers(p, x, y) then p.color else b[y][x]
  {
    PaintRows(b, p.shape, p.pos.x, p.pos.y, 0, p.color)
  }

  /** The piece moved by (dx, dy). */
  function Moved(p: Piece, dx: int, dy: int): Piece {
    p.(pos := Pos(p.pos.x + dx, p.pos.y + dy))
  }

  /** Locking the piece: the merged board is line-cleared, the score rises
      by 100 per cleared row, and a piece of kind `next` spawns. If the
      spawned piece does not fit on the cleared board the game is over and
      the old piece stays; otherwise the new piece replaces it. */
  function Lock(g: Game, next: Kind): (r: Game)
    requires WellFormed(g.board)
    ensures WellFormed(r.board)
    ensures r.active == g.active && r.lastTime == g.lastTime
    ensures var merged := Merge(g.board, g.piece);
      && r.board == ClearLines(merged).board
      && r.score == g.score + LinePoints * FullRowCount(merged)
    ensures var spawnOk := Fits(Template(next), r.board, 4, 0);
      && r.gameOver == (g.gameOver || !spawnOk)
      && r.piece == if spawnOk then Spawn(next) else g.piece
  {
    var c := ClearLines(Merge(g.board, g.piece));
    var score := g.score + c.lines * LinePoints;
    var nextPiece := Spawn(next);
    SpawnValidity(next, c.board);
    var spawnOk := IsValidMove(nextPiece, c.board, 0, 0, None);
    if !spawnOk then
      g.(board := c.board, score := score, gameOver := true)
    else
      g.(board := c.board, score := score, piece := nextPiece)
  }

  /** The piece one row lower, everything else as it was. */
  function Fall(g: Game): (r: Game)
    ensures r.board == g.board && r.score == g.score && r.gameOver == g.gameOver
    ensures r.active == g.active && r.lastTime == g.lastTime
    ensures r.piece.shape == g.piece.shape && r.piece.color == g.piece.color
    ensures r.piece.pos == Pos(g.piece.pos.x, g.piece.pos.y + 1)
  {
    g.(piece := Moved(g.piece, 0, 1))
  }

  /** Gravity step. If the piece can go one row down it does, and nothing
      else changes; otherwise it locks. */
  function Drop(g: Game, next: Kind): (r: Game)
    requires WellFormed(g.board)
    ensures WellFormed(r.board)
    ensures Fits(g.piece.shape, g.board, g.piece.pos.x, g.piece.pos.y + 1) ==>
      r == Fall(g)
    ensures !Fits(g.piece.shape, g.board, g.piece.pos.x, g.piece.pos.y + 1) ==>
      r == Lock(g, next)
  {
    var free := IsValidMove(g.piece, g.board, 0, 1, None);
    assert free == Fits(g.piece.shape, g.board, g.piece.pos.x, g.piece.pos.y + 1);
    if free then Fall(g) else Lock(g, next)
  }

  /** The two cases of a gravity step, each as an equation. */
  lemma DropFalls(g: Game, next: Kind)
    requires WellFormed(g.board)
    requires Fits(g.piece.shape, g.board, g.piece.pos.x, g.piece.pos.y + 1)
    ensures Drop(g, next) == Fall(g)
  {
  }

  lemma DropLocks(g: Game, next: Kind)
    requires WellFormed(g.board)
    requires !Fits(g.piece.shape, g.board, g.piece.pos.x, g.piece.pos.y + 1)
    ensures Drop(g, next) == Lock(g, next)
  {
  }

  /** One column left when the moved piece fits; otherwise nothing changes. */
  function MoveLeft(g: Game): (r: Game)
    requires WellFormed(g.board)
    ensures Fits(g.piece.shape, g.board, g.piece.pos.x - 1, g.piece.pos.y) ==>
      r == g.(piece := Moved(g.piece, -1, 0))
    ensures !Fits(g.piece.shape, g.board, g.piece.pos.x - 1, g.piece.pos.y) ==> r == g
  {
    if IsValidMove(g.piece, g.board, -1, 0, None) then
      g.(piece := g.piece.(pos := g.piece.pos.(x := g.piece.pos.x - 1)))
    else g
  }

  /** One column right when the moved piece fits; otherwise nothing changes. */
  function MoveRight(g: Game): (r: Game)
    requires WellFormed(g.board)
    ensures Fits(g.piece.shape, g.board, g.piece.pos.x + 1, g.piece.pos.y) ==>
      r == g.(piece := Moved(g.piece, 1, 0))
    ensures !Fits(g.piece.shape, g.board, g.piece.pos.x + 1, g.piece.pos.y) ==> r == g
  {
    if IsValidMove(g.piece, g.board, 1, 0, None) then
      g.(piece := g.piece.(pos := g.piece.pos.(x := g.piece.pos.x + 1)))
    else g
  }

  /** The soft-drop command is one gravity step. */
  function MoveDown(g: Game, next: Kind): (r: Game)
    requires WellFormed(g.board)
    ensures r == Drop(g, next)
  {
    Drop(g, next)
  }

  /** A clockwise quarter turn in place when the turned shape fits at the
      current position; there is no wall kick, so otherwise nothing changes. */
  function RotatePiece(g: Game): (r: Game)
    requires WellFormed(g.board) && Rectangular(g.piece.shape)
    ensures Fits(Rotate(g.piece.shape), g.board, g.piece.pos.x, g.piece.pos.y) ==>
      r == g.(piece := g.piece.(shape := Rotate(g.piece.shape)))
    ensures !Fits(Rotate(g.piece.shape), g.board, g.piece.pos.x, g.piece.pos.y) ==> r == g
  {
    var rotated := Rotate(g.piece.shape);
    if IsValidMove(g.piece, g.board, 0, 0, Some(rotated)) then
      g.(piece := g.piece.(shape := rotated))
    else g
  }
}
