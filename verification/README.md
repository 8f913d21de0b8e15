# Falling-block puzzle engine — a Dafny model

The portfolio page embeds a small falling-block puzzle game (the
`DataChompsTetris` component of `App.tsx`). This project models its engine as
pure functions over immutable values and proves what the engine promises:

- a 20-row by 10-column board of strings, `""` meaning an empty cell (`Grid`);
- seven square 0/1 shape templates, a spawn at column `floor(10/2) - 1 = 4`,
  row 0, and the random choice of the next kind (`Tetromino`);
- the clockwise quarter-turn rotation of a shape matrix (`Shapes`);
- the placement test `isValidMove` (`Collision`);
- line clearing (`Lines`);
- the game record with gravity, lock, scoring, respawn and game over, and the
  move / rotate commands (`Engine`);
- the animation-frame tick with its strict drop-interval test, keyboard and
  touch dispatch, start, restart, and the session invariant "until the game is
  over, the falling piece is validly placed" (`Session`).

Every operation is total on the inputs the game can produce. The random draw is
a parameter: every transition that spawns a piece takes the chosen `Kind`, and
`Tetromino.Draw` models how the source turns a uniform sample into a kind.
Time is an integer parameter of `Session.Tick`.

## Model

| member | source | states |
|---|---|---|
| Grid.EmptyBoard | App.tsx:48 | the starting board has 20 rows of 10 cells, all empty |
| Grid.EmptyRows | App.tsx:81 | the filler holds exactly the requested number of rows, each 10 empty cells |
| Tetromino.TemplateFacts | App.tsx:28-42 | every template is n-by-n with n in {2, 3, 4} and holds exactly four blocks; a spawned piece is a copy of its template at column 4, row 0 |
| Tetromino.TemplateBlocks | App.tsx:28-36 | the block positions of each template, listed per kind |
| Tetromino.Index | App.tsx:38-40 | every kind has a position in the key list `I, J, L, O, S, T, Z` |
| Tetromino.TemplateCellsCount | App.tsx:28-36 | each listed block set has exactly four distinct positions |
| Tetromino.Draw | App.tsx:38-41 | `keys[floor(r * 7)]` for `r` in [0, 1) picks the kind whose index i satisfies i <= 7r < i + 1, so each kind gets an interval of width 1/7 |
| Collision.IsValidMove | App.tsx:55-69 | the test holds exactly when every block of the (possibly replacement) shape, shifted by pos + (dx, dy), lies in columns 0..9, above row 20, and on an empty cell when its row is >= 0; rows above the board are checked only against the walls |
| Collision.RowsFit | App.tsx:57-67 | the nested loop over shape rows and cells agrees with the quantified placement condition over the rows not yet visited |
| Collision.RowFits | App.tsx:59-66 | the inner loop over the cells of one shape row agrees with the placement condition for that row from cell j on |
| Collision.OutOfBoundsRejects | App.tsx:62 | a block left of column 0, right of column 9 or below row 19 makes the placement invalid whatever the board holds |
| Collision.AboveBoardFits | App.tsx:62 | rows above the board are checked only against the walls: blocks above row 0 within columns 0..9 fit on any board |
| Collision.SpawnValidity | App.tsx:104-105 | the spawn check on a board is the template fitting at column 4, row 0 |
| Collision.SpawnFitsEmptyBoard | App.tsx:48-49 | on the initial empty board every spawned piece is validly placed |
| Shapes.Reverse | App.tsx:72 | reversing a sequence puts element `|s| - 1 - k` at position k |
| Shapes.Rotate | App.tsx:71-73 | result[i][j] = m[n-1-j][i] (a clockwise quarter turn); a rows-by-cols input gives a cols-by-rows output, square stays square |
| Shapes.RotateTwice | App.tsx:71-73 | two rotations of an n-by-c matrix give its half turn, h[i][j] = m[n-1-i][c-1-j], and the intermediate quarter turn is again rectangular |
| Shapes.HalfTurnTwice | App.tsx:71-73 | the half turn is an involution: turning a half turn by half a turn again gives back the original matrix |
| Shapes.RotateFourTimes | App.tsx:71-73 | four rotations return the original matrix |
| Shapes.RotateKeepsBlocks | App.tsx:71-73 | the blocks of the rotated matrix are exactly the input's blocks moved by (i, j) -> (j, n-1-i), so their number is unchanged |
| Shapes.TurnCellsSize | App.tsx:71-73 | moving blocks by the quarter-turn map is injective, so it keeps their number |
| Lines.Keep | App.tsx:76 | the filter keeps exactly the rows that have an empty cell, never more rows than it was given |
| Lines.KeepAppend | App.tsx:76 | the filter distributes over concatenation, so kept rows stay in their original relative order |
| Lines.KeepNoneFull | App.tsx:76 | with no full row the filter returns its input |
| Lines.KeepCount | App.tsx:76-77 | kept rows plus full rows make up all rows, so `ROWS - kept` is the number of full rows |
| Lines.ZeroCountNoFullRow | App.tsx:77-78 | a zero count of full rows means no row is full |
| Lines.ClearLines | App.tsx:75-84 | the cleared count is the number of full rows; the result is that many empty rows followed by the non-full rows in order, still 20 by 10; with none cleared the board is returned unchanged |
| Lines.ClearLinesIdempotent | App.tsx:75-84 | clearing the output again clears nothing and returns it unchanged |
| Engine.PaintRow | App.tsx:92-97 | painting one shape row writes the colour exactly on the board cells under its blocks |
| Engine.PaintRows | App.tsx:91-99 | painting the shape rows from row i on writes the colour exactly on the cells covered by those rows |
| Engine.Merge | App.tsx:90-99 | the merged board holds the piece colour on every board cell under a block of the piece and the old content everywhere else |
| Engine.Fall | App.tsx:87-88 | the falling piece moves exactly one row down; board, score, flags and clock are unchanged |
| Engine.Lock | App.tsx:89-110 | the new board is the merged board line-cleared; the score rises by exactly 100 per full row of the merged board; game over becomes true exactly when the new piece does not fit at (4, 0) on the cleared board, and then the old piece is kept, else the new one is installed |
| Engine.Drop | App.tsx:86-111 | when the piece fits one row lower only its row increases by 1 and nothing else changes; otherwise the step is the lock |
| Engine.MoveLeft | App.tsx:114-116 | only the column decreases by 1, and only when the moved piece fits; otherwise the game is unchanged |
| Engine.MoveRight | App.tsx:118-120 | only the column increases by 1, and only when the moved piece fits; otherwise the game is unchanged |
| Engine.MoveDown | App.tsx:122-124 | the soft drop is exactly one gravity step |
| Engine.RotatePiece | App.tsx:126-129 | only the shape changes, to its quarter turn, and only when the turned shape fits at the current position (no wall kick); otherwise the game is unchanged |
| Session.CommandOf | App.tsx:155-160 | ArrowLeft, ArrowRight, ArrowDown and ArrowUp select left, right, drop and rotate, each exactly for its key; other keys select nothing |
| Session.Apply | App.tsx:156-159 | each command runs its handler |
| Session.HandleKey | App.tsx:151-161 | nothing changes unless the game is started and not over; then each arrow key runs its command and every other key is ignored |
| Session.Press | App.tsx:278-307 | touch buttons act only while the game is started and not over, and then run their command |
| Session.Tick | App.tsx:131-143 | a frame changes nothing unless the game is live and strictly more than 800 time units have passed since `lastTime`; then it is one gravity step with `lastTime` set to the frame time |
| Session.Start | App.tsx:206 | the start button sets `active` and nothing else |
| Session.Init | App.tsx:45-53 | a new session is not started, not over, has score 0, clock 0, the empty board and a spawned piece |
| Session.Reset | App.tsx:166-172 | restart gives the empty board, a spawned piece, score 0, not over, clock 0, and keeps `active` |
| Session.InitAndResetEstablishInv | App.tsx:45-53 | a new session and a restart from any state satisfy the invariant (sized board, square four-block piece, piece validly placed until game over, game over only in a started session) |
| Session.LockKeepsInv | App.tsx:101-109 | in a started session (the only kind the loop and the controls act on, App.tsx:132 and 152) locking keeps the invariant: a spawned piece is installed only when it fits, otherwise the game is over |
| Session.FallKeepsInv | App.tsx:87-88 | a piece only falls into a place where it fits |
| Session.BlockedKeepsInv | App.tsx:89-110 | when the piece cannot go lower, the lock that follows keeps the invariant |
| Session.DropKeepsInv | App.tsx:86-111 | a gravity step of a started session keeps the invariant |
| Session.CommandKeepsInv | App.tsx:114-129 | in a started session, moves, soft drop and rotation keep the invariant; rotation keeps the four blocks |
| Session.StepKeepsInv | App.tsx:131-172 | every frame, key, touch, start or restart keeps the invariant |
| Session.Run | App.tsx:131-172 | any sequence of events from a state satisfying the invariant ends in a state satisfying it |
| Session.GameOverIsFinal | App.tsx:132-152 | once the game is over, no sequence of frames, keys, touches or start presses changes any part of the state; only restart does |
| Session.LeftWallExample | App.tsx:114-116 | on an empty board the O piece spawned at column 4 moves left to column 0 in four steps and the fifth move is rejected |

## Left out

- Rendering: cell and piece drawing, `BLOCK_SIZE`, overlays, the zero-padded
  score text and status labels (App.tsx:174-318) are presentation only.
- React plumbing: `useState`, `useCallback`/`useEffect` dependency lists and
  stale closures are replaced by one game record with explicit transitions.
  Score accumulation that the source performs with a state update inside
  `clearLines` (App.tsx:79) is done in `Engine.Lock` from the count
  `clearLines` returns.
- Scheduling: `requestAnimationFrame`, `cancelAnimationFrame` and the window
  key listener are browser I/O. Only the per-frame decision (`Session.Tick`)
  and the key-to-command mapping are modelled; frames are modelled as arriving
  only while the game is started and not over, which is when the source
  requests them (App.tsx:141-144).
- Randomness: `Math.random` is a parameter. `Tetromino.Draw` uses exact reals
  for `r * 7`, not floating point.
- Time: integer, not the floating-point frame timestamp. `dropTime` is the
  constant 800 because nothing in the component ever changes it.
- `preventDefault` on arrow keys (App.tsx:153) is a browser effect with no
  game state.
- Engine.Merge: the source guards only `y >= 0` before writing. Below the
  floor the write throws; right of column 9 it widens the row; left of column 0
  it is stored as a non-index property that nothing reads, so the block is
  dropped as in the model. The model skips all such cells; they cannot occur while the piece is validly placed, which
  `Session.Inv` guarantees until game over.
- Shapes.Rotate requires a non-empty rectangular matrix: the source would
  throw on an empty one. Every shape in play is a square template or a
  rotation of one.
- Touch buttons are hidden rather than guarded when the game is not live
  (App.tsx:278); `Session.Press` models them as no-ops then.
- The rest of the page (the `App` component and its helpers from
  App.tsx:326 on), `constants.ts`, `types.ts` and `tailwind.config.js` are
  static content and styling with no game logic.
