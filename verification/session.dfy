/** The session around the engine: the clock tick, the keyboard and touch
    commands, start and restart, and the invariant they all keep. */
module Session {
  import opened Grid
  import opened Shapes
  import opened Tetromino
  import opened Collision
  import opened Engine
  import opened Wrappers

  /** Time between two gravity steps taken by the clock. */
  const DropTime: int := 800

  datatype Command = Left | Right | Down | Turn

  /** What a key press asks for; keys other than the four arrows ask for
      nothing. */
  function CommandOf(key: string): (c: Option<Command>)
    ensures c == Some(Left) <==> key == "ArrowLeft"
    ensures c == Some(Right) <==> key == "ArrowRight"
    ensures c == Some(Down) <==> key == "ArrowDown"
    ensures c == Some(Turn) <==> key == "ArrowUp"
  {
    if key == "ArrowLeft" then Some(Left)
    else if key == "ArrowRight" then Some(Right)
    else if key == "ArrowDown" then Some(Down)
    else if key == "ArrowUp" then Some(Turn)
    else None
  }

  /** The board has its dimensions and the piece's matrix is square, so
      every command is defined. */
  predicate Playable(g: Game) {
    WellFormed(g.board) && IsSquare(g.piece.shape)
  }

  /** A command, carried out without looking at the phase. */
  function Apply(g: Game, c: Command, next: Kind): (r: Game)
    requires Playable(g)
    ensures c == Left ==> r == MoveLeft(g)
    ensures c == Right ==> r == MoveRight(g)
    ensures c == Down ==> r == Drop(g, next)
    ensures c == Turn ==> r == RotatePiece(g)
  {
    match c
    case Left => MoveLeft(g)
    case Right => MoveRight(g)
    case Down => MoveDown(g, next)
    case Turn => RotatePiece(g)
  }

  /** Whether the player's commands take effect: after start and before
      the game is over. */
  predicate Live(g: Game) {
    g.active && !g.gameOver
  }

  /** A key press: ignored unless the game is live, otherwise the arrow
      keys move left, move right, soft-drop and rotate, and every other
      key is ignored. */
  function HandleKey(g: Game, key: string, next: Kind): (r: Game)
    requires Playable(g)
    ensures !Live(g) ==> r == g
    ensures Live(g) && key == "ArrowLeft" ==> r == MoveLeft(g)
    ensures Live(g) && key == "ArrowRight" ==> r == MoveRight(g)
    ensures Live(g) && key == "ArrowDown" ==> r == Drop(g, next)
    ensures Live(g) && key == "ArrowUp" ==> r == RotatePiece(g)
    ensures key !in {"ArrowLeft", "ArrowRight", "ArrowDown", "ArrowUp"} ==> r == g
  {
    if !Live(g) then g
    else
      match CommandOf(key)
      case None => g
      case Some(c) => Apply(g, c, next)
  }

  /** A touch button: the buttons are only shown while the game is live. */
  function Press(g: Game, c: Command, next: Kind): (r: Game)
    requires Playable(g)
    ensures !Live(g) ==> r == g
    ensures Live(g) ==> r == Apply(g, c, next)
  {
    if !Live(g) then g else Apply(g, c, next)
  }

  /** One animation frame at `time`. Frames run only while the game is live;
      a gravity step is taken, and `lastTime` moved to `time`, only when
      strictly more than `DropTime` has passed since `lastTime`. */
  function Tick(g: Game, time: int, next: Kind): (r: Game)
    requires WellFormed(g.board)
    ensures !Live(g) || time - g.lastTime <= DropTime ==> r == g
    ensures Live(g) && time - g.lastTime > DropTime ==> r == Drop(g, next).(lastTime := time)
  {
    if !Live(g) then g
    else if time - g.lastTime > DropTime then Drop(g, next).(lastTime := time)
    else g
  }

  /** The start button. */
  function Start(g: Game): (r: Game)
    ensures r.active && r == g.(active := true)
  {
    g.(active := true)
  }

  /** A session as the page creates it: not started, empty board, score 0,
      and a freshly spawned piece of kind `first`. */
  function Init(first: Kind): (g: Game)
    ensures !g.active && !g.gameOver && g.score == 0 && g.lastTime == 0
    ensures g.board == EmptyBoard() && g.piece == Spawn(first)
  {
    Game(EmptyBoard(), Spawn(first), 0, false, false, 0)
  }

  /** Restart: empty board, a fresh piece of kind `next`, score 0, not over,
      clock reset; whether the session was started is kept. */
  function Reset(g: Game, next: Kind): (r: Game)
    ensures r.board == EmptyBoard() && r.piece == Spawn(next)
    ensures r.score == 0 && !r.gameOver && r.lastTime == 0
    ensures r.active == g.active
  {
    Game(EmptyBoard(), Spawn(next), 0, false, g.active, 0)
  }

  /** The session invariant: a board of the right size, a square piece of
      four blocks, until the game is over a piece that is validly placed,
      and a game can only be over once it has been started. */
  ghost predicate Inv(g: Game) {
    && WellFormed(g.board)
    && IsSquare(g.piece.shape)
    && |Filled(g.piece.shape)| == 4
    && (!g.gameOver ==> Fits(g.piece.shape, g.board, g.piece.pos.x, g.piece.pos.y))
    && (g.gameOver ==> g.active)
  }

  /** A fresh session, and a restart from any state, satisfy the invariant. */
  lemma InitAndResetEstablishInv(k: Kind, g: Game)
    ensures Inv(Init(k))
    ensures Inv(Reset(g, k))
  {
    TemplateFacts(k);
    SpawnFitsEmptyBoard(k);
  }

  /** Locking keeps the invariant: the spawned piece is installed only when
      it fits, and otherwise the game is over. Like every step below, it is
      stated for a started session, the only kind the game loop and the
      controls act on. */
  lemma LockKeepsInv(g: Game, next: Kind)
    requires Inv(g) && g.active
    ensures Inv(Lock(g, next))
  {
    var r := Lock(g, next);
    TemplateFacts(next);
    if Fits(Template(next), r.board, 4, 0) {
      assert r.piece == Spawn(next);
    } else {
      assert r.gameOver;
    }
  }

  /** Equal sessions agree on the invariant; stated once so that proofs
      about a step can move the invariant across an equation without
      unfolding it. */
  lemma InvTransfer(a: Game, b: Game)
    requires Inv(a) && a == b
    ensures Inv(b)
  {
  }

  /** The piece only falls into a place where it fits. */
  lemma FallKeepsInv(g: Game, next: Kind)
    requires Inv(g) && g.active
    requires Fits(g.piece.shape, g.board, g.piece.pos.x, g.piece.pos.y + 1)
    ensures Inv(Drop(g, next))
  {
    var f := Fall(g);
    assert f.piece.shape == g.piece.shape && f.board == g.board;
    assert Inv(f);
    DropFalls(g, next);
    InvTransfer(f, Drop(g, next));
  }

  /** A piece that cannot fall locks, and locking keeps the invariant. */
  lemma BlockedKeepsInv(g: Game, next: Kind)
    requires Inv(g) && g.active
    requires !Fits(g.piece.shape, g.board, g.piece.pos.x, g.piece.pos.y + 1)
    ensures Inv(Drop(g, next))
  {
    LockKeepsInv(g, next);
    DropLocks(g, next);
    InvTransfer(Lock(g, next), Drop(g, next));
  }

  /** A gravity step of a started session keeps the invariant. */
  lemma DropKeepsInv(g: Game, next: Kind)
    requires Inv(g) && g.active
    ensures Inv(Drop(g, next))
  {
    if Fits(g.piece.shape, g.board, g.piece.pos.x, g.piece.pos.y + 1) {
      FallKeepsInv(g, next);
    } else {
      BlockedKeepsInv(g, next);
    }
  }

  /** Moves and rotation keep the invariant; a rotation keeps the number of
      blocks. */
  lemma CommandKeepsInv(g: Game, c: Command, next: Kind)
    requires Inv(g) && g.active
    ensures Inv(Apply(g, c, next))
  {
    match c
    case Left =>
    case Right =>
    case Down => DropKeepsInv(g, next);
    case Turn => RotateKeepsBlocks(g.piece.shape);
  }

  /** Everything the page can do to a session. */
  datatype Event =
    | Frame(time: int, next: Kind)
    | KeyDown(key: string, next: Kind)
    | Touch(cmd: Command, next: Kind)
    | StartPressed
    | RestartPressed(next: Kind)

  function Step(g: Game, e: Event): (r: Game)
    requires Playable(g)
  {
    match e
    case Frame(time, next) => Tick(g, time, next)
    case KeyDown(key, next) => HandleKey(g, key, next)
    case Touch(c, next) => Press(g, c, next)
    case StartPressed => Start(g)
    case RestartPressed(next) => Reset(g, next)
  }

  /** Every event keeps the invariant. */
  lemma StepKeepsInv(g: Game, e: Event)
    requires Inv(g)
    ensures Inv(Step(g, e))
  {
    match e
    case Frame(time, next) =>
      if Live(g) && time - g.lastTime > DropTime {
        DropKeepsInv(g, next);
      }
    case KeyDown(key, next) =>
      if Live(g) && CommandOf(key).Some? {
        CommandKeepsInv(g, CommandOf(key).value, next);
      }
    case Touch(c, next) =>
      if Live(g) {
        CommandKeepsInv(g, c, next);
      }
    case StartPressed =>
    case RestartPressed(next) => InitAndResetEstablishInv(next, g);
  }

  /** The session after a sequence of events. */
  function Run(g: Game, es: seq<Event>): (r: Game)
    requires Inv(g)
    ensures Inv(r)
    decreases |es|
  {
    if |es| == 0 then g
    else
      StepKeepsInv(g, es[0]);
      Run(Step(g, es[0]), es[1..])
  }

  /** Once the game is over, frames, keys, touch buttons and the start
      button change nothing; only a restart does. */
  lemma {:induction false} GameOverIsFinal(g: Game, es: seq<Event>)
    requires Inv(g) && g.gameOver
    requires forall k :: 0 <= k < |es| ==> !es[k].RestartPressed?
    ensures Run(g, es) == g
    decreases |es|
  {
    if |es| > 0 {
      assert Step(g, es[0]) == g;
      GameOverIsFinal(g, es[1..]);
    }
  }

  /** The O piece on an empty board fits at any column from 0 to 8. */
  lemma OFitsOnEmptyRow(x: int)
    requires 0 <= x <= Cols - 2
    ensures Fits(Template(O), EmptyBoard(), x, 0)
  {
  }

  /** On a started session with an empty board, the O piece spawned at
      column 4 moves left four times to column 0, and a fifth move left is
      rejected by the wall. */
  lemma LeftWallExample()
    ensures var g4 := MoveLeft(MoveLeft(MoveLeft(MoveLeft(Start(Init(O))))));
      g4.piece.pos == Pos(0, 0) && MoveLeft(g4) == g4
  {
    var g := Start(Init(O));
    OFitsOnEmptyRow(3);
    var g1 := MoveLeft(g);
    assert g1.piece.pos == Pos(3, 0) && g1.board == EmptyBoard();
    OFitsOnEmptyRow(2);
    var g2 := MoveLeft(g1);
    assert g2.piece.pos == Pos(2, 0) && g2.board == EmptyBoard();
    OFitsOnEmptyRow(1);
    var g3 := MoveLeft(g2);
    assert g3.piece.pos == Pos(1, 0) && g3.board == EmptyBoard();
    OFitsOnEmptyRow(0);
    var g4 := MoveLeft(g3);
    assert g4.piece.pos == Pos(0, 0) && g4.board == EmptyBoard() && g4.piece.shape == Template(O);
    OutOfBoundsRejects(Template(O), EmptyBoard(), -1, 0, 0, 0);
  }
}
