/** Shape matrices and the quarter-turn rotation applied to them. */
module Shapes {

  /** A shape matrix in row-major order; a non-zero entry is a block of the piece. */
  type Shape = seq<seq<int>>

  /** The block positions of a shape, as (row, column) pairs. */
  ghost function Filled(m: Shape): set<(int, int)> {
    set i, j | 0 <= i < |m| && 0 <= j < |m[i]| && m[i][j] != 0 :: (i, j)
  }

  /** At least one row, and every row as long as the first: the matrices the
      rotation can read column by column. */
  predicate Rectangular(m: Shape) {
    |m| > 0 && forall i :: 0 <= i < |m| ==> |m[i]| == |m[0]|
  }

  /** An n-by-n matrix with n >= 1. */
  predicate IsSquare(m: Shape) {
    |m| > 0 && forall i :: 0 <= i < |m| ==> |m[i]| == |m|
  }

  function Reverse<A>(s: seq<A>): (r: seq<A>)
    ensures |r| == |s|
    ensures forall k :: 0 <= k < |s| ==> r[k] == s[|s| - 1 - k]
  {
    if |s| == 0 then [] else Reverse(s[1..]) + [s[0]]
  }

  /** Column `c` of `m`, read from top to bottom. */
  function Column(m: Shape, c: int): seq<int>
    requires Rectangular(m) && 0 <= c < |m[0]|
  {
    seq(|m|, k requires 0 <= k < |m| => m[k][c])
  }

  /** Row `i` of the result is column `i` of the input read from bottom to
      top: a clockwise quarter turn. A rows-by-cols input gives a
      cols-by-rows output. */
  function Rotate(m: Shape): (r: Shape)
    requires Rectangular(m)
    ensures |r| == |m[0]|
    ensures forall i :: 0 <= i < |r| ==> |r[i]| == |m|
    ensures forall i, j :: 0 <= i < |r| && 0 <= j < |m| ==> r[i][j] == m[|m| - 1 - j][i]
    ensures |m[0]| > 0 ==> Rectangular(r)
    ensures IsSquare(m) ==> IsSquare(r)
  {
    seq(|m[0]|, i requires 0 <= i < |m[0]| => Reverse(Column(m, i)))
  }

  /** `h` is the rows-by-cols matrix `m` turned by a half turn about its
      centre. */
  ghost predicate HalfTurnOf(h: Shape, m: Shape, rows: nat, cols: nat) {
    && |h| == rows && |m| == rows
    && (forall i :: 0 <= i < rows ==> |h[i]| == cols && |m[i]| == cols)
    && (forall i, j :: 0 <= i < rows && 0 <= j < cols ==> h[i][j] == m[rows - 1 - i][cols - 1 - j])
  }

  /** Two quarter turns make a half turn. */
  lemma RotateTwice(m: Shape)
    requires Rectangular(m) && |m[0]| > 0
    ensures Rectangular(Rotate(m))
    ensures HalfTurnOf(Rotate(Rotate(m)), m, |m|, |m[0]|)
  {
    var r := Rotate(m);
    var h := Rotate(r);
    forall i, j | 0 <= i < |m| && 0 <= j < |m[0]|
      ensures h[i][j] == m[|m| - 1 - i][|m[0]| - 1 - j]
    {
      assert h[i][j] == r[|r| - 1 - j][i];
    }
  }

  /** A half turn of a half turn is the identity. */
  lemma HalfTurnTwice(m: Shape, h: Shape, q: Shape, rows: nat, cols: nat)
    requires HalfTurnOf(h, m, rows, cols) && HalfTurnOf(q, h, rows, cols)
    ensures q == m
  {
    forall i | 0 <= i < rows
      ensures q[i] == m[i]
    {
      forall j | 0 <= j < cols
        ensures q[i][j] == m[i][j]
      {
        assert q[i][j] == h[rows - 1 - i][cols - 1 - j];
      }
    }
  }

  /** Four quarter turns give back the original matrix. */
  lemma RotateFourTimes(m: Shape)
    requires Rectangular(m) && |m[0]| > 0
    ensures Rectangular(Rotate(m))
    ensures Rectangular(Rotate(Rotate(m)))
    ensures Rectangular(Rotate(Rotate(Rotate(m))))
    ensures Rotate(Rotate(Rotate(Rotate(m)))) == m
  {
    RotateTwice(m);
    var h := Rotate(Rotate(m));
    assert |h[0]| == |m[0]|;
    RotateTwice(h);
    HalfTurnTwice(m, h, Rotate(Rotate(h)), |m|, |m[0]|);
  }

  /** The quarter turn moves the block at (i, j) to (j, n - 1 - i). */
  ghost function TurnCells(s: set<(int, int)>, n: int): set<(int, int)> {
    set c | c in s :: (c.1, n - 1 - c.0)
  }

  lemma TurnCellsSize(s: set<(int, int)>, n: int)
    ensures |TurnCells(s, n)| == |s|
    decreases |s|
  {
    if s != {} {
      var c :| c in s;
      var rest := s - {c};
      TurnCellsSize(rest, n);
      assert TurnCells(s, n) == TurnCells(rest, n) + {(c.1, n - 1 - c.0)};
      assert (c.1, n - 1 - c.0) !in TurnCells(rest, n);
    }
  }

  /** Every block of the rotated matrix comes from a block of the input. */
  lemma RotatedBlocksComeFromInput(m: Shape, c: (int, int))
    requires Rectangular(m) && c in Filled(Rotate(m))
    ensures c in TurnCells(Filled(m), |m|)
  {
    var r, n := Rotate(m), |m|;
    var i, j := c.0, c.1;
    assert r[i][j] == m[n - 1 - j][i];
    var d := (n - 1 - j, i);
    assert d in Filled(m);
    assert c == (d.1, n - 1 - d.0);
  }

  /** Every block of the input lands on a block of the rotated matrix. */
  lemma InputBlocksReachRotation(m: Shape, d: (int, int))
    requires Rectangular(m) && d in Filled(m)
    ensures (d.1, |m| - 1 - d.0) in Filled(Rotate(m))
  {
    var r, n := Rotate(m), |m|;
    assert r[d.1][n - 1 - d.0] == m[d.0][d.1];
  }

  /** Rotation moves every block and creates none: the blocks of the result
      are exactly the turned blocks of the input, so their number is kept. */
  lemma RotateKeepsBlocks(m: Shape)
    requires Rectangular(m)
    ensures Filled(Rotate(m)) == TurnCells(Filled(m), |m|)
    ensures |Filled(Rotate(m))| == |Filled(m)|
  {
    var n := |m|;
    forall c | c in Filled(Rotate(m))
      ensures c in TurnCells(Filled(m), n)
    {
      RotatedBlocksComeFromInput(m, c);
    }
    forall c | c in TurnCells(Filled(m), n)
      ensures c in Filled(Rotate(m))
    {
      var d :| d in Filled(m) && c == (d.1, n - 1 - d.0);
      InputBlocksReachRotation(m, d);
    }
    TurnCellsSize(Filled(m), n);
  }
}
