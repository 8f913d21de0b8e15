/** The seven piece kinds, their shape templates, and spawning a new piece. */
module Tetromino {
  import opened Grid
  import opened Shapes

  datatype Kind = I | J | L | O | S | T | Z

  /** The kinds in the order the random draw indexes them. */
  const Keys: seq<Kind> := [I, J, L, O, S, T, Z]

  /** Every template is drawn in the same colour. */
  const Color: string := "#c5a059"

  datatype Pos = Pos(x: int, y: int)

  /** The falling piece: its current rotation of a template, its colour, and
      the board position of the matrix's top-left cell. */
  datatype Piece = Piece(shape: Shape, color: string, pos: Pos)

  function Template(k: Kind): Shape {
    match k
    case I => [[0, 0, 0, 0], [1, 1, 1, 1], [0, 0, 0, 0], [0, 0, 0, 0]]
    case J => [[1, 0, 0], [1, 1, 1], [0, 0, 0]]
    case L => [[0, 0, 1], [1, 1, 1], [0, 0, 0]]
    case O => [[1, 1], [1, 1]]
    case S => [[0, 1, 1], [1, 1, 0], [0, 0, 0]]
    case T => [[0, 1, 0], [1, 1, 1], [0, 0, 0]]
    case Z => [[1, 1, 0], [0, 1, 1], [0, 0, 0]]
  }

  /** Position of a kind in `Keys`. */
  function Index(k: Kind): (i: nat)
    ensures i < |Keys| && Keys[i] == k
  {
    match k
    case I => 0
    case J => 1
    case L => 2
    case O => 3
    case S => 4
    case T => 5
    case Z => 6
  }

  /** The random choice `keys[floor(r * keys.length)]` for a uniform sample
      `r` in [0, 1): each kind owns an interval of width 1/7. */
  function Draw(r: real): (k: Kind)
    requires 0.0 <= r < 1.0
    ensures Index(k) as real <= r * |Keys| as real < (Index(k) + 1) as real
  {
    var i := (r * |Keys| as real).Floor;
    var k := Keys[i];
    assert Index(k) == i by {
      assert Keys[Index(k)] == k;
    }
    k
  }

  /** A new piece of kind `k`: a copy of the template, centred horizontally
      at `Cols / 2 - 1`, on row 0. */
  function Spawn(k: Kind): Piece {
    Piece(Template(k), Color, Pos(Cols / 2 - 1, 0))
  }

  /** The blocks of template `k`, listed. */
  function TemplateCells(k: Kind): set<(int, int)> {
    match k
    case I => {(1, 0), (1, 1), (1, 2), (1, 3)}
    case J => {(0, 0), (1, 0), (1, 1), (1, 2)}
    case L => {(0, 2), (1, 0), (1, 1), (1, 2)}
    case O => {(0, 0), (0, 1), (1, 0), (1, 1)}
    case S => {(0, 1), (0, 2), (1, 0), (1, 1)}
    case T => {(0, 1), (1, 0), (1, 1), (1, 2)}
    case Z => {(0, 0), (0, 1), (1, 1), (1, 2)}
  }

  lemma {:induction false} TemplateBlocks(k: Kind)
    ensures Filled(Template(k)) == TemplateCells(k)
  {
    var m := Template(k);
    forall c | c in Filled(m)
      ensures c in TemplateCells(k)
    {
      var i, j := c.0, c.1;
      assert 0 <= i < |m| && 0 <= j < |m[i]| && m[i][j] != 0;
      assert (i == 0 || i == 1 || i == 2 || i == 3) && (j == 0 || j == 1 || j == 2 || j == 3);
    }
  }

  lemma FourDistinct(a: (int, int), b: (int, int), c: (int, int), d: (int, int))
    requires a != b && a != c && a != d && b != c && b != d && c != d
    ensures |{a, b, c, d}| == 4
  {
    assert {a, b, c, d} == {a} + {b} + {c} + {d};
    assert |{a} + {b}| == 2;
    assert |{a} + {b} + {c}| == 3;
  }

  lemma TemplateCellsCount(k: Kind)
    ensures |TemplateCells(k)| == 4
  {
    match k
    case I => FourDistinct((1, 0), (1, 1), (1, 2), (1, 3));
    case J => FourDistinct((0, 0), (1, 0), (1, 1), (1, 2));
    case L => FourDistinct((0, 2), (1, 0), (1, 1), (1, 2));
    case O => FourDistinct((0, 0), (0, 1), (1, 0), (1, 1));
    case S => FourDistinct((0, 1), (0, 2), (1, 0), (1, 1));
    case T => FourDistinct((0, 1), (1, 0), (1, 1), (1, 2));
    case Z => FourDistinct((0, 0), (0, 1), (1, 1), (1, 2));
  }

  /** Every template is an n-by-n matrix with n in {2, 3, 4} holding exactly
      four blocks, and every spawned piece starts at column 4, row 0. */
  lemma TemplateFacts(k: Kind)
    ensures IsSquare(Template(k)) && 2 <= |Template(k)| <= 4
    ensures |Filled(Template(k))| == 4
    ensures Spawn(k).pos == Pos(4, 0) && Spawn(k).shape == Template(k)
  {
    TemplateBlocks(k);
    TemplateCellsCount(k);
  }
}
