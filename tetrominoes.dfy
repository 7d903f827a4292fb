/**
 * The seven piece kinds, their canonical shapes and colours, and rotation
 * (src/components/Tetris.tsx, the TETROMINOS table and the rotate handler).
 */
module Tetrominoes {

  /** The piece kinds, in the order of the shape table. */
  datatype Kind = I | J | L | O | S | T | Z

  /** An opaque stand-in for the colour class name each kind is drawn with. */
  datatype Color = Cyan | Blue | Orange | Yellow | Green | Purple | Red

  /** A cell of a shape, as a [dy, dx] offset from the piece's pivot. */
  datatype Offset = Offset(dy: int, dx: int)

  type Shape = seq<Offset>

  /** The unrotated shape of each kind, as listed in the shape table. */
  function Canonical(k: Kind): (s: Shape)
    ensures |s| == 4
  {
    match k
    case I => [Offset(0, -1), Offset(0, 0), Offset(0, 1), Offset(0, 2)]
    case J => [Offset(-1, -1), Offset(0, -1), Offset(0, 0), Offset(0, 1)]
    case L => [Offset(-1, 1), Offset(0, -1), Offset(0, 0), Offset(0, 1)]
    case O => [Offset(0, 0), Offset(0, 1), Offset(1, 0), Offset(1, 1)]
    case S => [Offset(0, 0), Offset(0, 1), Offset(-1, -1), Offset(-1, 0)]
    case T => [Offset(-1, 0), Offset(0, -1), Offset(0, 0), Offset(0, 1)]
    case Z => [Offset(-1, 0), Offset(-1, 1), Offset(0, -1), Offset(0, 0)]
  }

  /** The colour a kind is drawn with. */
  function ColorOf(k: Kind): Color
  {
    match k
    case I => Cyan
    case J => Blue
    case L => Orange
    case O => Yellow
    case S => Green
    case T => Purple
    case Z => Red
  }

  /** A quarter turn of one offset about the pivot: (dy, dx) becomes (dx, -dy). */
  function TurnOffset(o: Offset): Offset
  {
    Offset(o.dx, -o.dy)
  }

  /** The rotation of a whole shape, offset by offset, keeping the order of the cells. */
  function Rotate(s: Shape): (r: Shape)
    ensures |r| == |s|
    ensures forall i :: 0 <= i < |s| ==> r[i] == Offset(s[i].dx, -s[i].dy)
  {
    if s == [] then [] else [TurnOffset(s[0])] + Rotate(s[1..])
  }

  /**
   * The O piece turns about its top-left cell: one turn shifts its square
   * one column left, a second turn shifts it one row up.
   */
  lemma OTurns(s: Shape)
    requires s == Canonical(O)
    ensures Rotate(s) == [Offset(0, 0), Offset(1, 0), Offset(0, -1), Offset(1, -1)]
    ensures Rotate(Rotate(s)) == [Offset(0, 0), Offset(0, -1), Offset(-1, 0), Offset(-1, -1)]
  {
    var once := Rotate(s);
    TurnSquare(s, 0, 1, 1, 0, 1, 1);
    TurnSquare(once, 1, 0, 0, -1, 1, -1);
  }

  /**
   * A four-cell shape listed as (0, 0), (a, b), (c, d), (e, f) turns into
   * (0, 0), (b, -a), (d, -c), (f, -e).
   */
  lemma TurnSquare(s: Shape, a: int, b: int, c: int, d: int, e: int, f: int)
    requires |s| == 4 && s[0] == Offset(0, 0) && s[1] == Offset(a, b) && s[2] == Offset(c, d) && s[3] == Offset(e, f)
    ensures Rotate(s) == [Offset(0, 0), Offset(b, -a), Offset(d, -c), Offset(f, -e)]
  {
  }

  /** Four quarter turns give back exactly the shape that was turned. */
  lemma RotateFourTimes(s: Shape)
    ensures Rotate(Rotate(Rotate(Rotate(s)))) == s
  {
  }
}
