/**
 * The 20 x 10 playfield, the collision test and the writing of a piece's
 * cells into the board (src/components/Tetris.tsx: createEmptyBoard,
 * checkCollision and the first half of mergePiece).
 */
module Board {
  import opened Wrappers
  import opened Tetrominoes

  const Width: int := 10
  const Height: int := 20

  /** A cell is empty or holds the colour of the piece that settled there. */
  type Cell = Option<Color>
  type Row = seq<Cell>
  type Grid = seq<Row>

  /** The board position of a piece's pivot: column x, row y (row 0 at the top). */
  datatype Pos = Pos(x: int, y: int)

  /** The board has Height rows of Width cells each. */
  predicate WellFormed(b: Grid)
  {
    |b| == Height && forall r :: 0 <= r < |b| ==> |b[r]| == Width
  }

  /** A row whose every cell is occupied (no cell is empty). */
  predicate Full(row: Row)
  {
    None !in row
  }

  predicate NoFullRow(b: Grid)
  {
    forall r :: 0 <= r < |b| ==> !Full(b[r])
  }

  function EmptyRow(): Row
  {
    seq(Width, _ => None)
  }

  /** The board a game starts from. */
  function EmptyBoard(): (b: Grid)
    ensures WellFormed(b) && NoFullRow(b)
    ensures forall r, c :: 0 <= r < Height && 0 <= c < Width ==> b[r][c] == None
  {
    var b := seq(Height, _ => EmptyRow());
    assert forall r :: 0 <= r < Height ==> b[r][0] == None && None in b[r];
    b
  }

  /**
   * Whether the absolute cell (y, x) stops a piece: it is beside the walls,
   * at or below the floor, or an occupied board cell. Rows above the board
   * (y < 0) are open.
   */
  predicate Blocked(b: Grid, y: int, x: int)
    requires WellFormed(b)
  {
    x < 0 || x >= Width || y >= Height || (y >= 0 && b[y][x].Some?)
  }

  /** The collision test: some cell of the shape placed at pos is blocked. */
  function Collides(pos: Pos, shape: Shape, b: Grid): (hit: bool)
    requires WellFormed(b)
    ensures hit <==>
      exists i :: 0 <= i < |shape| &&
        (pos.x + shape[i].dx < 0 || pos.x + shape[i].dx >= Width || pos.y + shape[i].dy >= Height ||
         (pos.y + shape[i].dy >= 0 && b[pos.y + shape[i].dy][pos.x + shape[i].dx] != None))
  {
    if shape == [] then false
    else
      assert forall i :: 1 <= i < |shape| ==> shape[i] == shape[1..][i - 1];
      Blocked(b, pos.y + shape[0].dy, pos.x + shape[0].dx) || Collides(pos, shape[1..], b)
  }

  /** Every cell of the shape placed at pos lies between the walls. */
  predicate InColumns(pos: Pos, shape: Shape)
  {
    forall i :: 0 <= i < |shape| ==> 0 <= pos.x + shape[i].dx < Width
  }

  /** Some cell of the shape placed at pos lands on (y, x). */
  predicate Covers(pos: Pos, shape: Shape, y: int, x: int)
  {
    exists i :: 0 <= i < |shape| && pos.y + shape[i].dy == y && pos.x + shape[i].dx == x
  }

  /** A piece that does not collide lies between the walls. */
  lemma FitsInColumns(pos: Pos, shape: Shape, b: Grid)
    requires WellFormed(b) && !Collides(pos, shape, b)
    ensures InColumns(pos, shape)
  {
  }

  /** Writes colour c into cell (y, x) when row y is on the board; rows outside are dropped. */
  function Write(b: Grid, y: int, x: int, c: Color): (r: Grid)
    requires WellFormed(b) && 0 <= x < Width
    ensures WellFormed(r)
  {
    if 0 <= y < Height then b[y := b[y][x := Some(c)]] else b
  }

  /**
   * The board after writing colour c into every cell of the shape placed at
   * pos, one offset after the other; cells above or below the board are
   * skipped.
   */
  function Stamp(b: Grid, pos: Pos, shape: Shape, c: Color): (r: Grid)
    requires WellFormed(b) && InColumns(pos, shape)
    ensures WellFormed(r)
    decreases |shape|
  {
    if shape == [] then b
    else
      assert forall i :: 1 <= i < |shape| ==> shape[i] == shape[1..][i - 1];
      Stamp(Write(b, pos.y + shape[0].dy, pos.x + shape[0].dx, c), pos, shape[1..], c)
  }

  /**
   * After stamping, exactly the board cells covered by the shape hold c;
   * every other cell is as before.
   */
  lemma {:induction false} StampCells(b: Grid, pos: Pos, shape: Shape, c: Color)
    requires WellFormed(b) && InColumns(pos, shape)
    ensures forall y, x :: 0 <= y < Height && 0 <= x < Width ==>
      Stamp(b, pos, shape, c)[y][x] == if Covers(pos, shape, y, x) then Some(c) else b[y][x]
    decreases |shape|
  {
    if shape != [] {
      assert forall i :: 1 <= i < |shape| ==> shape[i] == shape[1..][i - 1];
      var b' := Write(b, pos.y + shape[0].dy, pos.x + shape[0].dx, c);
      StampCells(b', pos, shape[1..], c);
      forall y, x | 0 <= y < Height && 0 <= x < Width
        ensures Stamp(b, pos, shape, c)[y][x] == if Covers(pos, shape, y, x) then Some(c) else b[y][x]
      {
        if Covers(pos, shape[1..], y, x) {
          var i :| 0 <= i < |shape[1..]| && pos.y + shape[1..][i].dy == y && pos.x + shape[1..][i].dx == x;
          assert pos.y + shape[i + 1].dy == y && pos.x + shape[i + 1].dx == x;
        }
      }
    }
  }

  /**
   * The rows of the board (0 <= y < Height) that the shape placed at pos
   * touches; there are no more of them than the shape has cells.
   */
  function RowsTouched(pos: Pos, shape: Shape): (ys: set<int>)
    ensures |ys| <= |shape|
    ensures forall y :: y in ys ==> 0 <= y < Height
  {
    if shape == [] then {}
    else
      var y, rest := pos.y + shape[0].dy, RowsTouched(pos, shape[1..]);
      if 0 <= y < Height && y !in rest then rest + {y} else rest
  }

  /** The board row of every cell of the shape is among the rows it touches. */
  lemma {:induction false} RowTouched(pos: Pos, shape: Shape, i: int)
    requires 0 <= i < |shape| && 0 <= pos.y + shape[i].dy < Height
    ensures pos.y + shape[i].dy in RowsTouched(pos, shape)
  {
    var rest := RowsTouched(pos, shape[1..]);
    assert rest <= RowsTouched(pos, shape);
    if i > 0 {
      assert shape[i] == shape[1..][i - 1];
      RowTouched(pos, shape[1..], i - 1);
    }
  }
}
