/**
 * The game engine of src/components/Tetris.tsx: the session state and the
 * operations the timer and the keyboard drive (spawnPiece, moveDown,
 * moveLaterally, rotate, the hard drop, mergePiece, startGame and the pause
 * button).
 */
module Game {
  import opened Wrappers
  import opened Tetrominoes
  import opened Board
  import opened LineClear

  /** The falling piece: its kind, the position of its pivot and its current offsets. */
  datatype Piece = Piece(kind: Kind, pos: Pos, shape: Shape)

  /** Where every piece appears: column floor(Width / 2) - 1, top row. */
  const SpawnPos: Pos := Pos(Width / 2 - 1, 0)

  /** The fall interval in milliseconds before the first reset, at every reset, and its floor. */
  const InitialDropSpeed: int := 1000
  const ResetDropSpeed: int := 800
  const MinDropSpeed: int := 100
  /** Milliseconds taken off the fall interval per cleared line. */
  const SpeedStep: int := 20

  /** The piece the engine spawns for a kind: its canonical shape at the spawn position. */
  function NewPiece(k: Kind): Piece
  {
    Piece(k, SpawnPos, Canonical(k))
  }

  /** A piece that may be active on board b: four cells, none of them blocked. */
  predicate Fits(p: Piece, b: Grid)
    requires WellFormed(b)
  {
    |p.shape| == 4 && !Collides(p.pos, p.shape, b)
  }

  /** The points for clearing n lines at once: 0, 100, 300, 500 or 800. */
  function LineScore(n: nat): (points: nat)
    requires n <= 4
    ensures (points == 0) == (n == 0)
    ensures points >= 100 * n
    ensures n >= 2 ==> points > 100 * n
  {
    [0, 100, 300, 500, 800][n]
  }

  function Max(a: int, b: int): int
  {
    if a < b then b else a
  }

  /**
   * The fall interval after clearing n lines: 20 ms faster per line, never
   * below 100 ms, and unchanged when nothing was cleared.
   */
  function NextSpeed(speed: int, n: nat): (next: int)
    ensures n == 0 ==> next == speed
    ensures speed >= MinDropSpeed ==> MinDropSpeed <= next <= speed
    ensures n > 0 ==> next == MinDropSpeed || next == speed - SpeedStep * n
    ensures n > 0 && next == MinDropSpeed ==> speed - SpeedStep * n <= MinDropSpeed
  {
    if n > 0 then Max(MinDropSpeed, speed - n * SpeedStep) else speed
  }

  /** The board with the piece's cells written in, before any line is cleared. */
  function Landed(b: Grid, p: Piece): Grid
    requires WellFormed(b) && InColumns(p.pos, p.shape)
  {
    Stamp(b, p.pos, p.shape, ColorOf(p.kind))
  }

  /**
   * Merging a piece that fits into a board without full rows clears at most
   * four lines and leaves a well-formed board without full rows.
   */
  lemma MergeKeepsBoard(b: Grid, p: Piece)
    requires WellFormed(b) && NoFullRow(b) && Fits(p, b)
    ensures InColumns(p.pos, p.shape)
    ensures FullCount(Landed(b, p)) <= 4
    ensures WellFormed(ClearLines(Landed(b, p))) && NoFullRow(ClearLines(Landed(b, p)))
  {
    FitsInColumns(p.pos, p.shape, b);
    FullCountAfterStamp(b, p.pos, p.shape, ColorOf(p.kind));
  }

  /**
   * The hard drop's resting row y for a shape at pos: no lower than pos.y,
   * every row below pos.y down to y is free, and the row after y collides.
   */
  predicate Resting(pos: Pos, shape: Shape, b: Grid, y: int)
    requires WellFormed(b)
  {
    pos.y <= y &&
    (forall t :: pos.y < t <= y ==> !Collides(Pos(pos.x, t), shape, b)) &&
    Collides(Pos(pos.x, y + 1), shape, b)
  }

  /** There is only one resting row. */
  lemma RestingUnique(pos: Pos, shape: Shape, b: Grid, y1: int, y2: int)
    requires WellFormed(b) && Resting(pos, shape, b, y1) && Resting(pos, shape, b, y2)
    ensures y1 == y2
  {
  }

  /** The hard drop's search: step down while the next row is free. */
  method RestingRow(pos: Pos, shape: Shape, b: Grid) returns (y: int)
    requires WellFormed(b) && shape != []
    ensures Resting(pos, shape, b, y)
  {
    y := pos.y;
    while !Collides(Pos(pos.x, y + 1), shape, b)
      invariant pos.y <= y
      invariant forall t :: pos.y < t <= y ==> !Collides(Pos(pos.x, t), shape, b)
      decreases Height - y - shape[0].dy
    {
      y := y + 1;
    }
  }

  /** Every kind fits at the spawn position of an empty board. */
  lemma SpawnOnEmptyBoard(k: Kind)
    ensures Fits(NewPiece(k), EmptyBoard())
  {
  }

  /** A fresh O piece occupies rows 0 and 1 of columns 4 and 5. */
  lemma SpawnedOCells(y: int, x: int)
    ensures Covers(SpawnPos, Canonical(O), y, x) <==> (y == 0 || y == 1) && (x == 4 || x == 5)
  {
    var s := Canonical(O);
    if (y == 0 || y == 1) && (x == 4 || x == 5) {
      var i := 2 * y + (x - 4);
      assert SpawnPos.y + s[i].dy == y && SpawnPos.x + s[i].dx == x;
    }
  }

  /**
   * Every kind covers cell (0, 4) at the spawn position, so once that cell
   * is occupied every spawn collides and the game ends.
   */
  lemma SpawnBlockedAtPivotCell(b: Grid, k: Kind)
    requires WellFormed(b) && b[0][4].Some?
    ensures Collides(SpawnPos, Canonical(k), b)
  {
    var s := Canonical(k);
    var i := match k
      case I => 1
      case O => 0
      case S => 0
      case Z => 3
      case _ => 2;
    assert s[i] == Offset(0, 0);
    assert SpawnPos.y + s[i].dy == 0 && SpawnPos.x + s[i].dx == 4;
  }

  /** mergePiece's first step: copy the board and write the piece's cells, skipping rows off the board. */
  method WritePiece(b: Grid, p: Piece) returns (written: Grid)
    requires WellFormed(b) && InColumns(p.pos, p.shape)
    ensures written == Landed(b, p)
  {
    var color := ColorOf(p.kind);
    written := b;
    var i := 0;
    while i < |p.shape|
      invariant 0 <= i <= |p.shape|
      invariant WellFormed(written) && InColumns(p.pos, p.shape[i..])
      invariant Stamp(written, p.pos, p.shape[i..], color) == Landed(b, p)
    {
      var y, x := p.pos.y + p.shape[i].dy, p.pos.x + p.shape[i].dx;
      if 0 <= y < Height {
        written := written[y := written[y][x := Some(color)]];
      }
      assert p.shape[i..][1..] == p.shape[i + 1..];
      i := i + 1;
    }
  }

  /** mergePiece's filter: keep the rows that are not full, counting the full ones. */
  method DropFullRows(rows: Grid) returns (kept: Grid, cleared: nat)
    ensures kept == Survivors(rows) && cleared == FullCount(rows)
  {
    kept, cleared := [], 0;
    var r := 0;
    while r < |rows|
      invariant 0 <= r <= |rows|
      invariant kept == Survivors(rows[..r]) && cleared == FullCount(rows[..r])
    {
      assert rows[..r + 1][..r] == rows[..r];
      if Full(rows[r]) {
        cleared := cleared + 1;
      } else {
        kept := kept + [rows[r]];
      }
      r := r + 1;
    }
    assert rows[..r] == rows;
  }

  /** mergePiece's refill: put n empty rows on top of the kept rows. */
  method PadTop(kept: Grid, n: nat) returns (rows: Grid)
    ensures rows == seq(n, _ => EmptyRow()) + kept
  {
    rows := kept;
    var j := 0;
    while j < n
      invariant 0 <= j <= n
      invariant rows == seq(j, _ => EmptyRow()) + kept
    {
      assert seq(j + 1, _ => EmptyRow()) == [EmptyRow()] + seq(j, _ => EmptyRow());
      rows := [EmptyRow()] + rows;
      j := j + 1;
    }
  }

  /** One game session. */
  class Engine {
    var board: Grid
    var piece: Option<Piece>
    var score: nat
    var gameOver: bool
    var paused: bool
    /** The fall interval in milliseconds that the timer reads. */
    var dropSpeed: int

    /**
     * The session invariant: a 20 x 10 board without full rows, a fall
     * interval between 100 and 800 ms, and an active piece (if any) that
     * does not collide with the board.
     */
    ghost predicate Valid()
      reads this
    {
      WellFormed(board) && NoFullRow(board) &&
      MinDropSpeed <= dropSpeed <= ResetDropSpeed &&
      (piece.Some? ==> Fits(piece.value, board))
    }

    /** The state startGame establishes. */
    ghost predicate JustStarted()
      reads this
    {
      board == EmptyBoard() && piece == None && score == 0 &&
      !gameOver && !paused && dropSpeed == ResetDropSpeed
    }

    /** No piece can move: the game is over, paused, or waits for a spawn. */
    ghost predicate Idle()
      reads this
    {
      gameOver || paused || piece.None?
    }

    /** Opening the game: the initial state, immediately followed by startGame. */
    constructor ()
      ensures Valid() && JustStarted()
    {
      board := EmptyBoard();
      piece := None;
      score := 0;
      gameOver := false;
      paused := false;
      dropSpeed := InitialDropSpeed;
      new;
      Reset();
    }

    /** startGame: clear everything and restore the 800 ms interval, from any state. */
    method Reset()
      modifies this
      ensures Valid() && JustStarted()
    {
      board := EmptyBoard();
      piece := None;
      score := 0;
      gameOver := false;
      paused := false;
      dropSpeed := ResetDropSpeed;
    }

    /** The pause button flips the flag whatever the state, game over included. */
    method TogglePause()
      requires Valid()
      modifies this
      ensures Valid()
      ensures paused == !old(paused)
      ensures board == old(board) && piece == old(piece) && score == old(score)
      ensures gameOver == old(gameOver) && dropSpeed == old(dropSpeed)
    {
      paused := !paused;
    }

    /** What spawning kind k did: install the new piece, or end the game if it collides. */
    twostate predicate SpawnedFrom(k: Kind)
      reads this
    {
      WellFormed(old(board)) &&
      board == old(board) && score == old(score) && paused == old(paused) &&
      dropSpeed == old(dropSpeed) &&
      if Collides(SpawnPos, Canonical(k), old(board))
      then gameOver && piece == old(piece)
      else gameOver == old(gameOver) && piece == Some(NewPiece(k))
    }

    /** spawnPiece, with the kind given instead of drawn at random. */
    method Spawn(k: Kind) returns (spawned: Option<Piece>)
      requires Valid()
      modifies this
      ensures Valid() && SpawnedFrom(k)
      ensures spawned == if Collides(SpawnPos, Canonical(k), board) then None else Some(NewPiece(k))
    {
      var p := NewPiece(k);
      if Collides(p.pos, p.shape, board) {
        gameOver := true;
        return None;
      }
      piece := Some(p);
      return Some(p);
    }

    /** What merging piece p did: cells written, full rows cleared, score and speed updated. */
    twostate predicate MergedFrom(p: Piece)
      reads this
    {
      WellFormed(old(board)) && InColumns(p.pos, p.shape) &&
      var n := FullCount(Landed(old(board), p));
      n <= 4 &&
      board == ClearLines(Landed(old(board), p)) &&
      piece == None &&
      score == old(score) + LineScore(n) &&
      dropSpeed == NextSpeed(old(dropSpeed), n) &&
      gameOver == old(gameOver) && paused == old(paused)
    }

    /** mergePiece: settle the active piece into the board and clear full lines. */
    method Merge()
      requires Valid()
      modifies this
      ensures Valid()
      ensures old(piece).None? ==> unchanged(this)
      ensures old(piece).Some? ==> MergedFrom(old(piece).value)
    {
      if piece.None? {
        return;
      }
      var p := piece.value;
      MergeKeepsBoard(board, p);
      var written := WritePiece(board, p);
      var kept, cleared := DropFullRows(written);
      var rows := PadTop(kept, cleared);
      if cleared > 0 {
        score := score + LineScore(cleared);
        dropSpeed := Max(MinDropSpeed, dropSpeed - cleared * SpeedStep);
      }
      board := rows;
      piece := None;
    }

    /** What one step down did: move the piece a row down, or merge it where it stands. */
    twostate predicate MovedDown()
      reads this
    {
      old(piece).Some? && WellFormed(old(board)) &&
      var p := old(piece).value;
      var below := Pos(p.pos.x, p.pos.y + 1);
      if Collides(below, p.shape, old(board)) then MergedFrom(p)
      else
        piece == Some(p.(pos := below)) && board == old(board) && score == old(score) &&
        gameOver == old(gameOver) && paused == old(paused) && dropSpeed == old(dropSpeed)
    }

    /** moveDown: the soft drop and the timer's gravity step. */
    method MoveDown()
      requires Valid()
      modifies this
      ensures Valid()
      ensures old(Idle()) ==> unchanged(this)
      ensures !old(Idle()) ==> MovedDown()
    {
      if gameOver || paused || piece.None? {
        return;
      }
      var p := piece.value;
      var below := Pos(p.pos.x, p.pos.y + 1);
      if !Collides(below, p.shape, board) {
        piece := Some(p.(pos := below));
        assert Fits(piece.value, board);
      } else {
        Merge();
        assert MergedFrom(p);
      }
    }

    /** moveLaterally: shift the piece dir columns if the target is free, otherwise do nothing. */
    method MoveLaterally(dir: int)
      requires Valid()
      modifies this
      ensures Valid()
      ensures board == old(board) && score == old(score) && gameOver == old(gameOver)
      ensures paused == old(paused) && dropSpeed == old(dropSpeed)
      ensures old(Idle()) ==> piece == old(piece)
      ensures !old(Idle()) ==>
        var p := old(piece).value;
        var target := Pos(p.pos.x + dir, p.pos.y);
        piece == if Collides(target, p.shape, board) then old(piece) else Some(p.(pos := target))
    {
      if gameOver || paused || piece.None? {
        return;
      }
      var p := piece.value;
      var target := Pos(p.pos.x + dir, p.pos.y);
      if !Collides(target, p.shape, board) {
        piece := Some(p.(pos := target));
      }
    }

    /** rotate: turn the piece a quarter about its pivot if the result is free; no kicks are tried. */
    method Rotate()
      requires Valid()
      modifies this
      ensures Valid()
      ensures board == old(board) && score == old(score) && gameOver == old(gameOver)
      ensures paused == old(paused) && dropSpeed == old(dropSpeed)
      ensures old(Idle()) ==> piece == old(piece)
      ensures !old(Idle()) ==>
        var p := old(piece).value;
        var turned := Tetrominoes.Rotate(p.shape);
        piece == if Collides(p.pos, turned, board) then old(piece) else Some(p.(shape := turned))
    {
      if gameOver || paused || piece.None? {
        return;
      }
      var p := piece.value;
      var turned := Tetrominoes.Rotate(p.shape);
      if !Collides(p.pos, turned, board) {
        piece := Some(p.(shape := turned));
      }
    }

    /**
     * The space key: move the piece straight down to its resting row. The
     * piece stays active; it is merged by the next step down.
     */
    method HardDrop()
      requires Valid()
      modifies this
      ensures Valid()
      ensures board == old(board) && score == old(score) && gameOver == old(gameOver)
      ensures paused == old(paused) && dropSpeed == old(dropSpeed)
      ensures old(Idle()) ==> piece == old(piece)
      ensures !old(Idle()) ==>
        var p := old(piece).value;
        piece.Some? && piece.value == p.(pos := Pos(p.pos.x, piece.value.pos.y)) &&
        Resting(p.pos, p.shape, board, piece.value.pos.y)
    {
      if piece.None? || paused || gameOver {
        return;
      }
      var p := piece.value;
      var y := RestingRow(p.pos, p.shape, board);
      piece := Some(p.(pos := Pos(p.pos.x, y)));
    }

    /**
     * One pass of the game loop: with no active piece a new one of kind k is
     * spawned; otherwise the piece takes one step down.
     */
    method Tick(k: Kind)
      requires Valid()
      modifies this
      ensures Valid()
      ensures old(gameOver || paused) ==> unchanged(this)
      ensures !old(gameOver || paused) && old(piece).None? ==> SpawnedFrom(k)
      ensures !old(gameOver || paused) && old(piece).Some? ==> MovedDown()
    {
      if gameOver || paused {
        return;
      }
      if piece.None? {
        var _ := Spawn(k);
      } else {
        MoveDown();
      }
    }
  }
}
