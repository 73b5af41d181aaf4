/**
  The Tetris game: a run of frames, each of which may handle one key and may drop the piece, with the
  invariants that hold at the end of every frame.
 */
module Tetris {
  import opened TetrisBoard

  type Cell = (int, int)

  /** The seven pieces in their four rotations, as column and row of each of the four cells. */
  function Shape(piece: nat, rot: nat): (cells: seq<Cell>)
    requires piece < 7 && rot < 4
  {
    match (piece, rot)
    case (0, 0) => [(0, 1), (1, 1), (2, 1), (3, 1)]
    case (0, 1) => [(2, 0), (2, 1), (2, 2), (2, 3)]
    case (0, 2) => [(0, 2), (1, 2), (2, 2), (3, 2)]
    case (0, _) => [(1, 0), (1, 1), (1, 2), (1, 3)]
    case (1, _) => [(1, 0), (2, 0), (1, 1), (2, 1)]
    case (2, 0) => [(1, 0), (0, 1), (1, 1), (2, 1)]
    case (2, 1) => [(1, 0), (1, 1), (2, 1), (1, 2)]
    case (2, 2) => [(0, 1), (1, 1), (2, 1), (1, 2)]
    case (2, _) => [(1, 0), (0, 1), (1, 1), (1, 2)]
    case (3, 0) => [(1, 0), (2, 0), (0, 1), (1, 1)]
    case (3, 1) => [(1, 0), (1, 1), (2, 1), (2, 2)]
    case (3, 2) => [(1, 1), (2, 1), (0, 2), (1, 2)]
    case (3, _) => [(0, 0), (0, 1), (1, 1), (1, 2)]
    case (4, 0) => [(0, 0), (1, 0), (1, 1), (2, 1)]
    case (4, 1) => [(2, 0), (1, 1), (2, 1), (1, 2)]
    case (4, 2) => [(0, 1), (1, 1), (1, 2), (2, 2)]
    case (4, _) => [(1, 0), (0, 1), (1, 1), (0, 2)]
    case (5, 0) => [(0, 0), (0, 1), (1, 1), (2, 1)]
    case (5, 1) => [(1, 0), (2, 0), (1, 1), (1, 2)]
    case (5, 2) => [(0, 1), (1, 1), (2, 1), (2, 2)]
    case (5, _) => [(1, 0), (1, 1), (0, 2), (1, 2)]
    case (_, 0) => [(2, 0), (0, 1), (1, 1), (2, 1)]
    case (_, 1) => [(1, 0), (1, 1), (1, 2), (2, 2)]
    case (_, 2) => [(0, 1), (1, 1), (2, 1), (0, 2)]
    case (_, _) => [(0, 0), (1, 0), (1, 1), (1, 2)]
  }

  predicate Sound(cells: seq<Cell>) {
    && |cells| == 4
    && (forall i :: 0 <= i < 4 ==> 0 <= cells[i].0 < 4 && 0 <= cells[i].1 < 4)
    && (forall i, j :: 0 <= i < j < 4 ==> cells[i] != cells[j])
  }

  /** Every shape is four different cells of a four by four box. */
  lemma ShapeSound(piece: nat, rot: nat)
    requires piece < 7 && rot < 4
    ensures Sound(Shape(piece, rot))
  {
  }

  /** Where the cells of a shape are when it stands at (px, py). */
  function At(cells: seq<Cell>, px: int, py: int): (r: seq<Cell>)
    ensures |r| == |cells|
  {
    seq(|cells|, i requires 0 <= i < |cells| => (cells[i].0 + px, cells[i].1 + py))
  }

  /** One cell is inside the walls and above the floor, and free unless it is above the board. */
  predicate Free(rows: seq<Row>, cell: Cell) {
    && 0 <= cell.0 < W && cell.1 < |rows|
    && (cell.1 >= 0 ==> cell.0 < |rows[cell.1]| && rows[cell.1][cell.0] == 0)
  }

  predicate Fits(rows: seq<Row>, cells: seq<Cell>) {
    forall i :: 0 <= i < |cells| ==> Free(rows, cells[i])
  }

  /** Writing one cell; a cell outside the board is left alone. */
  function SetCell(rows: seq<Row>, cell: Cell, v: nat): seq<Row> {
    if 0 <= cell.1 < |rows| && 0 <= cell.0 < |rows[cell.1]| then
      var row: Row := rows[cell.1];
      rows[cell.1 := row[cell.0 := v]]
    else
      rows
  }

  function Put(rows: seq<Row>, cells: seq<Cell>, v: nat): seq<Row>
    decreases |cells|
  {
    if cells == [] then rows else Put(SetCell(rows, cells[0], v), cells[1..], v)
  }

  lemma {:induction false} PutWide(rows: seq<Row>, cells: seq<Cell>, v: nat)
    requires Wide(rows)
    ensures |Put(rows, cells, v)| == |rows| && Wide(Put(rows, cells, v))
    decreases |cells|
  {
    if cells != [] { PutWide(SetCell(rows, cells[0], v), cells[1..], v); }
  }

  /** Placing writes the cells of the piece and no other. */
  lemma {:induction false} PutCell(rows: seq<Row>, cells: seq<Cell>, v: nat, x: nat, y: nat)
    requires Wide(rows) && y < |rows| && x < W
    ensures |Put(rows, cells, v)| == |rows| && |Put(rows, cells, v)[y]| == W
    ensures Put(rows, cells, v)[y][x] == if (x, y) in cells then v else rows[y][x]
    decreases |cells|
  {
    if cells != [] {
      PutCell(SetCell(rows, cells[0], v), cells[1..], v, x, y);
      assert cells == [cells[0]] + cells[1..];
    }
  }

  predicate Distinct(cells: seq<Cell>) { forall i, j :: 0 <= i < j < |cells| ==> cells[i] != cells[j] }

  predicate BelowTop(cells: seq<Cell>) { forall i :: 0 <= i < |cells| ==> cells[i].1 >= 0 }

  lemma SetCellFits(rows: seq<Row>, cells: seq<Cell>, v: nat)
    requires Wide(rows) && Distinct(cells) && BelowTop(cells) && Fits(rows, cells) && cells != []
    ensures Fits(SetCell(rows, cells[0], v), cells[1..])
  {
    forall i | 0 <= i < |cells[1..]|
      ensures Free(SetCell(rows, cells[0], v), cells[1..][i])
    {
      assert cells[1..][i] == cells[i + 1] != cells[0] && Free(rows, cells[i + 1]);
      assert Free(rows, cells[0]);
    }
  }

  lemma SetCellFill(rows: seq<Row>, cell: Cell, v: nat)
    requires Wide(rows) && cell.1 >= 0 && Free(rows, cell) && v != 0
    ensures Fill(SetCell(rows, cell, v)) == Fill(rows) + 1
  {
    var row: Row := rows[cell.1];
    FillUpdate(rows, cell.1, row[cell.0 := v]);
    RowFillUpdate(row, cell.0, v);
  }

  /** A piece that fits takes as many new cells as it has. */
  lemma {:induction false} PutFill(rows: seq<Row>, cells: seq<Cell>, v: nat)
    requires Wide(rows) && Distinct(cells) && BelowTop(cells) && Fits(rows, cells) && v != 0
    ensures Fill(Put(rows, cells, v)) == Fill(rows) + |cells|
    decreases |cells|
  {
    hide Fill;
    if cells != [] {
      SetCellFits(rows, cells, v);
      SetCellFill(rows, cells[0], v);
      PutFill(SetCell(rows, cells[0], v), cells[1..], v);
    }
  }

  lemma {:induction false} PutOtherRow(rows: seq<Row>, cells: seq<Cell>, v: nat, r: nat)
    requires r < |rows| && forall i :: 0 <= i < |cells| ==> cells[i].1 != r
    ensures |Put(rows, cells, v)| == |rows| && Put(rows, cells, v)[r] == rows[r]
    decreases |cells|
  {
    if cells != [] { PutOtherRow(SetCell(rows, cells[0], v), cells[1..], v, r); }
  }

  /** At most four rows become full at once. */
  lemma PutFullCount(rows: seq<Row>, shape: seq<Cell>, px: int, py: nat, v: nat)
    requires Wide(rows) && NoneFull(rows) && Sound(shape)
    ensures FullCount(Put(rows, At(shape, px, py), v)) <= 4
  {
    var cells := At(shape, px, py);
    var now := Put(rows, cells, v);
    PutWide(rows, cells, v);
    forall r | 0 <= r < |now| && !(py <= r < py + 4)
      ensures !Full(now[r])
    {
      PutOtherRow(rows, cells, v, r);
    }
    FullCountBound(now, py, 4);
  }

  lemma AtDistinct(shape: seq<Cell>, px: int, py: nat)
    requires Sound(shape)
    ensures Distinct(At(shape, px, py)) && BelowTop(At(shape, px, py))
  {
  }

  method PlaceCells(board: array<Row>, cells: seq<Cell>, v: nat)
    requires Wide(board[..])
    modifies board
    ensures board[..] == Put(old(board[..]), cells, v)
  {
    hide Wide;
    var i := 0;
    while i < |cells|
      invariant 0 <= i <= |cells|
      invariant Wide(board[..])
      invariant Put(board[..], cells[i..], v) == Put(old(board[..]), cells, v)
    {
      var (x, y) := cells[i];
      ghost var was := board[..];
      WideRow(was, y);
      if y >= 0 && y < board.Length && x >= 0 && x < W {
        var row: Row := board[y];
        board[y] := row[x := v];
      }
      assert board[..] == SetCell(was, cells[i], v);
      PutWide(was, [cells[i]], v);
      assert Put(was, [cells[i]], v) == board[..];
      assert cells[i..][1..] == cells[i + 1..];
      i := i + 1;
    }
  }

  lemma WideRow(rows: seq<Row>, y: int)
    requires Wide(rows)
    ensures 0 <= y < |rows| ==> |rows[y]| == W
  {
  }

  /** The score for `n` rows at once. */
  function Gain(n: nat, level: nat): nat { n * n * 100 * level }

  lemma ScoreGrows(n: nat, level: nat)
    requires level >= 1
    ensures Gain(n, level) >= 100 * n
  {
    assert n * n >= n;
    assert n * n * 100 >= 100 * n;
    assert (n * n * 100) * level >= n * n * 100;
  }

  datatype Key = Left | Right | Turn | Down | Drop | Other

  /** One pass of the main loop: the key that was waiting, if any, and the next random number. */
  datatype Tick = Tick(pressed: bool, key: Key, rand: nat)

  /** Where a key would take a piece. */
  function Target(key: Key, x: int, y: int, rot: nat): (int, int, nat) {
    match key
    case Left => (x - 1, y, rot)
    case Right => (x + 1, y, rot)
    case Turn => (x, y, (rot + 1) % 4)
    case Down => (x, y + 1, rot)
    case _ => (x, y, rot)
  }

  /** A board as the game leaves it: the cells taken are those of the locked pieces, less the cleared rows. */
  ghost predicate Settled(rows: seq<Row>, locked: nat, lines: nat) {
    |rows| == H && Wide(rows) && NoneFull(rows) && Fill(rows) + W * lines == 4 * locked
  }

  lemma EmptySettled(rows: seq<Row>)
    requires rows == Blanks(H)
    ensures Settled(rows, 0, 0)
  {
    BlanksFill(H);
    BlankNotFull();
  }

  /** Locking a piece that fits keeps the board settled and clears at most four rows. */
  lemma LockSettles(rows: seq<Row>, shape: seq<Cell>, px: int, py: nat, v: nat, locked: nat, lines: nat)
    requires Settled(rows, locked, lines) && Sound(shape) && Fits(rows, At(shape, px, py)) && v != 0
    ensures var now := Put(rows, At(shape, px, py), v);
            Wide(now) && FullCount(now) <= 4 && Settled(Cleared(now), locked + 1, lines + FullCount(now))
  {
    hide Fill, Put, FullCount, Cleared, Fits, At, Sound;
    var cells := At(shape, px, py);
    var now := Put(rows, cells, v);
    AtDistinct(shape, px, py);
    assert |cells| == 4 by { SoundLength(shape); }
    PutFill(rows, cells, v);
    PutWide(rows, cells, v);
    PutFullCount(rows, shape, px, py, v);
    ClearedBoard(now);
  }

  lemma BoardIsWide(rows: seq<Row>, locked: nat, lines: nat)
    requires Settled(rows, locked, lines)
    ensures Wide(rows)
  {
  }

  lemma SoundLength(shape: seq<Cell>)
    requires Sound(shape)
    ensures |shape| == 4
  {
  }

  // The game on values: what a tick makes of a state.

  datatype State = State(rows: seq<Row>, score: nat, lines: nat, level: nat, px: int, py: nat, rot: nat,
                         piece: nat, next: nat, timer: nat, speed: int, over: bool)
  {
    predicate Ok() { piece < 7 && next < 7 && rot < 4 }

    predicate Stands(x: int, y: int, turn: nat)
      requires piece < 7 && turn < 4
    {
      Fits(rows, At(Shape(piece, turn), x, y))
    }
  }

  function StartState(first: nat, second: nat): State {
    State(Blanks(H), 0, 0, 1, 4, 0, 0, first % 7, second % 7, 0, 40, false)
  }

  /** How far a shape falls from `y`. */
  function Landing(rows: seq<Row>, shape: seq<Cell>, px: int, y: nat): nat
    decreases if y < |rows| then |rows| - y else 0
  {
    if y < |rows| && Fits(rows, At(shape, px, y + 1)) then Landing(rows, shape, px, y + 1) else y
  }

  lemma {:induction false} LandingIs(rows: seq<Row>, shape: seq<Cell>, px: int, y: nat, bottom: nat)
    requires y <= bottom && Sound(shape) && !Fits(rows, At(shape, px, bottom + 1))
    requires forall k :: y <= k <= bottom ==> Fits(rows, At(shape, px, k))
    ensures Landing(rows, shape, px, y) == bottom
    decreases bottom - y
  {
    hide Fits, At, Sound;
    if y < bottom {
      FloorStops(rows, shape, px, y);
      LandingIs(rows, shape, px, y + 1, bottom);
    }
  }

  function SpeedAt(level: nat): int { if 40 - level * 3 < 4 then 4 else 40 - level * 3 }

  function LockedIn(s: State, rand: nat): (r: State)
    requires s.Ok()
    ensures r.Ok()
  {
    var now := Put(s.rows, At(Shape(s.piece, s.rot), s.px, s.py), s.piece + 1);
    var n := FullCount(now);
    var level := 1 + (s.lines + n) / 10;
    State(Cleared(now), s.score + Gain(n, s.level), s.lines + n, level, 4, 0, 0, s.next, rand % 7, s.timer, SpeedAt(level),
          !Fits(Cleared(now), At(Shape(s.next, 0), 4, 0)))
  }

  function MovedBy(s: State, key: Key): (r: State)
    requires s.Ok() && !key.Drop?
    ensures r.Ok()
  {
    var t := Target(key, s.px, s.py, s.rot);
    if s.Stands(t.0, t.1, t.2) then s.(px := t.0, py := t.1, rot := t.2) else s
  }

  /** What a cell of the piece is in a state. */
  function PieceCell(s: State, i: nat): Cell
    requires s.Ok() && i < |Shape(s.piece, s.rot)|
  {
    At(Shape(s.piece, s.rot), s.px, s.py)[i]
  }

  /** Left takes every cell one column to the left, where all are free, and right brings them back. */
  lemma LeftThenRight(s: State, i: nat)
    requires s.Ok() && s.Stands(s.px, s.py, s.rot) && i < |Shape(s.piece, s.rot)|
    ensures var l := MovedBy(s, Left);
            if l == s then exists j :: 0 <= j < |Shape(s.piece, s.rot)| && var c := PieceCell(s, j); !Free(s.rows, (c.0 - 1, c.1))
            else
              && PieceCell(l, i) == (PieceCell(s, i).0 - 1, PieceCell(s, i).1)
              && MovedBy(l, Right) == s
  {
    hide Shape;
    var shape := Shape(s.piece, s.rot);
    if !s.Stands(s.px - 1, s.py, s.rot) {
      var cells := At(shape, s.px - 1, s.py);
      var j :| 0 <= j < |cells| && !Free(s.rows, cells[j]);
      var c := PieceCell(s, j);
      assert cells[j] == (c.0 - 1, c.1);
    }
  }

  function Fallen(s: State, rand: nat): (r: State)
    requires s.Ok()
    ensures r.Ok()
  {
    if s.timer + 1 < s.speed then s.(timer := s.timer + 1)
    else if s.Stands(s.px, s.py + 1, s.rot) then s.(timer := 0, py := s.py + 1)
    else LockedIn(s.(timer := 0), rand)
  }

  function Ticked(s: State, tick: Tick): (r: State)
    requires s.Ok()
    ensures r.Ok()
  {
    if tick.pressed && tick.key.Drop? then
      LockedIn(s.(py := Landing(s.rows, Shape(s.piece, s.rot), s.px, s.py)), tick.rand)
    else Fallen(if tick.pressed then MovedBy(s, tick.key) else s, tick.rand)
  }

  /** A game that stops when it is over. */
  function Played(s: State, ticks: seq<Tick>): (r: State)
    requires s.Ok()
    decreases |ticks|
  {
    if ticks == [] || s.over then s else Played(Ticked(s, ticks[0]), ticks[1..])
  }

  class Game {
    const board: array<Row>
    var score: nat
    var lines: nat
    var level: nat
    var px: int
    var py: nat
    var rot: nat
    var piece: nat
    var next: nat
    var dropTimer: nat
    var dropSpeed: int
    var over: bool
    ghost var locked: nat

    /** The piece could stand at (x, y) in rotation `turn`. */
    predicate Stands(x: int, y: int, turn: nat)
      reads this, board
      requires piece < 7 && turn < 4
    {
      Fits(board[..], At(Shape(piece, turn), x, y))
    }

    /**
      What holds between frames: no row is full, the cells on the board are accounted for, the level and
      the score go with the lines, and the piece in play overlaps nothing until the game is over.
     */
    ghost predicate Valid()
      reads this, board
    {
      && Settled(board[..], locked, lines)
      && level == 1 + lines / 10 && score >= 100 * lines
      && 4 <= dropSpeed <= 40
      && piece < 7 && next < 7 && rot < 4
      && (!over ==> Stands(px, py, rot))
    }

    ghost function Snapshot(): State
      reads this, board
    {
      State(board[..], score, lines, level, px, py, rot, piece, next, dropTimer, dropSpeed, over)
    }

    constructor (first: nat, second: nat)
      ensures Valid() && fresh(board) && !over && Snapshot() == StartState(first, second)
      ensures lines == score == locked == 0 && piece == first % 7 && next == second % 7
    {
      board := new Row[H](_ => BlankRow());
      score, lines, level, locked := 0, 0, 1, 0;
      px, py, rot := 4, 0, 0;
      piece, next := first % 7, second % 7;
      dropTimer, dropSpeed, over := 0, 40, false;
      new;
      EmptySettled(board[..]);
      ShapeSound(piece, 0);
      OpensOnBlank(board[..], Shape(piece, 0));
    }

    /** The test of a position, cell by cell. */
    method IsFree(x: int, y: int, turn: nat) returns (ok: bool)
      requires Wide(board[..]) && board.Length == H && piece < 7 && turn < 4
      ensures ok == Stands(x, y, turn)
    {
      ShapeSound(piece, turn);
      ghost var cells := At(Shape(piece, turn), x, y);
      hide Shape;
      var i := 0;
      while i < 4
        invariant 0 <= i <= 4 == |cells|
        invariant forall j :: 0 <= j < i ==> Free(board[..], cells[j])
      {
        var (dx, dy) := Shape(piece, turn)[i];
        assert cells[i] == (dx + x, dy + y);
        if x + dx < 0 || x + dx >= W || y + dy >= H { return false; }
        if y + dy >= 0 && board[y + dy][x + dx] != 0 { return false; }
        i := i + 1;
      }
      return true;
    }

    /** The place of the piece. */
    function Place(): (int, int, nat)
      reads this
    {
      (px, py, rot)
    }

    /** A key takes the piece to its target exactly when the piece fits there. */
    function Reached(key: Key): (int, int, nat)
      reads this, board
      requires piece < 7 && rot < 4
    {
      var t := Target(key, px, py, rot);
      if Stands(t.0, t.1, t.2) then t else Place()
    }

    method Move(key: Key)
      requires Valid() && !over && !key.Drop?
      modifies this`px, this`py, this`rot
      ensures Valid() && Place() == old(Reached(key)) && Snapshot() == MovedBy(old(Snapshot()), key)
    {
      hide Fits, Settled, Shape;
      SettledShape();
      var (nx, ny, nr) := Target(key, px, py, rot);
      var ok := IsFree(nx, ny, nr);
      if ok {
        px, py, rot := nx, ny, nr;
      }
    }

    lemma SettledShape()
      requires Settled(board[..], locked, lines)
      ensures board.Length == H && Wide(board[..])
    {
    }

    /** The piece falls as far as it can. */
    method HardDrop()
      requires Valid() && !over
      modifies this`py
      ensures Valid() && py >= old(py)
      ensures !Stands(px, py + 1, rot) && py == Landing(board[..], Shape(piece, rot), px, old(py))
      ensures forall y :: old(py) <= y <= py ==> Stands(px, y, rot)
    {
      hide Settled, Shape, Fits;
      SettledShape();
      ShapeSound(piece, rot);
      ghost var rows, shape := board[..], Shape(piece, rot);
      var ny := py;
      var ok := IsFree(px, ny + 1, rot);
      while ok
        invariant old(py) <= ny && ok == Fits(rows, At(shape, px, ny + 1))
        invariant forall y :: old(py) <= y <= ny ==> Fits(rows, At(shape, px, y))
        decreases H - ny
      {
        FloorStops(rows, shape, px, ny + 1);
        ny := ny + 1;
        ok := IsFree(px, ny + 1, rot);
      }
      py := ny;
      forall y | old(py) <= y <= py
        ensures Stands(px, y, rot)
      {
        assert Fits(rows, At(shape, px, y));
      }
      LandingIs(rows, shape, px, old(py), py);
    }

    /** What the piece in play makes of the board, before full rows go. */
    function Merged(): seq<Row>
      reads this, board
      requires piece < 7 && rot < 4
    {
      Put(board[..], At(Shape(piece, rot), px, py), piece + 1)
    }

    /** The piece in play becomes part of the board, and full rows go. */
    method Merge() returns (cl: nat)
      requires Valid() && !over
      modifies board, this`locked
      ensures cl == FullCount(old(Merged())) <= 4 && locked == old(locked) + 1
      ensures board[..] == Cleared(old(Merged())) && Settled(board[..], locked, lines + cl)
      ensures board.Length == H && Wide(board[..])
    {
      hide Settled, Shape, Fits, FullCount, Cleared, Put;
      SettledShape();
      ShapeSound(piece, rot);
      LockSettles(board[..], Shape(piece, rot), px, py, piece + 1, locked, lines);
      PlaceCells(board, At(Shape(piece, rot), px, py), piece + 1);
      cl := ClearLines(board);
      locked := locked + 1;
      assert Wide(board[..]) by { BoardIsWide(board[..], locked, lines + cl); }
    }

    /** Locking a piece, which happens only where it cannot fall further; the next one comes in. */
    method Lock(rand: nat)
      requires Valid() && !over && !Stands(px, py + 1, rot)
      modifies this, board
      ensures Valid() && locked == old(locked) + 1
      ensures board[..] == Cleared(old(Merged())) && lines == old(lines) + FullCount(old(Merged())) <= old(lines) + 4
      ensures score == old(score) + Gain(lines - old(lines), old(level))
      ensures piece == old(next) && next == rand % 7 && (px, py, rot) == (4, 0, 0)
      ensures dropSpeed == (if 40 - level * 3 < 4 then 4 else 40 - level * 3) && dropTimer == old(dropTimer)
      ensures over <==> !Stands(4, 0, 0)
      ensures Snapshot() == LockedIn(old(Snapshot()), rand)
    {
      hide Settled, Fits, FullCount, Cleared, Put, Shape, Gain, At;
      var cl := Merge();
      Count(cl);
      NextPiece(rand);
    }

    /** Lines, score, level and speed after `cl` rows. */
    method Count(cl: nat)
      requires level == 1 + lines / 10 && score >= 100 * lines
      modifies this`lines, this`score, this`level, this`dropSpeed
      ensures lines == old(lines) + cl && score == old(score) + Gain(cl, old(level)) && score >= 100 * lines
      ensures level == 1 + lines / 10 && dropSpeed == SpeedAt(level)
    {
      ScoreGrows(cl, level);
      lines := lines + cl;
      score := score + Gain(cl, level);
      level := 1 + lines / 10;
      dropSpeed := 40 - level * 3;
      if dropSpeed < 4 { dropSpeed := 4; }
    }

    method NextPiece(rand: nat)
      requires Wide(board[..]) && board.Length == H && next < 7
      modifies this`piece, this`next, this`px, this`py, this`rot, this`over
      ensures piece == old(next) && next == rand % 7 && Place() == (4, 0, 0) && (px, py, rot) == (4, 0, 0)
      ensures over <==> !Stands(4, 0, 0)
    {
      piece, next := next, rand % 7;
      px, py, rot := 4, 0, 0;
      var ok := IsFree(px, py, rot);
      over := !ok;
    }

    /** The timer; a piece that cannot fall when it is due is locked. */
    method AutoDrop(rand: nat)
      requires Valid() && !over
      modifies this, board
      ensures Valid() && Progress(old(locked), old(lines), old(score))
      ensures dropTimer == if old(dropTimer) + 1 >= old(dropSpeed) then 0 else old(dropTimer) + 1
      ensures locked != old(locked) <==> old(dropTimer) + 1 >= old(dropSpeed) && old(!Stands(px, py + 1, rot))
      ensures locked == old(locked) ==> board[..] == old(board[..]) && piece == old(piece) && !over
      ensures locked == old(locked) ==>
        Place() == (old(px), old(py) + (if old(dropTimer) + 1 >= old(dropSpeed) then 1 else 0), old(rot))
      ensures Snapshot() == Fallen(old(Snapshot()), rand)
    {
      hide Settled, Fits, FullCount, Cleared, Put, Shape, Gain;
      SettledShape();
      dropTimer := dropTimer + 1;
      if dropTimer >= dropSpeed {
        dropTimer := 0;
        var ok := IsFree(px, py + 1, rot);
        if ok {
          py := py + 1;
        } else {
          Lock(rand);
          ScoreGrows(lines - old(lines), old(level));
        }
      }
    }

    /** Lines, score and pieces never go back, and one piece clears four lines at most. */
    ghost predicate Progress(locked0: nat, lines0: nat, score0: nat)
      reads this
    {
      && locked0 <= locked <= locked0 + 1
      && lines0 <= lines <= lines0 + 4 * (locked - locked0)
      && score >= score0 + 100 * (lines - lines0)
    }

    /** One pass of the main loop. */
    method Frame(tick: Tick)
      requires Valid() && !over
      modifies this, board
      ensures Valid() && Progress(old(locked), old(lines), old(score))
      ensures locked == old(locked) ==> board[..] == old(board[..]) && piece == old(piece) && !over
      ensures tick.pressed && tick.key.Drop? ==> locked == old(locked) + 1 && dropTimer == old(dropTimer)
      ensures !(tick.pressed && tick.key.Drop?) && old(dropTimer) + 1 < old(dropSpeed) ==>
        locked == old(locked) && Place() == if tick.pressed then old(Reached(tick.key)) else old(Place())
      ensures !(tick.pressed && tick.key.Drop?) ==>
        dropTimer == if old(dropTimer) + 1 >= old(dropSpeed) then 0 else old(dropTimer) + 1
      ensures Snapshot() == Ticked(old(Snapshot()), tick)
    {
      hide Settled, Fits, FullCount, Cleared, Put, Shape, Gain;
      if tick.pressed && tick.key.Drop? {
        HardDrop();
        Lock(tick.rand);
        ScoreGrows(lines - old(lines), old(level));
      } else {
        if tick.pressed {
          Move(tick.key);
        }
        AutoDrop(tick.rand);
      }
    }
  }

  /** Any game: whatever the keys and the random pieces, it is the one that the ticks make, and every frame ends well. */
  method Play(first: nat, second: nat, ticks: seq<Tick>) returns (game: Game)
    ensures fresh(game) && game.Valid() && game.Snapshot() == Played(StartState(first, second), ticks)
    ensures Fill(game.board[..]) + W * game.lines == 4 * game.locked <= 4 * |ticks|
    ensures game.over || Fits(game.board[..], At(Shape(game.piece, game.rot), game.px, game.py))
  {
    game := new Game(first, second);
    hide Fits, Put, Shape, Fill, Wide, NoneFull, Ticked;
    ghost var start := game.Snapshot();
    var i := 0;
    assert ticks[0..] == ticks;
    while i < |ticks| && !game.over
      invariant 0 <= i <= |ticks| && fresh(game) && fresh(game.board) && game.Valid() && game.locked <= i
      invariant Played(game.Snapshot(), ticks[i..]) == Played(start, ticks)
    {
      assert ticks[i..][1..] == ticks[i + 1..];
      game.Frame(ticks[i]);
      i := i + 1;
    }
  }

  /** The first piece fits on an empty board. */
  lemma OpensOnBlank(rows: seq<Row>, shape: seq<Cell>)
    requires rows == Blanks(H) && Sound(shape)
    ensures Fits(rows, At(shape, 4, 0))
  {
  }

  lemma FloorStops(rows: seq<Row>, shape: seq<Cell>, px: int, py: int)
    requires Fits(rows, At(shape, px, py)) && Sound(shape)
    ensures py < |rows|
  {
    assert Free(rows, At(shape, px, py)[0]);
  }
}
