/**
  The Tetris board: an array of rows and the in-place removal of the full ones.
 */
module TetrisBoard {
  const W := 10
  const H := 20

  /** A cell holds 0 when it is empty and the number of a piece plus 1 otherwise. */
  type Row = seq<nat>

  predicate Full(row: Row) { forall c :: 0 <= c < |row| ==> row[c] != 0 }

  function BlankRow(): Row { seq(W, _ => 0) }

  function Blanks(n: nat): (rows: seq<Row>)
    ensures |rows| == n
  {
    seq(n, _ => BlankRow())
  }

  /** The rows that are not full, in their order. */
  function Kept(rows: seq<Row>): seq<Row> {
    if rows == [] then [] else (if Full(rows[0]) then [] else [rows[0]]) + Kept(rows[1..])
  }

  function FullCount(rows: seq<Row>): nat {
    if rows == [] then 0 else (if Full(rows[0]) then 1 else 0) + FullCount(rows[1..])
  }

  /** What clearing makes of a board. */
  function Cleared(rows: seq<Row>): seq<Row> { Blanks(FullCount(rows)) + Kept(rows) }

  predicate NoneFull(rows: seq<Row>) { forall r :: 0 <= r < |rows| ==> !Full(rows[r]) }

  predicate Wide(rows: seq<Row>) { forall r :: 0 <= r < |rows| ==> |rows[r]| == W }

  function RowFill(row: Row): nat {
    if row == [] then 0 else (if row[0] != 0 then 1 else 0) + RowFill(row[1..])
  }

  /** How many cells of the board are taken. */
  function Fill(rows: seq<Row>): nat {
    if rows == [] then 0 else RowFill(rows[0]) + Fill(rows[1..])
  }

  // Counting.

  lemma {:induction false} FullRowFill(row: Row)
    requires Full(row)
    ensures RowFill(row) == |row|
  {
    if row != [] { FullRowFill(row[1..]); }
  }

  lemma {:induction false} BlankFill(row: Row)
    requires forall c :: 0 <= c < |row| ==> row[c] == 0
    ensures RowFill(row) == 0
  {
    if row != [] { BlankFill(row[1..]); }
  }

  lemma {:induction false} RowFillUpdate(row: Row, x: nat, v: nat)
    requires x < |row| && row[x] == 0 && v != 0
    ensures RowFill(row[x := v]) == RowFill(row) + 1
  {
    if x == 0 {
      assert row[x := v][1..] == row[1..];
    } else {
      assert row[x := v][1..] == row[1..][x - 1 := v];
      RowFillUpdate(row[1..], x - 1, v);
    }
  }

  lemma {:induction false} FillUpdate(rows: seq<Row>, y: nat, row: Row)
    requires y < |rows|
    ensures Fill(rows[y := row]) == Fill(rows) - RowFill(rows[y]) + RowFill(row)
  {
    if y == 0 {
      assert rows[y := row][1..] == rows[1..];
    } else {
      assert rows[y := row][1..] == rows[1..][y - 1 := row];
      FillUpdate(rows[1..], y - 1, row);
    }
  }

  lemma {:induction false} FillConcat(a: seq<Row>, b: seq<Row>)
    ensures Fill(a + b) == Fill(a) + Fill(b)
  {
    if a == [] {
      assert a + b == b;
    } else {
      assert (a + b)[1..] == a[1..] + b;
      FillConcat(a[1..], b);
    }
  }

  lemma {:induction false} BlanksFill(n: nat)
    ensures Fill(Blanks(n)) == 0
  {
    if n != 0 {
      BlankFill(BlankRow());
      assert Blanks(n)[1..] == Blanks(n - 1);
      BlanksFill(n - 1);
    }
  }

  lemma {:induction false} KeptFill(rows: seq<Row>)
    requires Wide(rows)
    ensures Fill(Kept(rows)) == Fill(rows) - W * FullCount(rows)
    ensures |Kept(rows)| + FullCount(rows) == |rows|
    ensures Wide(Kept(rows)) && NoneFull(Kept(rows))
  {
    if rows != [] {
      KeptFill(rows[1..]);
      if Full(rows[0]) {
        FullRowFill(rows[0]);
        assert Kept(rows) == Kept(rows[1..]);
      } else {
        assert Kept(rows)[1..] == Kept(rows[1..]);
      }
    }
  }

  /**
    Clearing keeps the height and the width, leaves no full row, and takes away exactly the cells of the
    full rows.
   */
  lemma ClearedBoard(rows: seq<Row>)
    requires Wide(rows)
    ensures |Cleared(rows)| == |rows| && Wide(Cleared(rows)) && NoneFull(Cleared(rows))
    ensures Fill(Cleared(rows)) + W * FullCount(rows) == Fill(rows)
  {
    hide Fill, Kept, FullCount;
    KeptFill(rows);
    BlanksFill(FullCount(rows));
    FillConcat(Blanks(FullCount(rows)), Kept(rows));
    assert BlankRow()[0] == 0;
  }

  lemma {:induction false} FullCountBound(rows: seq<Row>, from: nat, n: nat)
    requires forall r :: 0 <= r < |rows| && !(from <= r < from + n) ==> !Full(rows[r])
    ensures FullCount(rows) <= n
  {
    if rows != [] {
      if from == 0 && n > 0 {
        FullCountBound(rows[1..], 0, n - 1);
      } else if from == 0 {
        FullCountBound(rows[1..], 0, 0);
      } else {
        FullCountBound(rows[1..], from - 1, n);
      }
    }
  }

  // Clearing in place.

  /** Every row above `r` moves down by one, over row `r`, and a blank one comes in at the top. */
  method DropRowsAbove(board: array<Row>, r: nat)
    requires r < board.Length
    modifies board
    ensures board[..] == [BlankRow()] + old(board[..])[..r] + old(board[..])[r + 1..]
  {
    var rr := r;
    while rr > 0
      invariant 0 <= rr <= r
      invariant forall i :: 0 <= i <= rr ==> board[i] == old(board[i])
      invariant forall i :: rr < i <= r ==> board[i] == old(board[i - 1])
      invariant forall i :: r < i < board.Length ==> board[i] == old(board[i])
    {
      board[rr] := board[rr - 1];
      rr := rr - 1;
    }
    board[0] := BlankRow();
  }

  method IsFull(row: Row) returns (full: bool)
    ensures full == Full(row)
  {
    full := true;
    var c := 0;
    while c < |row|
      invariant 0 <= c <= |row| && full && forall i :: 0 <= i < c ==> row[i] != 0
    {
      if row[c] == 0 { return false; }
      c := c + 1;
    }
  }

  /** The board while rows below the first `k` of `was` have been dealt with. */
  ghost predicate Partly(now: seq<Row>, was: seq<Row>, k: nat, cleared: nat) {
    && k <= |was|
    && cleared == FullCount(was[k..])
    && now == Blanks(cleared) + was[..k] + Kept(was[k..])
  }

  lemma PartlyKeep(now: seq<Row>, was: seq<Row>, k: nat, cleared: nat)
    requires Partly(now, was, k, cleared) && 0 < k && !Full(was[k - 1])
    ensures Partly(now, was, k - 1, cleared)
  {
    assert was[k - 1..][1..] == was[k..];
    assert was[..k] == was[..k - 1] + [was[k - 1]];
    assert now == Blanks(cleared) + was[..k - 1] + ([was[k - 1]] + Kept(was[k..]));
  }

  lemma PartlyClear(now: seq<Row>, was: seq<Row>, k: nat, cleared: nat)
    requires Partly(now, was, k, cleared) && 0 < k && Full(was[k - 1])
    ensures k - 1 + cleared < |now|
    ensures Partly([BlankRow()] + now[..k - 1 + cleared] + now[k + cleared..], was, k - 1, cleared + 1)
  {
    assert was[k - 1..][1..] == was[k..];
    assert now[..k - 1 + cleared] == Blanks(cleared) + was[..k - 1];
    assert now[k + cleared..] == Kept(was[k..]);
    assert [BlankRow()] + Blanks(cleared) == Blanks(cleared + 1);
  }

  lemma PartlyRow(now: seq<Row>, was: seq<Row>, k: nat, cleared: nat, r: nat)
    requires Partly(now, was, k, cleared) && r < |now|
    ensures k > 0 && r + 1 == k + cleared ==> now[r] == was[k - 1]
    ensures r < cleared ==> now[r] == BlankRow()
  {
  }

  /** The scan goes up from the bottom and looks at a row again after it has replaced it. */
  method ClearLines(board: array<Row>) returns (cleared: nat)
    requires Wide(board[..])
    modifies board
    ensures cleared == FullCount(old(board[..]))
    ensures board[..] == Cleared(old(board[..]))
  {
    hide FullCount, Kept, Full, Blanks, BlankRow, Wide, Partly;
    cleared := 0;
    ghost var was := board[..];
    ghost var k: nat := board.Length;
    var r := board.Length - 1;
    PartlyBegin(was);
    while r >= 0
      invariant -1 <= r < board.Length == |was|
      invariant Partly(board[..], was, k, cleared)
      invariant k == if r + 1 >= cleared then r + 1 - cleared else 0
      decreases r + k
    {
      PartlyRow(board[..], was, k, cleared, r);
      var full := IsFull(board[r]);
      BlankNotFull();
      if full {
        ghost var now := board[..];
        PartlyClear(now, was, k, cleared);
        DropRowsAbove(board, r);
        assert board[..] == [BlankRow()] + now[..r] + now[r + 1..];
        cleared := cleared + 1;
        k := k - 1;
      } else {
        if k > 0 {
          PartlyKeep(board[..], was, k, cleared);
          k := k - 1;
        }
        r := r - 1;
      }
    }
    PartlyEnd(board[..], was, cleared);
  }

  lemma BlankNotFull()
    ensures !Full(BlankRow())
  {
    assert BlankRow()[0] == 0;
  }

  lemma PartlyBegin(was: seq<Row>)
    ensures Partly(was, was, |was|, 0)
  {
  }

  lemma PartlyEnd(now: seq<Row>, was: seq<Row>, cleared: nat)
    requires Partly(now, was, 0, cleared)
    ensures now == Cleared(was) && cleared == FullCount(was)
  {
    assert was[0..] == was;
  }
}
