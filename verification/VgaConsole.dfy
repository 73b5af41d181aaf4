/**
  The text console: 25 rows of 80 cells with a scrollback ring of 100 lines, refining a terminal that
  prints on an endless roll of paper and never scrolls.
 */
module VgaConsole {
  import opened Common

  const W := 80
  const H := 25
  const SCROLLBACK := 100

  const BLANK := 32
  const NEWLINE := 10
  const RETURN := 13
  const BACKSPACE := 8
  const TAB := 9

  datatype Cell = Cell(ch: nat, colour: nat)

  type Line = seq<Cell>

  function BlankLine(colour: nat): (line: Line)
    ensures |line| == W
  {
    seq(W, _ => Cell(BLANK, colour))
  }

  // The roll of paper.

  datatype Paper = Paper(lines: seq<Line>, x: nat, row: nat)
  {
    predicate Proper() {
      x < W && row < |lines| && forall k :: 0 <= k < |lines| ==> |lines[k]| == W
    }
  }

  /** Paper is added only when the cursor leaves the last line. */
  function NextLine(p: Paper, colour: nat): Paper {
    Paper(if p.row + 1 < |p.lines| then p.lines else p.lines + [BlankLine(colour)], 0, p.row + 1)
  }

  function Ink(p: Paper, ch: nat, colour: nat): Paper
    requires p.Proper()
  {
    p.(lines := p.lines[p.row := p.lines[p.row][p.x := Cell(ch, colour)]])
  }

  /** Printing one character. */
  function Print(p: Paper, ch: nat, colour: nat): Paper
    requires p.Proper()
  {
    if ch == NEWLINE then NextLine(p, colour)
    else if ch == RETURN then p.(x := 0)
    else if ch == BACKSPACE then (if p.x == 0 then p else Ink(p.(x := p.x - 1), BLANK, colour))
    else if ch == TAB then (if p.x / 8 * 8 + 8 < W then p.(x := p.x / 8 * 8 + 8) else NextLine(p, colour))
    else if p.x + 1 < W then Ink(p, ch, colour).(x := p.x + 1)
    else NextLine(Ink(p, ch, colour), colour)
  }

  lemma PrintProper(p: Paper, ch: nat, colour: nat)
    requires p.Proper()
    ensures Print(p, ch, colour).Proper()
  {
  }

  /** What a program does to the console: it prints a character or changes the colour. */
  datatype Event = Char(ch: nat) | Colour(colour: nat)

  /** The paper after a run of events. */
  function Printed(p: Paper, colour: nat, events: seq<Event>): Paper
    requires p.Proper()
    decreases |events|
  {
    if events == [] then p
    else match events[0]
      case Char(ch) => PrintProper(p, ch, colour); Printed(Print(p, ch, colour), colour, events[1..])
      case Colour(c) => Printed(p, c, events[1..])
  }

  // The console.

  function RowOf(mem: array2<Cell>, r: nat): (line: Line)
    requires r < mem.Length0 && mem.Length1 == W
    reads mem
    ensures |line| == W
  {
    seq(W, c requires 0 <= c < W reads mem => mem[r, c])
  }

  function RowsOf(mem: array2<Cell>): (lines: seq<Line>)
    requires mem.Length1 == W
    reads mem
    ensures |lines| == mem.Length0 && forall r :: 0 <= r < mem.Length0 ==> lines[r] == RowOf(mem, r)
  {
    seq(mem.Length0, r requires 0 <= r < mem.Length0 reads mem => RowOf(mem, r))
  }

  function Min(a: nat, b: nat): nat { if a < b then a else b }

  /** The ring holds the latest lines of the history, as many as it has room for. */
  ghost predicate Remembers(ring: seq<Line>, history: seq<Line>) {
    && |ring| == SCROLLBACK
    && forall k :: |history| - Min(|history|, SCROLLBACK) <= k < |history| ==> ring[Slot(k, SCROLLBACK)] == history[k]
  }

  lemma RemembersNext(ring: seq<Line>, history: seq<Line>, line: Line)
    requires Remembers(ring, history)
    ensures Remembers(ring[Slot(|history|, SCROLLBACK) := line], history + [line])
  {
    var now, past := ring[Slot(|history|, SCROLLBACK) := line], history + [line];
    forall k | |past| - Min(|past|, SCROLLBACK) <= k < |past|
      ensures now[Slot(k, SCROLLBACK)] == past[k]
    {
      if k < |history| { SlotsDiffer(k, |history|, SCROLLBACK); }
    }
  }

  method CopyRow(from: array2<Cell>, r: nat, to: array2<Cell>, s: nat)
    requires r < from.Length0 && s < to.Length0 && from.Length1 == to.Length1 == W
    requires from != to || r != s
    modifies to
    ensures RowsOf(to) == old(RowsOf(to))[s := old(RowOf(from, r))]
  {
    ghost var line := RowOf(from, r);
    for c := 0 to W
      invariant forall i :: 0 <= i < c ==> to[s, i] == line[i]
      invariant forall a, b :: 0 <= a < to.Length0 && 0 <= b < W && !(a == s && b < c) ==> to[a, b] == old(to[a, b])
      invariant forall i :: c <= i < W ==> from[r, i] == line[i]
    {
      to[s, c] := from[r, c];
    }
    Rows(to, old(RowsOf(to))[s := line]);
  }

  lemma Rows(mem: array2<Cell>, lines: seq<Line>)
    requires mem.Length1 == W && |lines| == mem.Length0
    requires forall r :: 0 <= r < |lines| ==> |lines[r]| == W
    requires forall r, c :: 0 <= r < mem.Length0 && 0 <= c < W ==> mem[r, c] == lines[r][c]
    ensures RowsOf(mem) == lines
  {
    forall r | 0 <= r < mem.Length0 ensures RowsOf(mem)[r] == lines[r] {
      assert RowOf(mem, r) == lines[r];
    }
  }

  method FillRow(mem: array2<Cell>, s: nat, colour: nat)
    requires s < mem.Length0 && mem.Length1 == W
    modifies mem
    ensures RowsOf(mem) == old(RowsOf(mem))[s := BlankLine(colour)]
  {
    for c := 0 to W
      invariant forall i :: 0 <= i < c ==> mem[s, i] == Cell(BLANK, colour)
      invariant forall a, b :: 0 <= a < mem.Length0 && 0 <= b < W && !(a == s && b < c) ==> mem[a, b] == old(mem[a, b])
    {
      mem[s, c] := Cell(BLANK, colour);
    }
    Rows(mem, old(RowsOf(mem))[s := BlankLine(colour)]);
  }

  method ShiftUp(mem: array2<Cell>)
    requires mem.Length0 == H && mem.Length1 == W
    modifies mem
    ensures RowsOf(mem)[..H - 1] == old(RowsOf(mem))[1..]
  {
    ghost var was := RowsOf(mem);
    hide RowsOf, RowOf;
    var r := 1;
    while r < H
      invariant 1 <= r <= H
      invariant forall k :: 0 <= k < r - 1 ==> RowsOf(mem)[k] == was[k + 1]
      invariant forall k :: r - 1 <= k < H ==> RowsOf(mem)[k] == was[k]
    {
      CopyRow(mem, r, mem, r - 1);
      r := r + 1;
    }
  }

  /** All lines but the last move down by one; the first stays. */
  method ShiftDown(mem: array2<Cell>)
    requires mem.Length0 == H && mem.Length1 == W
    modifies mem
    ensures RowsOf(mem) == [old(RowsOf(mem))[0]] + old(RowsOf(mem))[..H - 1]
  {
    hide RowOf, RowsOf;
    ghost var was := RowsOf(mem);
    var r := H - 1;
    while r > 0
      invariant 0 <= r < H
      invariant forall k :: 0 <= k <= r ==> RowsOf(mem)[k] == was[k]
      invariant forall k :: r < k < H ==> RowsOf(mem)[k] == was[k - 1]
    {
      CopyRow(mem, r - 1, mem, r);
      r := r - 1;
    }
  }

  class Console {
    const mem: array2<Cell>
    const scrollback: array2<Cell>
    var vx: nat
    var vy: nat
    var vc: nat
    var pos: nat
    var count: nat

    /** Every line that has left the screen, the oldest first. */
    ghost var history: seq<Line>

    ghost predicate Shaped()
      reads this
    {
      && mem.Length0 == H && mem.Length1 == W && scrollback.Length0 == SCROLLBACK && scrollback.Length1 == W
      && mem != scrollback
    }

    ghost predicate Valid()
      reads this, mem, scrollback
    {
      && Shaped() && vx < W && vy < H
      && pos == Slot(|history|, SCROLLBACK) && count == Min(|history|, SCROLLBACK)
      && (forall k :: 0 <= k < |history| ==> |history[k]| == W)
      && Remembers(RowsOf(scrollback), history)
    }

    /** The paper that the console shows the end of. */
    ghost function Roll(): (p: Paper)
      requires Shaped()
      reads this, mem
    {
      Paper(history + RowsOf(mem), vx, |history| + vy)
    }

    constructor (colour: nat)
      ensures Valid() && fresh(mem) && fresh(scrollback) && vc == colour
      ensures Roll() == Paper(seq(H, _ => BlankLine(colour)), 0, 0)
    {
      mem := new Cell[H, W]((_, _) => Cell(BLANK, colour));
      scrollback := new Cell[SCROLLBACK, W]((_, _) => Cell(0, 0));
      vx, vy, vc, pos, count, history := 0, 0, colour, 0, 0, [];
      new;
      Rows(mem, seq(H, _ => BlankLine(colour)));
    }

    /** A cell outside the screen is ignored. */
    method SetAt(ch: nat, colour: nat, x: int, y: int)
      requires Shaped()
      modifies mem
      ensures RowsOf(mem) == if 0 <= x < W && 0 <= y < H
        then old(RowsOf(mem))[y := old(RowsOf(mem))[y][x := Cell(ch, colour)]] else old(RowsOf(mem))
    {
      if x < 0 || x >= W || y < 0 || y >= H { return; }
      ghost var was := RowsOf(mem);
      mem[y, x] := Cell(ch, colour);
      Rows(mem, was[y := was[y][x := Cell(ch, colour)]]);
    }

    /** The top line goes to the scrollback, the others move up, and a blank line comes in. */
    method Scroll()
      requires Valid()
      modifies this, mem, scrollback
      ensures Valid() && vy == H - 1 && vx == old(vx) && vc == old(vc)
      ensures history == old(history) + [old(RowsOf(mem))[0]]
      ensures RowsOf(mem) == old(RowsOf(mem))[1..] + [BlankLine(vc)]
    {
      hide RowOf, Slot, Remembers;
      RemembersNext(RowsOf(scrollback), history, RowOf(mem, 0));
      CopyRow(mem, 0, scrollback, pos);
      SlotNext(|history|);
      history := history + [RowOf(mem, 0)];
      pos := (pos + 1) % SCROLLBACK;
      if count < SCROLLBACK { count := count + 1; }
      ShiftUp(mem);
      FillRow(mem, H - 1, vc);
      vy := H - 1;
    }

    /** The cursor goes to the start of the next line. */
    method NewRow()
      requires Valid()
      modifies this, mem, scrollback
      ensures Valid() && vc == old(vc) && Roll() == NextLine(old(Roll()), vc)
    {
      hide RowsOf, RowOf, Slot, Remembers;
      vx := 0;
      if vy + 1 >= H {
        Scroll();
        ghost var was := old(RowsOf(mem));
        assert old(history) + [was[0]] + (was[1..] + [BlankLine(vc)]) == old(history) + was + [BlankLine(vc)];
      } else {
        vy := vy + 1;
      }
    }

    /** A cell of the line with the cursor is written. */
    method Write(ch: nat)
      requires Valid()
      modifies mem
      ensures Valid() && Roll().Proper() && old(Roll().Proper()) && Roll() == Ink(old(Roll()), ch, vc)
    {
      hide RowsOf, RowOf, Slot, Remembers;
      ghost var was := RowsOf(mem);
      SetAt(ch, vc, vx, vy);
      assert (history + was)[|history| + vy] == was[vy];
      assert history + RowsOf(mem) == (history + was)[|history| + vy := was[vy][vx := Cell(ch, vc)]];
    }

    method PutChar(ch: nat)
      requires Valid()
      modifies this, mem, scrollback
      ensures Valid() && vc == old(vc) && old(Roll().Proper()) && Roll() == Print(old(Roll()), ch, vc)
    {
      hide RowsOf, RowOf, Slot, Remembers;
      ghost var was := Roll();
      assert was.Proper();
      if ch == NEWLINE {
        NewRow();
      } else if ch == RETURN {
        vx := 0;
      } else if ch == BACKSPACE {
        if vx > 0 {
          vx := vx - 1;
          Write(BLANK);
        }
      } else if ch == TAB {
        if vx / 8 * 8 + 8 >= W {
          NewRow();
        } else {
          vx := vx / 8 * 8 + 8;
        }
      } else {
        Write(ch);
        if vx + 1 >= W {
          NewRow();
        } else {
          vx := vx + 1;
        }
      }
    }

    /** Any run of events: the console is the end of the paper that the events print. */
    method Run(events: seq<Event>)
      requires Valid()
      modifies this, mem, scrollback
      ensures Valid() && old(Roll().Proper()) && Roll() == Printed(old(Roll()), old(vc), events)
    {
      hide RowsOf, RowOf, Slot, Remembers, Print;
      ghost var start, colour := Roll(), vc;
      RollProper();
      var i := 0;
      while i < |events|
        invariant 0 <= i <= |events| && Valid() && Roll().Proper()
        invariant Printed(Roll(), vc, events[i..]) == Printed(start, colour, events)
      {
        assert events[i..][1..] == events[i + 1..];
        match events[i] {
          case Char(ch) => PutChar(ch);
          case Colour(c) => vc := c;
        }
        RollProper();
        i := i + 1;
      }
    }

    lemma RollProper()
      requires Valid()
      ensures Roll().Proper()
    {
    }

    /** The oldest line of the scrollback, not the latest one, comes in at the top, and the bottom line is lost. */
    method ScrollUp()
      requires Valid()
      modifies this`vy, mem
      ensures |history| == 0 ==> RowsOf(mem) == old(RowsOf(mem)) && vy == old(vy)
      ensures |history| > 0 ==> RowsOf(mem) == [history[|history| - count]] + old(RowsOf(mem))[..H - 1] && vy == 0
    {
      if count == 0 { return; }
      ghost var was := RowsOf(mem);
      var oldest := (pos - count + SCROLLBACK) % SCROLLBACK;
      OldestSlot(|history|);
      assert RowsOf(scrollback)[Slot(|history| - count, SCROLLBACK)] == history[|history| - count];
      hide RowsOf, RowOf, Remembers, Slot;
      ShiftDown(mem);
      assert RowOf(scrollback, oldest) == RowsOf(scrollback)[oldest];
      CopyRow(scrollback, oldest, mem, 0);
      vy := 0;
    }

    /** Scrolling back one line undoes a scroll exactly when the line that left is also the oldest one kept. */
    method ScrollAndBack()
      requires Valid()
      modifies this, mem, scrollback
      ensures var past := old(history) + [old(RowsOf(mem))[0]];
              RowsOf(mem) == old(RowsOf(mem)) <==> past[|past| - Min(|past|, SCROLLBACK)] == old(RowsOf(mem))[0]
    {
      hide RowsOf, RowOf, Slot, Remembers;
      ghost var was := RowsOf(mem);
      Scroll();
      ScrollUp();
      assert (was[1..] + [BlankLine(vc)])[..H - 1] == was[1..];
      assert was == [was[0]] + was[1..];
      assert RowsOf(mem)[0] == history[|history| - count];
    }
  }

  /** A line with a letter on it has left the screen. */
  ghost predicate LetterGone(c: Console)
    reads c, c.mem, c.scrollback
  {
    c.Valid() && c.history == [BlankLine(7)[0 := Cell(65, 7)]] && RowsOf(c.mem)[0] == BlankLine(7)
  }

  method GoneLetter() returns (c: Console)
    ensures LetterGone(c)
  {
    hide RowsOf, RowOf, Slot, Remembers;
    c := new Console(7);
    assert c.history == [];
    ghost var blank := RowsOf(c.mem);
    assert forall k :: 0 <= k < H ==> blank[k] == c.Roll().lines[k];
    c.SetAt(65, 7, 0, 0);
    c.Scroll();
  }

  /** Then a blank line scrolls away, and scrolling back shows the letter instead. */
  method WrongLineBack(c: Console)
    requires LetterGone(c)
    modifies c, c.mem, c.scrollback
    ensures c.Shaped() && RowsOf(c.mem) != old(RowsOf(c.mem))
  {
    hide RowsOf, RowOf, Slot, Remembers;
    ghost var past := c.history + [RowsOf(c.mem)[0]];
    assert past[0][0] == Cell(65, 7) && past[1][0] == Cell(BLANK, 7);
    assert past[|past| - Min(|past|, SCROLLBACK)] == past[0];
    c.ScrollAndBack();
  }

  lemma OldestSlot(n: nat)
    requires n > 0
    ensures (Slot(n, SCROLLBACK) - Min(n, SCROLLBACK) + SCROLLBACK) % SCROLLBACK == Slot(n - Min(n, SCROLLBACK), SCROLLBACK)
  {
  }

  lemma SlotNext(k: nat)
    ensures Slot(k + 1, SCROLLBACK) == (Slot(k, SCROLLBACK) + 1) % SCROLLBACK
  {
  }
}
