/**
  Type 2 charstrings: what a program draws, as a function of the font's subroutines and the bytes.
  Coordinates are reals; a charstring index is a sequence of byte strings.
 */
module CharstringSpec {
  import opened Common

  const MOVE := 1
  const LINE := 2
  const CUBIC := 4

  const STACK_MAX := 48
  const CALL_MAX := 10

  datatype Font = Font(subrs: seq<seq<Byte>>, gsubrs: seq<seq<Byte>>)

  datatype Vertex = Vertex(kind: nat, x: int, y: int, cx: int, cy: int, cx1: int, cy1: int)

  /** A stored vertex: 16-bit coordinates. */
  function Stored(v: Vertex): Vertex {
    Vertex(v.kind, Short(v.x), Short(v.y), Short(v.cx), Short(v.cy), Short(v.cx1), Short(v.cy1))
  }

  /** `(int)`: towards zero. */
  function Trunc(r: real): int {
    if r >= 0.0 then r.Floor else -((-r).Floor)
  }

  // ----- buffers

  datatype Buf = Buf(data: seq<Byte>, cursor: nat)
  {
    predicate Ok() { cursor <= |data| }

    function Left(): nat
      requires Ok()
    {
      |data| - cursor
    }
  }

  /** Reading past the end gives zero and does not move. */
  function Get8(b: Buf): (r: (Byte, Buf))
    requires b.Ok()
    ensures r.1.Ok() && r.1.data == b.data && r.1.Left() == if b.Left() > 0 then b.Left() - 1 else 0
  {
    if b.cursor < |b.data| then (b.data[b.cursor], b.(cursor := b.cursor + 1)) else (0, b)
  }

  function Get(b: Buf, n: nat): (r: (nat, Buf))
    requires b.Ok()
    ensures r.1.Ok() && r.1.data == b.data && r.1.Left() <= b.Left()
  {
    if n == 0 then (0, b)
    else
      var (v, b1) := Get(b, n - 1);
      var (c, b2) := Get8(b1);
      (v * 256 + c, b2)
  }

  /** Skipping beyond the end stops at the end. */
  function Skip(b: Buf, n: nat): (r: Buf)
    requires b.Ok()
    ensures r.Ok() && r.data == b.data && r.Left() <= b.Left()
  {
    b.(cursor := if b.cursor + n > |b.data| then |b.data| else b.cursor + n)
  }

  /** The value of an unsigned integer of `bits` bits read as a signed one. */
  function Signed(v: nat, half: nat): int {
    if v >= half then v - 2 * half else v
  }

  /** A number, whose first byte has been read; its integer forms pass through 16 bits. */
  function Number(b0: Byte, b: Buf): (r: (real, Buf))
    requires b.Ok() && (b0 == 28 || b0 >= 32)
    ensures r.1.Ok() && r.1.Left() <= b.Left()
  {
    if b0 == 255 then
      var (v, b1) := Get(b, 4);
      (Signed(v, 0x8000_0000) as real / 65536.0, b1)
    else if b0 == 28 then
      var (v, b1) := Get(b, 2);
      (Signed(v, 0x8000) as real, b1)
    else if b0 <= 246 then ((b0 - 139) as real, b)
    else
      var (c, b1) := Get8(b);
      ((if b0 <= 250 then (b0 - 247) * 256 + c + 108 else -(b0 - 251) * 256 - c - 108) as real, b1)
  }

  // ----- drawing

  datatype Pen = Pen(x: real, y: real, firstX: real, firstY: real)

  datatype Stroke = Stroke(pen: Pen, vs: seq<Vertex>)
  {
    function Then(s: Stroke): Stroke { Stroke(s.pen, vs + s.vs) }
  }

  /** A contour that does not end where it started is closed with a line. */
  function CloseShape(p: Pen): seq<Vertex> {
    if p.firstX != p.x || p.firstY != p.y then [Vertex(LINE, Trunc(p.firstX), Trunc(p.firstY), 0, 0, 0, 0)] else []
  }

  function RMoveTo(p: Pen, dx: real, dy: real): Stroke {
    var x, y := p.x + dx, p.y + dy;
    Stroke(Pen(x, y, x, y), CloseShape(p) + [Vertex(MOVE, Trunc(x), Trunc(y), 0, 0, 0, 0)])
  }

  function RLineTo(p: Pen, dx: real, dy: real): (t: Stroke)
    ensures |t.vs| == 1
  {
    var x, y := p.x + dx, p.y + dy;
    Stroke(p.(x := x, y := y), [Vertex(LINE, Trunc(x), Trunc(y), 0, 0, 0, 0)])
  }

  function RCurveTo(p: Pen, dx1: real, dy1: real, dx2: real, dy2: real, dx3: real, dy3: real): (t: Stroke)
    ensures |t.vs| == 1
  {
    var cx1, cy1 := p.x + dx1, p.y + dy1;
    var cx2, cy2 := cx1 + dx2, cy1 + dy2;
    var x, y := cx2 + dx3, cy2 + dy3;
    Stroke(p.(x := x, y := y), [Vertex(CUBIC, Trunc(x), Trunc(y), Trunc(cx1), Trunc(cy1), Trunc(cx2), Trunc(cy2))])
  }

  function Lines(p: Pen, s: seq<real>, i: nat, end: int): Stroke
    requires i <= |s| && end <= |s|
    decreases end - i
  {
    if i + 1 >= end then Stroke(p, []) else var t := RLineTo(p, s[i], s[i + 1]); t.Then(Lines(t.pen, s, i + 2, end))
  }

  /** Alternating horizontal and vertical lines. */
  function AltLines(p: Pen, s: seq<real>, i: nat, horizontal: bool): Stroke
    requires i <= |s|
    decreases |s| - i
  {
    if i >= |s| then Stroke(p, [])
    else
      var t := if horizontal then RLineTo(p, s[i], 0.0) else RLineTo(p, 0.0, s[i]);
      t.Then(AltLines(t.pen, s, i + 1, !horizontal))
  }

  /** Alternating curves; the last may end with a fifth operand. */
  function AltCurves(p: Pen, s: seq<real>, i: nat, horizontal: bool): Stroke
    requires i <= |s|
    decreases |s| - i
  {
    if i + 3 >= |s| then Stroke(p, [])
    else
      var last := if |s| - i == 5 then s[i + 4] else 0.0;
      var t := if horizontal then RCurveTo(p, s[i], 0.0, s[i + 1], s[i + 2], last, s[i + 3])
               else RCurveTo(p, 0.0, s[i], s[i + 1], s[i + 2], s[i + 3], last);
      t.Then(AltCurves(t.pen, s, i + 4, !horizontal))
  }

  function Curves(p: Pen, s: seq<real>, i: nat, end: int): Stroke
    requires i <= |s| && end <= |s|
    decreases end - i
  {
    if i + 5 >= end then Stroke(p, [])
    else
      var t := RCurveTo(p, s[i], s[i + 1], s[i + 2], s[i + 3], s[i + 4], s[i + 5]);
      t.Then(Curves(t.pen, s, i + 6, end))
  }

  /** Curves that start and end along one axis; only the first has a cross component `f`. */
  function AxisCurves(p: Pen, s: seq<real>, i: nat, f: real, horizontal: bool): Stroke
    requires i <= |s|
    decreases |s| - i
  {
    if i + 3 >= |s| then Stroke(p, [])
    else
      var t := if horizontal then RCurveTo(p, s[i], f, s[i + 1], s[i + 2], s[i + 3], 0.0)
               else RCurveTo(p, f, s[i], s[i + 1], s[i + 2], 0.0, s[i + 3]);
      t.Then(AxisCurves(t.pen, s, i + 4, 0.0, horizontal))
  }

  function Abs(r: real): real { if r < 0.0 then -r else r }

  function TwoCurves(p: Pen, a: (real, real, real, real, real, real), b: (real, real, real, real, real, real)): Stroke {
    var t := RCurveTo(p, a.0, a.1, a.2, a.3, a.4, a.5);
    t.Then(RCurveTo(t.pen, b.0, b.1, b.2, b.3, b.4, b.5))
  }

  predicate IsFlex(b1: Byte) { 0x22 <= b1 <= 0x25 }

  /** The flex operators; `None` when operands are missing. */
  function Flex(b1: Byte, s: seq<real>, p: Pen): Option<Stroke>
    requires IsFlex(b1)
  {
    match b1
    case 0x22 =>
      if |s| < 7 then None
      else Some(TwoCurves(p, (s[0], 0.0, s[1], s[2], s[3], 0.0), (s[4], 0.0, s[5], -s[2], s[6], 0.0)))
    case 0x23 =>
      if |s| < 13 then None
      else Some(TwoCurves(p, (s[0], s[1], s[2], s[3], s[4], s[5]), (s[6], s[7], s[8], s[9], s[10], s[11])))
    case 0x24 =>
      if |s| < 9 then None
      else Some(TwoCurves(p, (s[0], s[1], s[2], s[3], s[4], 0.0), (s[5], 0.0, s[6], s[7], s[8], -(s[1] + s[3] + s[7]))))
    case _ =>
      if |s| < 11 then None
      else
        var dx, dy := s[0] + s[2] + s[4] + s[6] + s[8], s[1] + s[3] + s[5] + s[7] + s[9];
        var dx6, dy6 := if Abs(dx) > Abs(dy) then s[10] else -dx, if Abs(dx) > Abs(dy) then -dy else s[10];
        Some(TwoCurves(p, (s[0], s[1], s[2], s[3], s[4], s[5]), (s[6], s[7], s[8], s[9], dx6, dy6)))
  }

  predicate IsMoveOp(op: Byte) { op in {0x15, 0x04, 0x16} }

  predicate IsPathOp(op: Byte) {
    IsMoveOp(op) || op in {0x05, 0x07, 0x06, 0x1F, 0x1E, 0x08, 0x18, 0x19, 0x1A, 0x1B}
  }

  /** The operands a path operator needs at least. */
  function Needed(op: Byte): nat {
    if op in {0x04, 0x16, 0x06, 0x07} then 1
    else if op in {0x15, 0x05} then 2
    else if op in {0x1F, 0x1E, 0x1A, 0x1B} then 4
    else if op == 0x08 then 6
    else 8
  }

  /** Where the repeated part of `rcurveline` (6 at a time) or `rlinecurve` (2 at a time) stops. */
  function LastOf(n: nat, tail: nat, step: nat): (i: nat)
    requires step > 0 && n >= tail + step
    ensures i <= n
  {
    (n - tail) / step * step
  }

  function Path(op: Byte, s: seq<real>, p: Pen): Option<Stroke>
    requires IsPathOp(op)
  {
    var n := |s|;
    if n < Needed(op) then None
    else Some(
      match op
      case 0x15 => RMoveTo(p, s[n - 2], s[n - 1])
      case 0x04 => RMoveTo(p, 0.0, s[n - 1])
      case 0x16 => RMoveTo(p, s[n - 1], 0.0)
      case 0x05 => Lines(p, s, 0, n)
      case 0x07 => AltLines(p, s, 0, false)
      case 0x06 => AltLines(p, s, 0, true)
      case 0x1F => AltCurves(p, s, 0, true)
      case 0x1E => AltCurves(p, s, 0, false)
      case 0x08 => Curves(p, s, 0, n)
      case 0x18 =>
        var t, i := Curves(p, s, 0, n - 2), LastOf(n, 2, 6);
        t.Then(Lines(t.pen, s, i, i + 2))
      case 0x19 =>
        var t, i := Lines(p, s, 0, n - 6), LastOf(n, 6, 2);
        t.Then(Curves(t.pen, s, i, i + 6))
      case _ =>
        AxisCurves(p, s, n % 2, if n % 2 == 1 then s[0] else 0.0, op == 0x1B))
  }

  // ----- the machine

  /** `frames` holds the suspended buffers, outermost first, and the running one last. */
  datatype State = State(frames: seq<Buf>, stack: seq<real>, inHeader: bool, maskbits: nat, pen: Pen)
  {
    predicate Ok() {
      && 0 < |frames| <= CALL_MAX + 1 && |stack| <= STACK_MAX
      && forall k :: 0 <= k < |frames| ==> frames[k].Ok()
    }

    function Top(): Buf
      requires Ok()
    {
      frames[|frames| - 1]
    }

    function WithTop(b: Buf): State
      requires Ok()
    {
      this.(frames := frames[..|frames| - 1] + [b])
    }

    /** How much frame `k` may still run; an absent frame counts least. */
    function Fuel(k: nat): nat
      requires Ok()
    {
      if k < |frames| then 1 + frames[k].Left() else 0
    }
  }

  datatype Outcome = Fail | Finish(vs: seq<Vertex>) | Next(state: State, vs: seq<Vertex>)

  /** Subroutine numbers are biased by the size of the index; an empty or missing one is an error. */
  function GetSubr(index: seq<seq<Byte>>, n: int): seq<Byte> {
    var bias := if |index| >= 33900 then 32768 else if |index| >= 1240 then 1131 else 107;
    if 0 <= n + bias < |index| then index[n + bias] else []
  }

  // The groups of operators; `b` is the running buffer after the operator.

  function Mask(st: State, b: Buf): (r: Outcome)
    requires st.Ok() && b.Ok()
    ensures !r.Finish?
  {
    var bits := if st.inHeader then st.maskbits + |st.stack| / 2 else st.maskbits;
    Next(st.WithTop(Skip(b, (bits + 7) / 8)).(inHeader := false, maskbits := bits, stack := []), [])
  }

  function Hint(st: State, b: Buf): (r: Outcome)
    requires st.Ok() && b.Ok()
    ensures !r.Finish?
  {
    Next(st.WithTop(b).(maskbits := st.maskbits + |st.stack| / 2, stack := []), [])
  }

  function Draw(st: State, op: Byte, b: Buf): (r: Outcome)
    requires st.Ok() && b.Ok() && IsPathOp(op)
    ensures !r.Finish?
  {
    var t := Path(op, st.stack, st.pen);
    if t.None? then Fail
    else Next(st.WithTop(b).(inHeader := st.inHeader && !IsMoveOp(op), pen := t.value.pen, stack := []), t.value.vs)
  }

  function Call(index: seq<seq<Byte>>, st: State, b: Buf): (r: Outcome)
    requires st.Ok() && b.Ok()
    ensures !r.Finish?
  {
    var sp := |st.stack|;
    if sp < 1 || |st.frames| > CALL_MAX then Fail
    else
      var sub := GetSubr(index, Trunc(st.stack[sp - 1]));
      if sub == [] then Fail
      else Next(st.WithTop(b).(frames := st.WithTop(b).frames + [Buf(sub, 0)], stack := st.stack[..sp - 1]), [])
  }

  function Return(st: State): (r: Outcome)
    requires st.Ok()
    ensures !r.Finish?
  {
    if |st.frames| == 1 then Fail else Next(st.(frames := st.frames[..|st.frames| - 1]), [])
  }

  function Escape(st: State, b: Buf): (r: Outcome)
    requires st.Ok() && b.Ok()
    ensures !r.Finish?
  {
    var (b1, b') := Get8(b);
    if !IsFlex(b1) then Fail
    else
      var t := Flex(b1, st.stack, st.pen);
      if t.None? then Fail else Next(st.WithTop(b').(pen := t.value.pen, stack := []), t.value.vs)
  }

  function Push(st: State, b0: Byte, b: Buf): (r: Outcome)
    requires st.Ok() && b.Ok() && (b0 == 28 || b0 >= 32)
    ensures !r.Finish?
  {
    var (f, b') := Number(b0, b);
    if |st.stack| >= STACK_MAX then Fail else Next(st.WithTop(b').(stack := st.stack + [f]), [])
  }

  /** One operator or number; the running buffer has at least one byte left. */
  function Step(font: Font, st: State): (r: Outcome)
    requires st.Ok() && st.Top().Left() > 0
    ensures r.Next? ==> r.state.Ok()
  {
    var (b0, b) := Get8(st.Top());
    if b0 == 0x13 || b0 == 0x14 then Mask(st, b)
    else if b0 in {0x01, 0x03, 0x12, 0x17} then Hint(st, b)
    else if IsPathOp(b0) then Draw(st, b0, b)
    else if b0 == 0x0A then Call(font.subrs, st, b)
    else if b0 == 0x1D then Call(font.gsubrs, st, b)
    else if b0 == 0x0B then Return(st)
    else if b0 == 0x0E then Finish(CloseShape(st.pen))
    else if b0 == 0x0C then Escape(st, b)
    else if b0 != 28 && b0 < 32 then Fail
    else Push(st, b0, b)
  }

  /** Every step uses up a byte of some frame and, at most, replaces what runs above it. */
  ghost predicate Shrinks(a: State, b: State)
    requires a.Ok() && b.Ok()
  {
    exists k :: 0 <= k <= CALL_MAX && b.Fuel(k) < a.Fuel(k) && forall j :: 0 <= j < k ==> b.Fuel(j) == a.Fuel(j)
  }

  lemma StepShrinks(font: Font, st: State)
    requires st.Ok() && st.Top().Left() > 0 && Step(font, st).Next?
    ensures Shrinks(st, Step(font, st).state)
  {
    hide Path, Flex, Trunc, GetSubr, Number, Skip;
    var st' := Step(font, st).state;
    var h := |st.frames| - 1;
    assert forall j :: 0 <= j < h ==> st'.Fuel(j) == st.Fuel(j);
    assert st'.Fuel(h) < st.Fuel(h);
  }

  /** Everything the program draws from a state on; `None` when it ends in an error. */
  function Run(font: Font, st: State): Option<seq<Vertex>>
    requires st.Ok()
    decreases st.Fuel(0), st.Fuel(1), st.Fuel(2), st.Fuel(3), st.Fuel(4), st.Fuel(5), st.Fuel(6), st.Fuel(7),
      st.Fuel(8), st.Fuel(9), st.Fuel(10)
  {
    if st.Top().Left() == 0 then None
    else
      match Step(font, st)
      case Fail => None
      case Finish(vs) => Some(vs)
      case Next(st', vs) =>
        StepShrinks(font, st);
        var more := Run(font, st');
        if more.None? then None else Some(vs + more.value)
  }

  function Start(charstring: seq<Byte>): State {
    State([Buf(charstring, 0)], [], true, 0, Pen(0.0, 0.0, 0.0, 0.0))
  }
}
