/**
  The charstring interpreter: an operand stack of 48 numbers, a call stack of 10 buffers, and a
  context that either counts vertices and tracks their bounds or stores them.
 */
module Charstring {
  import opened CharstringSpec
  import Shape = CharstringShape
  import opened Common

  /** The points a vertex contributes to the bounds. */
  function PointsOf(v: Vertex): seq<(int, int)> {
    [(v.x, v.y)] + if v.kind == CUBIC then [(v.cx, v.cy), (v.cx1, v.cy1)] else []
  }

  function Points(vs: seq<Vertex>): seq<(int, int)> {
    if vs == [] then [] else Points(vs[..|vs| - 1]) + PointsOf(vs[|vs| - 1])
  }

  datatype Box = Box(minX: int, maxX: int, minY: int, maxY: int)

  /** The least box around some points: nothing is outside and every side is touched. */
  ghost predicate Bounds(b: Box, ps: seq<(int, int)>) {
    && (forall k :: 0 <= k < |ps| ==> b.minX <= ps[k].0 <= b.maxX && b.minY <= ps[k].1 <= b.maxY)
    && (exists k :: 0 <= k < |ps| && ps[k].0 == b.minX)
    && (exists k :: 0 <= k < |ps| && ps[k].0 == b.maxX)
    && (exists k :: 0 <= k < |ps| && ps[k].1 == b.minY)
    && (exists k :: 0 <= k < |ps| && ps[k].1 == b.maxY)
  }

  function Grow(b: Box, x: int, y: int, started: bool): Box {
    Box(if x < b.minX || !started then x else b.minX, if x > b.maxX || !started then x else b.maxX,
        if y < b.minY || !started then y else b.minY, if y > b.maxY || !started then y else b.maxY)
  }

  lemma GrowBounds(b: Box, ps: seq<(int, int)>, x: int, y: int)
    requires ps != [] ==> Bounds(b, ps)
    ensures Bounds(Grow(b, x, y, ps != []), ps + [(x, y)])
  {
    var b', qs := Grow(b, x, y, ps != []), ps + [(x, y)];
    assert qs[|ps|] == (x, y);
    if ps != [] {
      var k0 :| 0 <= k0 < |ps| && ps[k0].0 == b.minX;
      var k1 :| 0 <= k1 < |ps| && ps[k1].0 == b.maxX;
      var k2 :| 0 <= k2 < |ps| && ps[k2].1 == b.minY;
      var k3 :| 0 <= k3 < |ps| && ps[k3].1 == b.maxY;
      assert qs[k0].0 == b.minX && qs[k1].0 == b.maxX && qs[k2].1 == b.minY && qs[k3].1 == b.maxY;
    }
  }

  class Context {
    const bounds: bool
    const pvertices: array<Vertex>
    var started: bool
    var firstX: real
    var firstY: real
    var x: real
    var y: real
    var box: Box
    var numVertices: nat
    ghost var drawn: seq<Vertex>

    constructor (bounds: bool, pvertices: array<Vertex>)
      ensures Valid() && drawn == [] && GetPen() == Pen(0.0, 0.0, 0.0, 0.0)
      ensures this.bounds == bounds && this.pvertices == pvertices
    {
      this.bounds, this.pvertices := bounds, pvertices;
      started := false;
      firstX, firstY, x, y := 0.0, 0.0, 0.0, 0.0;
      box := Box(0, 0, 0, 0);
      numVertices, drawn := 0, [];
    }

    function GetPen(): Pen
      reads this
    {
      Pen(x, y, firstX, firstY)
    }

    /** The counter counts; one mode knows the bounds, the other has stored everything. */
    ghost predicate Valid()
      reads this, pvertices
    {
      && numVertices == |drawn|
      && (bounds ==> started == (drawn != []) && (if started then Bounds(box, Points(drawn)) else box == Box(0, 0, 0, 0)))
      && (!bounds ==> numVertices <= pvertices.Length && forall k :: 0 <= k < numVertices ==> pvertices[k] == Stored(drawn[k]))
    }

    ghost predicate Room(n: nat)
      reads this
    {
      bounds || |drawn| + n <= pvertices.Length
    }

    method TrackVertex(px: int, py: int, ghost ps: seq<(int, int)>)
      requires started == (ps != []) && (started ==> Bounds(box, ps))
      modifies this`started, this`box
      ensures started && Bounds(box, ps + [(px, py)])
    {
      GrowBounds(box, ps, px, py);
      box := Grow(box, px, py, started);
      started := true;
    }

    method AddVertex(v: Vertex)
      requires Valid() && Room(1)
      modifies this, pvertices
      ensures Valid() && drawn == old(drawn) + [v] && GetPen() == old(GetPen())
    {
      hide Bounds, Stored;
      ghost var all := drawn + [v];
      assert all[..|all| - 1] == drawn;
      if bounds {
        ghost var ps := Points(drawn);
        PointsExist(drawn);
        TrackVertex(v.x, v.y, ps);
        if v.kind == CUBIC {
          TrackVertex(v.cx, v.cy, ps + [(v.x, v.y)]);
          TrackVertex(v.cx1, v.cy1, ps + [(v.x, v.y)] + [(v.cx, v.cy)]);
          assert ps + [(v.x, v.y)] + [(v.cx, v.cy)] + [(v.cx1, v.cy1)] == Points(all);
        } else {
          assert ps + [(v.x, v.y)] == Points(all);
        }
      } else {
        pvertices[numVertices] := Stored(v);
      }
      numVertices := numVertices + 1;
      drawn := all;
    }

    method CloseShape()
      requires Valid() && Room(|CharstringSpec.CloseShape(GetPen())|)
      modifies this, pvertices
      ensures Valid() && drawn == old(drawn) + CharstringSpec.CloseShape(old(GetPen())) && GetPen() == old(GetPen())
    {
      if firstX != x || firstY != y {
        AddVertex(Vertex(LINE, Trunc(firstX), Trunc(firstY), 0, 0, 0, 0));
      }
    }

    method RMoveTo(dx: real, dy: real)
      requires Valid() && Room(|CharstringSpec.RMoveTo(GetPen(), dx, dy).vs|)
      modifies this, pvertices
      ensures Valid() && Drew(old(drawn), CharstringSpec.RMoveTo(old(GetPen()), dx, dy))
    {
      hide Trunc, Bounds, Stored, Points, CharstringSpec.CloseShape;
      ghost var before, closing := drawn, CharstringSpec.CloseShape(GetPen());
      CloseShape();
      x := x + dx;
      y := y + dy;
      firstX, firstY := x, y;
      AddVertex(Vertex(MOVE, Trunc(x), Trunc(y), 0, 0, 0, 0));
      ghost var move := [Vertex(MOVE, Trunc(x), Trunc(y), 0, 0, 0, 0)];
      assert before + closing + move == before + (closing + move);
    }

    /** What was drawn since `before` is the stroke `t`, and the pen is where it ends. */
    ghost predicate Drew(before: seq<Vertex>, t: Stroke)
      reads this
    {
      drawn == before + t.vs && GetPen() == t.pen
    }

    method RLineTo(dx: real, dy: real)
      requires Valid() && Room(1)
      modifies this, pvertices
      ensures Valid() && Drew(old(drawn), CharstringSpec.RLineTo(old(GetPen()), dx, dy))
    {
      x := x + dx;
      y := y + dy;
      AddVertex(Vertex(LINE, Trunc(x), Trunc(y), 0, 0, 0, 0));
    }

    method RCurveTo(dx1: real, dy1: real, dx2: real, dy2: real, dx3: real, dy3: real)
      requires Valid() && Room(1)
      modifies this, pvertices
      ensures Valid() && Drew(old(drawn), CharstringSpec.RCurveTo(old(GetPen()), dx1, dy1, dx2, dy2, dx3, dy3))
    {
      var cx1, cy1 := x + dx1, y + dy1;
      var cx2, cy2 := cx1 + dx2, cy1 + dy2;
      x, y := cx2 + dx3, cy2 + dy3;
      AddVertex(Vertex(CUBIC, Trunc(x), Trunc(y), Trunc(cx1), Trunc(cy1), Trunc(cx2), Trunc(cy2)));
    }
  }

  lemma PointsExist(vs: seq<Vertex>)
    ensures (Points(vs) != []) == (vs != [])
  {
  }

  // ----- path operators

  /** `rest` is what a loop that set out to draw `want` after `before` has still to draw. */
  ghost predicate OnTheWay(c: Context, before: seq<Vertex>, want: Stroke, rest: Stroke)
    reads c, c.pvertices
  {
    c.Valid() && before + want.vs == c.drawn + rest.vs && want.pen == rest.pen && c.Room(|rest.vs|)
  }

  method DrawLines(c: Context, s: seq<real>, start: nat, end: nat) returns (i: nat)
    requires start <= end <= |s| && c.Valid() && c.Room(|Lines(c.GetPen(), s, start, end).vs|)
    modifies c, c.pvertices
    ensures c.Valid() && c.Drew(old(c.drawn), Lines(old(c.GetPen()), s, start, end))
    ensures i == start + (end - start) / 2 * 2
  {
    hide Context.Valid, CharstringSpec.RLineTo, CharstringSpec.RCurveTo;
    i := start;
    ghost var before, want := c.drawn, Lines(c.GetPen(), s, start, end);
    while i + 1 < end
      invariant start <= i <= end && (i - start) % 2 == 0
      invariant OnTheWay(c, before, want, Lines(c.GetPen(), s, i, end))
    {
      c.RLineTo(s[i], s[i + 1]);
      i := i + 2;
    }
  }

  method DrawAltLines(c: Context, s: seq<real>, horizontal: bool)
    requires c.Valid() && c.Room(|AltLines(c.GetPen(), s, 0, horizontal).vs|)
    modifies c, c.pvertices
    ensures c.Valid() && c.Drew(old(c.drawn), AltLines(old(c.GetPen()), s, 0, horizontal))
  {
    hide Context.Valid, CharstringSpec.RLineTo, CharstringSpec.RCurveTo;
    var i, h := 0, horizontal;
    ghost var before, want := c.drawn, AltLines(c.GetPen(), s, 0, horizontal);
    while i < |s|
      invariant 0 <= i <= |s|
      invariant OnTheWay(c, before, want, AltLines(c.GetPen(), s, i, h))
    {
      if h { c.RLineTo(s[i], 0.0); } else { c.RLineTo(0.0, s[i]); }
      i, h := i + 1, !h;
    }
  }

  method DrawAltCurves(c: Context, s: seq<real>, horizontal: bool)
    requires c.Valid() && c.Room(|AltCurves(c.GetPen(), s, 0, horizontal).vs|)
    modifies c, c.pvertices
    ensures c.Valid() && c.Drew(old(c.drawn), AltCurves(old(c.GetPen()), s, 0, horizontal))
  {
    hide Context.Valid, CharstringSpec.RLineTo, CharstringSpec.RCurveTo;
    var i, h := 0, horizontal;
    ghost var before, want := c.drawn, AltCurves(c.GetPen(), s, 0, horizontal);
    while i + 3 < |s|
      invariant 0 <= i <= |s|
      invariant OnTheWay(c, before, want, AltCurves(c.GetPen(), s, i, h))
    {
      var last := if |s| - i == 5 then s[i + 4] else 0.0;
      if h {
        c.RCurveTo(s[i], 0.0, s[i + 1], s[i + 2], last, s[i + 3]);
      } else {
        c.RCurveTo(0.0, s[i], s[i + 1], s[i + 2], s[i + 3], last);
      }
      i, h := i + 4, !h;
    }
  }

  method DrawCurves(c: Context, s: seq<real>, start: nat, end: nat) returns (i: nat)
    requires start <= end <= |s| && c.Valid() && c.Room(|Curves(c.GetPen(), s, start, end).vs|)
    modifies c, c.pvertices
    ensures c.Valid() && c.Drew(old(c.drawn), Curves(old(c.GetPen()), s, start, end))
    ensures i == start + (end - start) / 6 * 6
  {
    hide Context.Valid, CharstringSpec.RLineTo, CharstringSpec.RCurveTo;
    i := start;
    ghost var before, want := c.drawn, Curves(c.GetPen(), s, start, end);
    while i + 5 < end
      invariant start <= i <= end && (i - start) % 6 == 0
      invariant OnTheWay(c, before, want, Curves(c.GetPen(), s, i, end))
    {
      c.RCurveTo(s[i], s[i + 1], s[i + 2], s[i + 3], s[i + 4], s[i + 5]);
      i := i + 6;
    }
  }

  method DrawAxisCurves(c: Context, s: seq<real>, horizontal: bool)
    requires |s| >= 4 && c.Valid()
    requires c.Room(|AxisCurves(c.GetPen(), s, |s| % 2, if |s| % 2 == 1 then s[0] else 0.0, horizontal).vs|)
    modifies c, c.pvertices
    ensures c.Valid()
    ensures c.Drew(old(c.drawn), AxisCurves(old(c.GetPen()), s, |s| % 2, if |s| % 2 == 1 then s[0] else 0.0, horizontal))
  {
    hide Context.Valid, CharstringSpec.RLineTo, CharstringSpec.RCurveTo;
    var i, f := 0, 0.0;
    if |s| % 2 == 1 { i, f := 1, s[0]; }
    ghost var before, want := c.drawn, AxisCurves(c.GetPen(), s, i, f, horizontal);
    while i + 3 < |s|
      invariant 0 <= i <= |s|
      invariant OnTheWay(c, before, want, AxisCurves(c.GetPen(), s, i, f, horizontal))
    {
      if horizontal {
        c.RCurveTo(s[i], f, s[i + 1], s[i + 2], s[i + 3], 0.0);
      } else {
        c.RCurveTo(f, s[i], s[i + 1], s[i + 2], 0.0, s[i + 3]);
      }
      i, f := i + 4, 0.0;
    }
  }

  method DrawCurvesThenLine(c: Context, s: seq<real>)
    requires |s| >= 8 && c.Valid() && c.Room(|Path(0x18, s, c.GetPen()).value.vs|)
    modifies c, c.pvertices
    ensures c.Valid() && c.Drew(old(c.drawn), Path(0x18, s, old(c.GetPen())).value)
  {
    hide Context.Valid, CharstringSpec.RLineTo, Curves;
    var n := |s|;
    ghost var p, i0 := c.GetPen(), LastOf(n, 2, 6);
    ghost var t := Curves(p, s, 0, n - 2);
    assert Path(0x18, s, p).value == t.Then(Lines(t.pen, s, i0, i0 + 2));
    OneLine(t.pen, s, i0);
    var i := DrawCurves(c, s, 0, n - 2);
    c.RLineTo(s[i], s[i + 1]);
  }

  method DrawLinesThenCurve(c: Context, s: seq<real>)
    requires |s| >= 8 && c.Valid() && c.Room(|Path(0x19, s, c.GetPen()).value.vs|)
    modifies c, c.pvertices
    ensures c.Valid() && c.Drew(old(c.drawn), Path(0x19, s, old(c.GetPen())).value)
  {
    hide Context.Valid, CharstringSpec.RCurveTo, Lines;
    var n := |s|;
    ghost var p, i0 := c.GetPen(), LastOf(n, 6, 2);
    ghost var t := Lines(p, s, 0, n - 6);
    assert Path(0x19, s, p).value == t.Then(Curves(t.pen, s, i0, i0 + 6));
    OneCurve(t.pen, s, i0);
    var i := DrawLines(c, s, 0, n - 6);
    c.RCurveTo(s[i], s[i + 1], s[i + 2], s[i + 3], s[i + 4], s[i + 5]);
  }

  lemma OneLine(p: Pen, s: seq<real>, i: nat)
    requires i + 2 <= |s|
    ensures Lines(p, s, i, i + 2) == RLineTo(p, s[i], s[i + 1])
  {
    hide CharstringSpec.RLineTo;
    var t := RLineTo(p, s[i], s[i + 1]);
    assert t.vs + [] == t.vs;
  }

  lemma OneCurve(p: Pen, s: seq<real>, i: nat)
    requires i + 6 <= |s|
    ensures Curves(p, s, i, i + 6) == RCurveTo(p, s[i], s[i + 1], s[i + 2], s[i + 3], s[i + 4], s[i + 5])
  {
    hide CharstringSpec.RCurveTo;
    var t := RCurveTo(p, s[i], s[i + 1], s[i + 2], s[i + 3], s[i + 4], s[i + 5]);
    assert t.vs + [] == t.vs;
  }

  /** The path operators of the switch; `false` is the error return. */
  method DrawPath(c: Context, op: Byte, s: seq<real>) returns (ok: bool)
    requires IsPathOp(op) && c.Valid()
    requires var t := Path(op, s, c.GetPen()); t.Some? ==> c.Room(|t.value.vs|)
    modifies c, c.pvertices
    ensures c.Valid() && ok == Path(op, s, old(c.GetPen())).Some?
    ensures ok ==> c.Drew(old(c.drawn), Path(op, s, old(c.GetPen())).value)
  {
    hide Context.Valid, CharstringSpec.RMoveTo, Lines, AltLines, AltCurves, Curves, AxisCurves, LastOf;
    var n := |s|;
    if n < Needed(op) { return false; }
    ok := true;
    match op
    case 0x15 => c.RMoveTo(s[n - 2], s[n - 1]);
    case 0x04 => c.RMoveTo(0.0, s[n - 1]);
    case 0x16 => c.RMoveTo(s[n - 1], 0.0);
    case 0x05 => var _ := DrawLines(c, s, 0, n);
    case 0x07 => DrawAltLines(c, s, false);
    case 0x06 => DrawAltLines(c, s, true);
    case 0x1F => DrawAltCurves(c, s, true);
    case 0x1E => DrawAltCurves(c, s, false);
    case 0x08 => var _ := DrawCurves(c, s, 0, n);
    case 0x18 => DrawCurvesThenLine(c, s);
    case 0x19 => DrawLinesThenCurve(c, s);
    case _ => DrawAxisCurves(c, s, op == 0x1B);
  }

  method DrawTwoCurves(c: Context, a: (real, real, real, real, real, real), b: (real, real, real, real, real, real))
    requires c.Valid() && c.Room(|TwoCurves(c.GetPen(), a, b).vs|)
    modifies c, c.pvertices
    ensures c.Valid() && c.Drew(old(c.drawn), TwoCurves(old(c.GetPen()), a, b))
  {
    hide Context.Valid, CharstringSpec.RCurveTo;
    c.RCurveTo(a.0, a.1, a.2, a.3, a.4, a.5);
    c.RCurveTo(b.0, b.1, b.2, b.3, b.4, b.5);
  }

  method DrawFlex(c: Context, b1: Byte, s: seq<real>) returns (ok: bool)
    requires IsFlex(b1) && c.Valid()
    requires var t := Flex(b1, s, c.GetPen()); t.Some? ==> c.Room(|t.value.vs|)
    modifies c, c.pvertices
    ensures c.Valid() && ok == Flex(b1, s, old(c.GetPen())).Some?
    ensures ok ==> c.Drew(old(c.drawn), Flex(b1, s, old(c.GetPen())).value)
  {
    hide Context.Valid, TwoCurves;
    ok := true;
    match b1
    case 0x22 =>
      if |s| < 7 { return false; }
      DrawTwoCurves(c, (s[0], 0.0, s[1], s[2], s[3], 0.0), (s[4], 0.0, s[5], -s[2], s[6], 0.0));
    case 0x23 =>
      if |s| < 13 { return false; }
      DrawTwoCurves(c, (s[0], s[1], s[2], s[3], s[4], s[5]), (s[6], s[7], s[8], s[9], s[10], s[11]));
    case 0x24 =>
      if |s| < 9 { return false; }
      DrawTwoCurves(c, (s[0], s[1], s[2], s[3], s[4], 0.0), (s[5], 0.0, s[6], s[7], s[8], -(s[1] + s[3] + s[7])));
    case _ =>
      if |s| < 11 { return false; }
      var dx, dy := s[0] + s[2] + s[4] + s[6] + s[8], s[1] + s[3] + s[5] + s[7] + s[9];
      var dx6, dy6 := s[10], s[10];
      if Abs(dx) > Abs(dy) { dy6 := -dy; } else { dx6 := -dx; }
      DrawTwoCurves(c, (s[0], s[1], s[2], s[3], s[4], s[5]), (s[6], s[7], s[8], s[9], dx6, dy6));
  }

  // ----- the interpreter

  class Machine {
    const s: array<real>
    const subrStack: array<Buf>
    var sp: nat
    var height: nat
    var b: Buf
    var inHeader: bool
    var maskbits: nat

    /** Neither stack leaves its array. */
    predicate Valid()
      reads this, subrStack
    {
      && s.Length == STACK_MAX && subrStack.Length == CALL_MAX && sp <= STACK_MAX && height <= CALL_MAX
      && b.Ok() && forall k :: 0 <= k < height ==> subrStack[k].Ok()
    }

    function StateWith(pen: Pen): (st: State)
      requires Valid()
      reads this, s, subrStack
      ensures st.Ok() && st.Top() == b && st.pen == pen
    {
      State(subrStack[..height] + [b], s[..sp], inHeader, maskbits, pen)
    }

    constructor (charstring: seq<Byte>)
      ensures Valid() && fresh(s) && fresh(subrStack)
      ensures forall pen :: StateWith(pen) == Start(charstring).(pen := pen)
    {
      s := new real[STACK_MAX];
      subrStack := new Buf[CALL_MAX];
      sp, height, b, inHeader, maskbits := 0, 0, Buf(charstring, 0), true, 0;
    }

    method ReadByte(ghost pen: Pen) returns (v: Byte)
      requires Valid()
      modifies this`b
      ensures Valid() && (v, b) == Get8(old(b)) && StateWith(pen) == old(StateWith(pen)).WithTop(b)
    {
      var r := Get8(b);
      v, b := r.0, r.1;
    }

    /** What a step of the specification says of the machine and of what was drawn since `before`. */
    ghost predicate Did(want: Outcome, ok: bool, c: Context, before: seq<Vertex>)
      requires Valid()
      reads this, s, subrStack, c
    {
      ok == want.Next? && (ok ==> StateWith(c.GetPen()) == want.state && c.drawn == before + want.vs)
    }

    method DoMask(ghost c: Context)
      requires Valid()
      modifies this
      ensures Valid() && Did(Mask(old(StateWith(c.GetPen())), old(b)), true, c, c.drawn)
    {
      if inHeader { maskbits := maskbits + sp / 2; }
      inHeader := false;
      b := Skip(b, (maskbits + 7) / 8);
      sp := 0;
    }

    method DoHint(ghost c: Context)
      requires Valid()
      modifies this
      ensures Valid() && Did(Hint(old(StateWith(c.GetPen())), old(b)), true, c, c.drawn)
    {
      maskbits := maskbits + sp / 2;
      sp := 0;
    }

    method DoDraw(op: Byte, c: Context) returns (ok: bool)
      requires Valid() && IsPathOp(op) && c.Valid()
      requires var o := Draw(StateWith(c.GetPen()), op, b); o.Next? ==> c.Room(|o.vs|)
      modifies this, c, c.pvertices
      ensures Valid() && c.Valid() && Did(Draw(old(StateWith(c.GetPen())), op, old(b)), ok, c, old(c.drawn))
    {
      hide Path, IsPathOp, Context.Valid;
      ghost var stack, frames := s[..sp], subrStack[..height];
      if IsMoveOp(op) { inHeader := false; }
      ok := DrawPath(c, op, s[..sp]);
      sp := 0;
      assert subrStack[..height] == frames;
    }

    method DoCall(index: seq<seq<Byte>>, ghost c: Context) returns (ok: bool)
      requires Valid()
      modifies this, subrStack
      ensures Valid() && Did(Call(index, old(StateWith(c.GetPen())), old(b)), ok, c, c.drawn)
    {
      hide GetSubr, Trunc;
      if sp < 1 { return false; }
      var v := Trunc(s[sp - 1]);
      if height >= CALL_MAX { return false; }
      var sub := GetSubr(index, v);
      if sub == [] { return false; }
      sp := sp - 1;
      subrStack[height] := b;
      height := height + 1;
      b := Buf(sub, 0);
      assert subrStack[..height] == old(subrStack[..height]) + [old(b)];
      ok := true;
    }

    method DoReturn(ghost c: Context) returns (ok: bool)
      requires Valid()
      modifies this
      ensures Valid() && Did(Return(old(StateWith(c.GetPen()))), ok, c, c.drawn)
    {
      if height <= 0 { return false; }
      height := height - 1;
      b := subrStack[height];
      assert subrStack[..height] + [b] == old(subrStack[..height]);
      ok := true;
    }

    method DoEscape(c: Context) returns (ok: bool)
      requires Valid() && c.Valid()
      requires var o := Escape(StateWith(c.GetPen()), b); o.Next? ==> c.Room(|o.vs|)
      modifies this, c, c.pvertices
      ensures Valid() && c.Valid() && Did(Escape(old(StateWith(c.GetPen())), old(b)), ok, c, old(c.drawn))
    {
      hide Flex, Context.Valid;
      ghost var frames := subrStack[..height];
      var b1 := ReadByte(c.GetPen());
      if !IsFlex(b1) { return false; }
      ok := DrawFlex(c, b1, s[..sp]);
      sp := 0;
      assert subrStack[..height] == frames;
    }

    method DoPush(b0: Byte, ghost c: Context) returns (ok: bool)
      requires Valid() && (b0 == 28 || b0 >= 32)
      modifies this, s
      ensures Valid() && Did(Push(old(StateWith(c.GetPen())), b0, old(b)), ok, c, c.drawn)
    {
      hide Number;
      var r := Number(b0, b);
      b := r.1;
      if sp >= STACK_MAX { return false; }
      s[sp] := r.0;
      sp := sp + 1;
      assert s[..sp] == old(s[..sp]) + [r.0];
      ok := true;
    }
  }

  /** What remains of a run, put after what has been drawn, is the whole of it. */
  function Whole(drawn: seq<Vertex>, rest: Option<seq<Vertex>>): Option<seq<Vertex>> {
    if rest.None? then None else Some(drawn + rest.value)
  }

  /** A step's strokes fit when the run they belong to does. */
  lemma RunStep(font: Font, st: State, drawn: seq<Vertex>)
    requires st.Ok() && st.Top().Left() > 0
    ensures var r := Step(font, st);
            && (r.Fail? ==> Run(font, st).None?)
            && (r.Finish? ==> Run(font, st) == Some(r.vs))
            && (r.Next? ==> Whole(drawn, Run(font, st)) == Whole(drawn + r.vs, Run(font, r.state)))
  {
    hide Step;
    var r := Step(font, st);
    if r.Next? && Run(font, r.state).Some? {
      assert drawn + (r.vs + Run(font, r.state).value) == drawn + r.vs + Run(font, r.state).value;
    }
  }

  lemma StepFits(font: Font, st: State)
    requires st.Ok() && st.Top().Left() > 0
    ensures var r := Step(font, st); Run(font, st).Some? ==> !r.Fail? && |r.vs| <= |Run(font, st).value|
  {
    hide Step;
  }

  /** The operators look at the running buffer only through what follows the operator. */
  lemma AfterOperator(st: State, b0: Byte, b: Buf, index: seq<seq<Byte>>)
    requires st.Ok() && b.Ok()
    ensures var st1 := st.WithTop(b);
            && st1.Ok() && Mask(st1, b) == Mask(st, b) && Hint(st1, b) == Hint(st, b) && Call(index, st1, b) == Call(index, st, b)
            && Return(st1) == Return(st) && Escape(st1, b) == Escape(st, b)
            && (IsPathOp(b0) ==> Draw(st1, b0, b) == Draw(st, b0, b))
            && (b0 == 28 || b0 >= 32 ==> Push(st1, b0, b) == Push(st, b0, b))
  {
    hide Path, Flex, Number, GetSubr, Trunc, Skip, IsPathOp;
    var st1 := st.WithTop(b);
    assert st1.frames[..|st1.frames| - 1] == st.frames[..|st.frames| - 1];
  }

  /** Room for everything a run draws; the storing pass is only made when the run succeeds. */
  ghost predicate RunFits(c: Context, run: Option<seq<Vertex>>)
    reads c
  {
    c.bounds || (run.Some? && |c.drawn| + |run.value| <= c.pvertices.Length)
  }

  method StepOnce(font: Font, m: Machine, c: Context) returns (ended: bool, ok: bool)
    requires m.Valid() && c.Valid() && m.b.Left() > 0
    requires RunFits(c, Run(font, m.StateWith(c.GetPen())))
    modifies m, m.s, m.subrStack, c, c.pvertices
    ensures m.Valid() && c.Valid()
    ensures match Step(font, old(m.StateWith(c.GetPen())))
            case Fail => ended && !ok
            case Finish(vs) => ended && ok && c.drawn == old(c.drawn) + vs
            case Next(st, vs) => !ended && m.StateWith(c.GetPen()) == st && c.drawn == old(c.drawn) + vs
  {
    hide Run, Mask, Hint, Draw, Call, Return, Escape, Push, Context.Valid, Machine.Valid, Machine.StateWith,
      CharstringSpec.CloseShape;
    ghost var st := m.StateWith(c.GetPen());
    RunStep(font, st, c.drawn);
    StepFits(font, st);
    var b0 := m.ReadByte(c.GetPen());
    AfterOperator(st, b0, m.b, font.subrs);
    AfterOperator(st, b0, m.b, font.gsubrs);
    ended, ok := false, true;
    if b0 == 0x13 || b0 == 0x14 {
      m.DoMask(c);
    } else if b0 in {0x01, 0x03, 0x12, 0x17} {
      m.DoHint(c);
    } else if IsPathOp(b0) {
      ok := m.DoDraw(b0, c);
    } else if b0 == 0x0A {
      ok := m.DoCall(font.subrs, c);
    } else if b0 == 0x1D {
      ok := m.DoCall(font.gsubrs, c);
    } else if b0 == 0x0B {
      ok := m.DoReturn(c);
    } else if b0 == 0x0E {
      c.CloseShape();
      return true, true;
    } else if b0 == 0x0C {
      ok := m.DoEscape(c);
    } else if b0 != 28 && b0 < 32 {
      ok := false;
    } else {
      ok := m.DoPush(b0, c);
    }
    ended := !ok;
  }

  /** The interpreter ends on every program, and draws what `Run` says or reports an error. */
  method RunCharstring(font: Font, charstring: seq<Byte>, c: Context) returns (ok: bool)
    requires c.Valid() && c.drawn == [] && c.GetPen() == Start(charstring).pen
    requires RunFits(c, Run(font, Start(charstring)))
    modifies c, c.pvertices
    ensures c.Valid() && ok == Run(font, Start(charstring)).Some?
    ensures ok ==> c.drawn == Run(font, Start(charstring)).value
  {
    hide Run, Step, Context.Valid, Machine.Valid, Machine.StateWith, Get8, Skip;
    var m := new Machine(charstring);
    ghost var want, st := Run(font, Start(charstring)), m.StateWith(c.GetPen());
    assert want.Some? ==> [] + want.value == want.value;
    while m.b.cursor < |m.b.data|
      invariant m.Valid() && c.Valid() && fresh(m) && fresh(m.s) && fresh(m.subrStack)
      invariant st == m.StateWith(c.GetPen()) && want == Whole(c.drawn, Run(font, st)) && RunFits(c, Run(font, st))
      decreases st.Fuel(0), st.Fuel(1), st.Fuel(2), st.Fuel(3), st.Fuel(4), st.Fuel(5), st.Fuel(6), st.Fuel(7),
        st.Fuel(8), st.Fuel(9), st.Fuel(10)
    {
      RunStep(font, st, c.drawn);
      var ended;
      ended, ok := StepOnce(font, m, c);
      if ended { return; }
      StepShrinks(font, st);
      st := m.StateWith(c.GetPen());
    }
    RunEmpty(font, st);
    ok := false;
  }

  lemma RunEmpty(font: Font, st: State)
    requires st.Ok() && st.Top().Left() == 0
    ensures Run(font, st) == None
  {
  }

  /** The two passes: the first one's count is exactly the room the second one needs. */
  method GetGlyphShape(font: Font, charstring: seq<Byte>) returns (vertices: seq<Vertex>)
    ensures var run := Run(font, Start(charstring));
            if run.None? then vertices == [] else Shape.AreStored(run.value, vertices)
    ensures Shape.Closes(vertices)
  {
    hide Run;
    var none := new Vertex[0];
    var count := new Context(true, none);
    var ok := RunCharstring(font, charstring, count);
    if !ok { return []; }
    var pvertices := new Vertex[count.numVertices](_ => Vertex(0, 0, 0, 0, 0, 0, 0));
    var output := new Context(false, pvertices);
    ok := RunCharstring(font, charstring, output);
    assert ok && output.numVertices == count.numVertices;
    vertices := pvertices[..output.numVertices];
    Shape.StoredCloses(font, charstring, vertices);
  }

  /** The bounding box of a glyph is the least box around the points of what the glyph draws. */
  method GetGlyphInfo(font: Font, charstring: seq<Byte>) returns (n: nat, box: Box)
    ensures var run := Run(font, Start(charstring));
            if run.None? then n == 0 && box == Box(0, 0, 0, 0)
            else n == |run.value| && (if n > 0 then Bounds(box, Points(run.value)) else box == Box(0, 0, 0, 0))
  {
    hide Run, Bounds;
    var none := new Vertex[0];
    var c := new Context(true, none);
    var ok := RunCharstring(font, charstring, c);
    if !ok { return 0, Box(0, 0, 0, 0); }
    return c.numVertices, c.box;
  }
}
