/**
  What every successful charstring draws: contours that each end where they started.
 */
module CharstringShape {
  import opened CharstringSpec
  import opened Common

  /** Where the current contour started and where it has got to. */
  datatype Cursor = Cursor(sx: int, sy: int, x: int, y: int)
  {
    predicate Closed() { x == sx && y == sy }
  }

  /** Following the vertices; a move is only allowed from a closed contour. */
  function Walk(vs: seq<Vertex>, c: Cursor): Option<Cursor> {
    if vs == [] then Some(c)
    else if vs[0].kind == MOVE then
      if c.Closed() then Walk(vs[1..], Cursor(vs[0].x, vs[0].y, vs[0].x, vs[0].y)) else None
    else Walk(vs[1..], c.(x := vs[0].x, y := vs[0].y))
  }

  lemma {:induction false} WalkAppend(a: seq<Vertex>, b: seq<Vertex>, c: Cursor)
    requires Walk(a, c).Some?
    ensures Walk(a + b, c) == Walk(b, Walk(a, c).value)
    decreases |a|
  {
    if a == [] { assert a + b == b; } else {
      assert (a + b)[1..] == a[1..] + b;
      WalkAppend(a[1..], b, if a[0].kind == MOVE then Cursor(a[0].x, a[0].y, a[0].x, a[0].y) else c.(x := a[0].x, y := a[0].y));
    }
  }

  function CursorOf(p: Pen): Cursor {
    Cursor(Trunc(p.firstX), Trunc(p.firstY), Trunc(p.x), Trunc(p.y))
  }

  /** A stroke's vertices lead from where the pen was to where it is. */
  predicate Leads(p: Pen, t: Stroke) {
    Walk(t.vs, CursorOf(p)) == Some(CursorOf(t.pen))
  }

  lemma ThenLeads(p: Pen, t: Stroke, u: Stroke)
    requires Leads(p, t) && Leads(t.pen, u)
    ensures Leads(p, t.Then(u))
  {
    WalkAppend(t.vs, u.vs, CursorOf(p));
  }

  lemma NothingLeads(p: Pen)
    ensures Leads(p, Stroke(p, []))
  {
  }

  lemma WalkOne(v: Vertex, c: Cursor)
    requires v.kind != MOVE
    ensures Walk([v], c) == Some(c.(x := v.x, y := v.y))
  {
    assert [v][1..] == [];
  }

  lemma CloseLeads(p: Pen)
    ensures var c := Walk(CloseShape(p), CursorOf(p)); c.Some? && c.value.Closed()
  {
    hide Trunc;
  }

  lemma MoveLeads(p: Pen, dx: real, dy: real)
    ensures Leads(p, RMoveTo(p, dx, dy))
  {
    hide Trunc, CloseShape;
    CloseLeads(p);
    var x, y := p.x + dx, p.y + dy;
    WalkAppend(CloseShape(p), [Vertex(MOVE, Trunc(x), Trunc(y), 0, 0, 0, 0)], CursorOf(p));
  }

  lemma LineLeads(p: Pen, dx: real, dy: real)
    ensures Leads(p, RLineTo(p, dx, dy))
  {
    hide Trunc;
    WalkOne(RLineTo(p, dx, dy).vs[0], CursorOf(p));
  }

  lemma CurveLeads(p: Pen, dx1: real, dy1: real, dx2: real, dy2: real, dx3: real, dy3: real)
    ensures Leads(p, RCurveTo(p, dx1, dy1, dx2, dy2, dx3, dy3))
  {
    hide Trunc;
    WalkOne(RCurveTo(p, dx1, dy1, dx2, dy2, dx3, dy3).vs[0], CursorOf(p));
  }

  lemma {:induction false} LinesLead(p: Pen, s: seq<real>, i: nat, end: nat)
    requires i <= |s| && end <= |s|
    ensures Leads(p, Lines(p, s, i, end))
    decreases end - i
  {
    hide Leads, RLineTo;
    if i + 1 >= end { NothingLeads(p); } else {
      var t := RLineTo(p, s[i], s[i + 1]);
      LineLeads(p, s[i], s[i + 1]);
      LinesLead(t.pen, s, i + 2, end);
      ThenLeads(p, t, Lines(t.pen, s, i + 2, end));
    }
  }

  lemma {:induction false} AltLinesLead(p: Pen, s: seq<real>, i: nat, h: bool)
    requires i <= |s|
    ensures Leads(p, AltLines(p, s, i, h))
    decreases |s| - i
  {
    hide Leads, RLineTo;
    if i >= |s| { NothingLeads(p); } else {
      var t := if h then RLineTo(p, s[i], 0.0) else RLineTo(p, 0.0, s[i]);
      LineLeads(p, s[i], 0.0);
      LineLeads(p, 0.0, s[i]);
      AltLinesLead(t.pen, s, i + 1, !h);
      ThenLeads(p, t, AltLines(t.pen, s, i + 1, !h));
    }
  }

  lemma {:induction false} AltCurvesLead(p: Pen, s: seq<real>, i: nat, h: bool)
    requires i <= |s|
    ensures Leads(p, AltCurves(p, s, i, h))
    decreases |s| - i
  {
    hide Leads, RCurveTo;
    if i + 3 >= |s| { NothingLeads(p); } else {
      var last := if |s| - i == 5 then s[i + 4] else 0.0;
      var t := if h then RCurveTo(p, s[i], 0.0, s[i + 1], s[i + 2], last, s[i + 3])
               else RCurveTo(p, 0.0, s[i], s[i + 1], s[i + 2], s[i + 3], last);
      CurveLeads(p, s[i], 0.0, s[i + 1], s[i + 2], last, s[i + 3]);
      CurveLeads(p, 0.0, s[i], s[i + 1], s[i + 2], s[i + 3], last);
      AltCurvesLead(t.pen, s, i + 4, !h);
      ThenLeads(p, t, AltCurves(t.pen, s, i + 4, !h));
    }
  }

  lemma {:induction false} CurvesLead(p: Pen, s: seq<real>, i: nat, end: nat)
    requires i <= |s| && end <= |s|
    ensures Leads(p, Curves(p, s, i, end))
    decreases end - i
  {
    hide Leads, RCurveTo;
    if i + 5 >= end { NothingLeads(p); } else {
      var t := RCurveTo(p, s[i], s[i + 1], s[i + 2], s[i + 3], s[i + 4], s[i + 5]);
      CurveLeads(p, s[i], s[i + 1], s[i + 2], s[i + 3], s[i + 4], s[i + 5]);
      CurvesLead(t.pen, s, i + 6, end);
      ThenLeads(p, t, Curves(t.pen, s, i + 6, end));
    }
  }

  lemma {:induction false} AxisCurvesLead(p: Pen, s: seq<real>, i: nat, f: real, h: bool)
    requires i <= |s|
    ensures Leads(p, AxisCurves(p, s, i, f, h))
    decreases |s| - i
  {
    hide Leads, RCurveTo;
    if i + 3 >= |s| { NothingLeads(p); } else {
      var t := if h then RCurveTo(p, s[i], f, s[i + 1], s[i + 2], s[i + 3], 0.0)
               else RCurveTo(p, f, s[i], s[i + 1], s[i + 2], 0.0, s[i + 3]);
      CurveLeads(p, s[i], f, s[i + 1], s[i + 2], s[i + 3], 0.0);
      CurveLeads(p, f, s[i], s[i + 1], s[i + 2], 0.0, s[i + 3]);
      AxisCurvesLead(t.pen, s, i + 4, 0.0, h);
      ThenLeads(p, t, AxisCurves(t.pen, s, i + 4, 0.0, h));
    }
  }

  lemma TwoCurvesLead(p: Pen, a: (real, real, real, real, real, real), b: (real, real, real, real, real, real))
    ensures Leads(p, TwoCurves(p, a, b))
  {
    hide Leads, RCurveTo;
    var t := RCurveTo(p, a.0, a.1, a.2, a.3, a.4, a.5);
    CurveLeads(p, a.0, a.1, a.2, a.3, a.4, a.5);
    CurveLeads(t.pen, b.0, b.1, b.2, b.3, b.4, b.5);
    ThenLeads(p, t, RCurveTo(t.pen, b.0, b.1, b.2, b.3, b.4, b.5));
  }

  lemma PathLeads(op: Byte, s: seq<real>, p: Pen)
    requires IsPathOp(op) && Path(op, s, p).Some?
    ensures Leads(p, Path(op, s, p).value)
  {
    hide Leads, RMoveTo, Lines, AltLines, AltCurves, Curves, AxisCurves, LastOf;
    var n := |s|;
    match op
    case 0x15 => MoveLeads(p, s[n - 2], s[n - 1]);
    case 0x04 => MoveLeads(p, 0.0, s[n - 1]);
    case 0x16 => MoveLeads(p, s[n - 1], 0.0);
    case 0x05 => LinesLead(p, s, 0, n);
    case 0x07 => AltLinesLead(p, s, 0, false);
    case 0x06 => AltLinesLead(p, s, 0, true);
    case 0x1F => AltCurvesLead(p, s, 0, true);
    case 0x1E => AltCurvesLead(p, s, 0, false);
    case 0x08 => CurvesLead(p, s, 0, n);
    case 0x18 =>
      var t, i := Curves(p, s, 0, n - 2), LastOf(n, 2, 6);
      CurvesLead(p, s, 0, n - 2);
      LastFits(n, 2, 6);
      LinesLead(t.pen, s, i, i + 2);
      ThenLeads(p, t, Lines(t.pen, s, i, i + 2));
    case 0x19 =>
      var t, i := Lines(p, s, 0, n - 6), LastOf(n, 6, 2);
      LinesLead(p, s, 0, n - 6);
      LastFits(n, 6, 2);
      CurvesLead(t.pen, s, i, i + 6);
      ThenLeads(p, t, Curves(t.pen, s, i, i + 6));
    case _ => AxisCurvesLead(p, s, n % 2, if n % 2 == 1 then s[0] else 0.0, op == 0x1B);
  }

  lemma LastFits(n: nat, tail: nat, step: nat)
    requires (tail, step) in {(2, 6), (6, 2)} && n >= tail + step
    ensures LastOf(n, tail, step) + tail <= n
  {
  }

  lemma FlexLeads(b1: Byte, s: seq<real>, p: Pen)
    requires IsFlex(b1) && Flex(b1, s, p).Some?
    ensures Leads(p, Flex(b1, s, p).value)
  {
    hide Leads, TwoCurves;
    match b1
    case 0x22 => TwoCurvesLead(p, (s[0], 0.0, s[1], s[2], s[3], 0.0), (s[4], 0.0, s[5], -s[2], s[6], 0.0));
    case 0x23 => TwoCurvesLead(p, (s[0], s[1], s[2], s[3], s[4], s[5]), (s[6], s[7], s[8], s[9], s[10], s[11]));
    case 0x24 => TwoCurvesLead(p, (s[0], s[1], s[2], s[3], s[4], 0.0), (s[5], 0.0, s[6], s[7], s[8], -(s[1] + s[3] + s[7])));
    case _ =>
      var dx, dy := s[0] + s[2] + s[4] + s[6] + s[8], s[1] + s[3] + s[5] + s[7] + s[9];
      var dx6, dy6 := if Abs(dx) > Abs(dy) then s[10] else -dx, if Abs(dx) > Abs(dy) then -dy else s[10];
      TwoCurvesLead(p, (s[0], s[1], s[2], s[3], s[4], s[5]), (s[6], s[7], s[8], s[9], dx6, dy6));
  }

  lemma StepLeads(font: Font, st: State)
    requires st.Ok() && st.Top().Left() > 0 && Step(font, st).Next?
    ensures Leads(st.pen, Stroke(Step(font, st).state.pen, Step(font, st).vs))
  {
    hide Leads, Path, Flex, Number, GetSubr, Trunc, Skip;
    NothingLeads(st.pen);
    var (b0, b) := Get8(st.Top());
    if IsPathOp(b0) {
      PathLeads(b0, st.stack, st.pen);
      var t := Path(b0, st.stack, st.pen).value;
      assert Stroke(t.pen, t.vs) == t;
    } else if b0 == 0x0C {
      var b1 := Get8(b).0;
      FlexLeads(b1, st.stack, st.pen);
      var t := Flex(b1, st.stack, st.pen).value;
      assert Stroke(t.pen, t.vs) == t;
    }
  }

  lemma {:induction false} RunCloses(font: Font, st: State)
    requires st.Ok() && Run(font, st).Some?
    ensures var c := Walk(Run(font, st).value, CursorOf(st.pen)); c.Some? && c.value.Closed()
    decreases st.Fuel(0), st.Fuel(1), st.Fuel(2), st.Fuel(3), st.Fuel(4), st.Fuel(5), st.Fuel(6), st.Fuel(7),
      st.Fuel(8), st.Fuel(9), st.Fuel(10)
  {
    hide CursorOf, Walk, Step;
    match Step(font, st)
    case Finish(vs) =>
      FinishCloses(font, st);
    case Next(st', vs) =>
      StepShrinks(font, st);
      StepLeads(font, st);
      RunCloses(font, st');
      WalkAppend(vs, Run(font, st').value, CursorOf(st.pen));
  }

  lemma FinishCloses(font: Font, st: State)
    requires st.Ok() && st.Top().Left() > 0 && Step(font, st).Finish?
    ensures var c := Walk(Step(font, st).vs, CursorOf(st.pen)); c.Some? && c.value.Closed()
  {
    hide Walk, CursorOf, CloseShape, Draw, Call, Return, Escape, Push, Mask, Hint;
    CloseLeads(st.pen);
  }

  /** Every contour ends where it started, and a new one only starts from a closed one. */
  predicate Closes(vs: seq<Vertex>) {
    var c := Walk(vs, Cursor(0, 0, 0, 0));
    c.Some? && c.value.Closed()
  }

  lemma GlyphCloses(font: Font, charstring: seq<Byte>)
    requires Run(font, Start(charstring)).Some?
    ensures Closes(Run(font, Start(charstring)).value)
  {
    hide Run, Walk;
    RunCloses(font, Start(charstring));
    assert CursorOf(Start(charstring).pen) == Cursor(0, 0, 0, 0);
  }

  function StoredCursor(c: Cursor): Cursor {
    Cursor(Short(c.sx), Short(c.sy), Short(c.x), Short(c.y))
  }

  predicate AreStored(vs: seq<Vertex>, us: seq<Vertex>) {
    |us| == |vs| && forall k :: 0 <= k < |vs| ==> us[k] == Stored(vs[k])
  }

  /** Cutting coordinates to 16 bits leads the same way. */
  lemma {:induction false} StoredWalk(vs: seq<Vertex>, us: seq<Vertex>, c: Cursor)
    requires AreStored(vs, us) && Walk(vs, c).Some?
    ensures Walk(us, StoredCursor(c)) == Some(StoredCursor(Walk(vs, c).value))
    decreases |vs|
  {
    if vs != [] {
      hide Short;
      var v := vs[0];
      StoredWalk(vs[1..], us[1..], if v.kind == MOVE then Cursor(v.x, v.y, v.x, v.y) else c.(x := v.x, y := v.y));
    }
  }

  /** The vertices that are kept close their contours too. */
  lemma StoredCloses(font: Font, charstring: seq<Byte>, us: seq<Vertex>)
    requires Run(font, Start(charstring)).Some? && AreStored(Run(font, Start(charstring)).value, us)
    ensures Closes(us)
  {
    hide Run, Walk, AreStored;
    GlyphCloses(font, charstring);
    StoredWalk(Run(font, Start(charstring)).value, us, Cursor(0, 0, 0, 0));
  }
}
