/**
  The outline of a simple TrueType glyph.  The points are loaded at the end of one array and the
  drawing commands are written from its front, over points that have already been read.
 */
module GlyphOutline {
  import opened Common

  const MOVE := 1
  const LINE := 2
  const CURVE := 3

  /** One array cell: a raw point, whose tag holds its flags, or a drawing command. */
  datatype Vertex = Vertex(tag: nat, x: int, y: int, cx: int, cy: int)

  datatype Point = Point(on: bool, x: int, y: int)

  /** `(a + b) >> 1`, which rounds down. */
  function Half(a: int, b: int): (r: int)
    ensures IsShort(a) && IsShort(b) ==> IsShort(r)
  {
    (a + b) / 2
  }

  function ToPoint(v: Vertex): Point {
    Point(v.tag % 2 == 1, v.x, v.y)
  }

  // ----- what an outline is, contour by contour

  function Mid(p: Point, q: Point): Point {
    Point(true, Half(p.x, q.x), Half(p.y, q.y))
  }

  function MoveTo(p: Point): Vertex { Vertex(MOVE, p.x, p.y, 0, 0) }
  function LineTo(p: Point): Vertex { Vertex(LINE, p.x, p.y, 0, 0) }
  function CurveTo(p: Point, c: Point): Vertex { Vertex(CURVE, p.x, p.y, c.x, c.y) }

  type Control = Option<Point>

  /**
    The commands that lead through `pts` and back to `start`; `c` is an off-curve point still
    waiting for its curve to end.
   */
  function Trace(start: Point, pts: seq<Point>, c: Control): seq<Vertex>
    decreases |pts|
  {
    if pts == [] then
      [if c.Some? then CurveTo(start, c.value) else LineTo(start)]
    else if pts[0].on then
      [if c.Some? then CurveTo(pts[0], c.value) else LineTo(pts[0])] + Trace(start, pts[1..], None)
    else
      (if c.Some? then [CurveTo(Mid(c.value, pts[0]), c.value)] else []) + Trace(start, pts[1..], Some(pts[0]))
  }

  predicate ContourOk(pts: seq<Point>) {
    |pts| > 0 && (!pts[0].on ==> |pts| > 1)
  }

  /** The on-curve point a contour is drawn from. */
  function StartOf(pts: seq<Point>): Point
    requires ContourOk(pts)
  {
    if pts[0].on then pts[0] else if pts[1].on then pts[1] else Mid(pts[0], pts[1])
  }

  /** The other points, in drawing order: a leading off-curve point comes last. */
  function RestOf(pts: seq<Point>): seq<Point>
    requires ContourOk(pts)
  {
    if pts[0].on then pts[1..] else (if pts[1].on then pts[2..] else pts[1..]) + [pts[0]]
  }

  function Contour(pts: seq<Point>): seq<Vertex>
    requires ContourOk(pts)
  {
    [MoveTo(StartOf(pts))] + Trace(StartOf(pts), RestOf(pts), None)
  }

  /** The index of the first point of contour `k`. */
  function FirstOf(ends: seq<nat>, k: nat): nat
    requires k <= |ends|
  {
    if k == 0 then 0 else ends[k - 1] + 1
  }

  predicate ContourFits(pts: seq<Point>, ends: seq<nat>, k: nat)
    requires k < |ends|
  {
    FirstOf(ends, k) <= ends[k] < |pts| && ContourOk(pts[FirstOf(ends, k)..ends[k] + 1])
  }

  predicate Small(p: Point) {
    IsShort(p.x) && IsShort(p.y)
  }

  /** Increasing contour ends, no lone off-curve point, 16-bit coordinates. */
  ghost predicate WellFormed(pts: seq<Point>, ends: seq<nat>) {
    && |ends| > 0 && FirstOf(ends, |ends|) == |pts|
    && (forall k :: 0 <= k < |ends| ==> ContourFits(pts, ends, k))
    && (forall k :: 0 <= k < |pts| ==> Small(pts[k]))
  }

  function ContourAt(pts: seq<Point>, ends: seq<nat>, k: nat): seq<Point>
    requires k < |ends| && ContourFits(pts, ends, k)
  {
    pts[FirstOf(ends, k)..ends[k] + 1]
  }

  /** The commands of the first `k` contours. */
  function Outline(pts: seq<Point>, ends: seq<nat>, k: nat): seq<Vertex>
    requires WellFormed(pts, ends) && k <= |ends|
  {
    if k == 0 then [] else
      assert ContourFits(pts, ends, k - 1);
      Outline(pts, ends, k - 1) + Contour(ContourAt(pts, ends, k - 1))
  }

  // ----- properties of the outline

  function OffPoints(pts: seq<Point>): seq<Point> {
    if pts == [] then [] else (if pts[0].on then [] else [pts[0]]) + OffPoints(pts[1..])
  }

  function Controls(vs: seq<Vertex>): seq<Point> {
    if vs == [] then []
    else (if vs[0].tag == CURVE then [Point(false, vs[0].cx, vs[0].cy)] else []) + Controls(vs[1..])
  }

  /** The implied on-curve points made explicit: one halfway between any two off-curve neighbours. */
  function Expand(pts: seq<Point>): seq<Point> {
    if |pts| < 2 then pts
    else [pts[0]] + (if !pts[0].on && !pts[1].on then [Mid(pts[0], pts[1])] else []) + Expand(pts[1..])
  }

  function OnPoints(pts: seq<Point>): seq<Point> {
    if pts == [] then [] else (if pts[0].on then [pts[0]] else []) + OnPoints(pts[1..])
  }

  function EndPoints(vs: seq<Vertex>): seq<Point> {
    if vs == [] then [] else [Point(true, vs[0].x, vs[0].y)] + EndPoints(vs[1..])
  }

  function Waiting(c: Control): seq<Point> {
    if c.Some? then [c.value] else []
  }

  /** The commands that the first of `pts` gives rise to. */
  function Drawn(c: Control, p: Point): seq<Vertex> {
    if p.on then [if c.Some? then CurveTo(p, c.value) else LineTo(p)]
    else if c.Some? then [CurveTo(Mid(c.value, p), c.value)] else []
  }

  lemma TraceHead(start: Point, pts: seq<Point>, c: Control)
    requires pts != []
    ensures Trace(start, pts, c) == Drawn(c, pts[0]) + Trace(start, pts[1..], if pts[0].on then None else Some(pts[0]))
  {
    hide Mid;
  }

  lemma {:induction false} TraceShape(start: Point, pts: seq<Point>, c: Control)
    requires c.Some? ==> !c.value.on
    ensures var t := Trace(start, pts, c);
            && 0 < |t| <= |pts| + 1
            && t[|t| - 1].x == start.x && t[|t| - 1].y == start.y
            && (forall v :: v in t ==> v.tag != MOVE)
    decreases |pts|
  {
    hide Mid;
    if pts != [] {
      TraceHead(start, pts, c);
      TraceShape(start, pts[1..], if pts[0].on then None else Some(pts[0]));
    }
  }

  lemma {:induction false} TraceControls(start: Point, pts: seq<Point>, c: Control)
    requires c.Some? ==> !c.value.on
    ensures Controls(Trace(start, pts, c)) == Waiting(c) + OffPoints(pts)
    decreases |pts|
  {
    hide Mid;
    if pts != [] {
      var c' := if pts[0].on then None else Some(pts[0]);
      TraceHead(start, pts, c);
      TraceControls(start, pts[1..], c');
      var t, t' := Trace(start, pts, c), Trace(start, pts[1..], c');
      if pts[0].on || c.Some? { assert t[1..] == t'; } else { assert t == t'; }
    }
  }

  /** The on-curve point the first of `pts` gives rise to, if it gives rise to one. */
  function Reached(c: Control, p: Point): seq<Point> {
    if p.on then [p] else if c.Some? then [Mid(c.value, p)] else []
  }

  lemma TraceStep(start: Point, pts: seq<Point>, c: Control)
    requires pts != []
    ensures var c' := if pts[0].on then None else Some(pts[0]);
            EndPoints(Trace(start, pts, c)) == Reached(c, pts[0]) + EndPoints(Trace(start, pts[1..], c'))
  {
    var c' := if pts[0].on then None else Some(pts[0]);
    var t, t' := Trace(start, pts, c), Trace(start, pts[1..], c');
    if pts[0].on || c.Some? { assert t[1..] == t'; } else { assert t == t'; }
  }

  lemma ExpandStep(own: seq<Point>, c: Control)
    requires |own| > 1 && (c.Some? ==> !c.value.on)
    ensures OnPoints(Expand(Waiting(c) + own))
            == Reached(c, own[0]) + OnPoints(Expand(Waiting(if own[0].on then None else Some(own[0])) + own[1..]))
  {
    hide Expand, OnPoints, Mid;
    var all := Waiting(c) + own;
    ExpandFirst(own);
    if c.Some? {
      assert all[1..] == own;
      ExpandHead(all);
      assert [] + Reached(c, own[0]) == Reached(c, own[0]);
    } else {
      assert all == own;
    }
  }

  /** A point on the curve is passed; one off the curve goes on waiting. */
  lemma ExpandFirst(own: seq<Point>)
    requires |own| > 1
    ensures OnPoints(Expand(own)) == (if own[0].on then [own[0]] else [])
            + OnPoints(Expand(Waiting(if own[0].on then None else Some(own[0])) + own[1..]))
  {
    hide Expand, OnPoints, Mid;
    if own[0].on {
      ExpandHead(own);
      assert [] + own[1..] == own[1..];
    } else {
      assert [own[0]] + own[1..] == own;
    }
  }

  /** The commands end exactly at the on-curve points, given or implied, in order. */
  lemma {:induction false} TraceEndPoints(start: Point, pts: seq<Point>, c: Control)
    requires start.on && (c.Some? ==> !c.value.on)
    ensures EndPoints(Trace(start, pts, c)) == OnPoints(Expand(Waiting(c) + (pts + [start])))
    decreases |pts|
  {
    hide Expand, OnPoints;
    if pts == [] {
      assert pts + [start] == [start];
      var all := Waiting(c) + [start];
      ExpandOne(start);
      if c.None? { assert all == [start]; }
      else { assert all == [c.value, start] && all[1..] == [start]; ExpandHead(all); }
    } else {
      hide EndPoints, Trace, Reached;
      TraceEndPoints(start, pts[1..], if pts[0].on then None else Some(pts[0]));
      TraceStep(start, pts, c);
      assert (pts + [start])[1..] == pts[1..] + [start];
      ExpandStep(pts + [start], c);
    }
  }

  lemma ExpandOne(p: Point)
    requires p.on
    ensures OnPoints(Expand([p])) == [p]
  {
    assert [p][1..] == [];
  }

  lemma ExpandHead(pts: seq<Point>)
    requires |pts| > 1
    ensures OnPoints(Expand(pts)) ==
      (if pts[0].on then [pts[0]] else []) +
      (if !pts[0].on && !pts[1].on then [Mid(pts[0], pts[1])] else []) + OnPoints(Expand(pts[1..]))
  {
    hide OnPoints, Expand, Half;
    ExpandUnfold(pts);
    var rest := Expand(pts[1..]);
    if !pts[0].on && !pts[1].on {
      var m := Mid(pts[0], pts[1]);
      OnPointsCons(m, rest);
      OnPointsCons(pts[0], [m] + rest);
    } else {
      assert [] + rest == rest;
      OnPointsCons(pts[0], rest);
    }
  }

  lemma ExpandUnfold(pts: seq<Point>)
    requires |pts| > 1
    ensures Expand(pts) ==
      [pts[0]] + ((if !pts[0].on && !pts[1].on then [Mid(pts[0], pts[1])] else []) + Expand(pts[1..]))
  {
    hide Mid;
  }

  lemma OnPointsCons(p: Point, pts: seq<Point>)
    ensures OnPoints([p] + pts) == (if p.on then [p] else []) + OnPoints(pts)
  {
    assert ([p] + pts)[1..] == pts;
  }

  /**
    A contour starts with its only move, ends where it started, has one curve for every off-curve
    point, in drawing order, with it as control point, and ends its commands exactly at the
    on-curve points, given or implied.
   */
  lemma ContourShape(pts: seq<Point>)
    requires ContourOk(pts)
    ensures var t := Contour(pts);
            && 1 < |t| <= |pts| + 2
            && t[0] == MoveTo(StartOf(pts))
            && (forall k :: 0 < k < |t| ==> t[k].tag != MOVE)
            && t[|t| - 1].x == t[0].x && t[|t| - 1].y == t[0].y
            && Controls(t) == OffPoints(RestOf(pts))
            && EndPoints(t[1..]) == OnPoints(Expand(RestOf(pts) + [StartOf(pts)]))
  {
    TraceShape(StartOf(pts), RestOf(pts), None);
    TraceControls(StartOf(pts), RestOf(pts), None);
    TraceEndPoints(StartOf(pts), RestOf(pts), None);
    var t := Trace(StartOf(pts), RestOf(pts), None);
    assert Contour(pts)[1..] == t;
    assert Waiting(None) + (RestOf(pts) + [StartOf(pts)]) == RestOf(pts) + [StartOf(pts)];
  }

  // ----- what each command joins

  predicate Halfway(a: int, b: int, m: int) { 2 * m <= a + b <= 2 * m + 1 }

  /** The command that leads from point `p` of a contour to the next one, `q`. */
  predicate Joins(v: Vertex, p: Point, q: Point) {
    if p.on then q.on && v.tag == LINE && v.x == q.x && v.y == q.y
    else
      && v.tag == CURVE && v.cx == p.x && v.cy == p.y
      && if q.on then v.x == q.x && v.y == q.y else Halfway(p.x, q.x, v.x) && Halfway(p.y, q.y, v.y)
  }

  /** Some command does; from a point on the curve to one off it there is none. */
  ghost predicate Joined(t: seq<Vertex>, p: Point, q: Point) {
    (p.on && !q.on) || exists k :: 0 <= k < |t| && Joins(t[k], p, q)
  }

  ghost predicate JoinsSome(v: Vertex, path: seq<Point>) {
    exists j :: 0 <= j < |path| - 1 && Joins(v, path[j], path[j + 1])
  }

  lemma DrawnJoins(prev: Point, p: Point)
    ensures var d := Drawn(if prev.on then None else Some(prev), p);
            (forall v :: v in d ==> Joins(v, prev, p)) && Joined(d, prev, p)
  {
    var d := Drawn(if prev.on then None else Some(prev), p);
    if d != [] { assert Joins(d[0], prev, p); }
  }

  lemma JoinedLonger(a: seq<Vertex>, b: seq<Vertex>, p: Point, q: Point)
    requires Joined(a, p, q) || Joined(b, p, q)
    ensures Joined(a + b, p, q)
  {
    if !(p.on && !q.on) {
      if Joined(a, p, q) {
        var k :| 0 <= k < |a| && Joins(a[k], p, q);
        assert Joins((a + b)[k], p, q);
      } else {
        var k :| 0 <= k < |b| && Joins(b[k], p, q);
        assert Joins((a + b)[|a| + k], p, q);
      }
    }
  }

  lemma JoinsLonger(v: Vertex, path: seq<Point>)
    requires |path| > 1 && (Joins(v, path[0], path[1]) || JoinsSome(v, path[1..]))
    ensures JoinsSome(v, path)
  {
    if !Joins(v, path[0], path[1]) {
      var j :| 0 <= j < |path[1..]| - 1 && Joins(v, path[1..][j], path[1..][j + 1]);
      assert Joins(v, path[j + 1], path[j + 1 + 1]);
    }
  }

  /** Every two neighbours are joined by a command, and every command joins two neighbours. */
  lemma {:induction false} TraceJoins(start: Point, pts: seq<Point>, prev: Point)
    requires start.on
    ensures var t, path := Trace(start, pts, if prev.on then None else Some(prev)), [prev] + pts + [start];
            && (forall j :: 0 <= j < |path| - 1 ==> Joined(t, path[j], path[j + 1]))
            && (forall v :: v in t ==> JoinsSome(v, path))
    decreases |pts|
  {
    hide Joins, Joined, Trace;
    var c := if prev.on then None else Some(prev);
    var t, path := Trace(start, pts, c), [prev] + pts + [start];
    var next := if pts == [] then start else pts[0];
    DrawnJoins(prev, next);
    assert path[0] == prev && path[1] == next;
    var d := Drawn(c, next);
    if pts == [] {
      TraceEnd(start, c);
      assert t == d;
    } else {
      TraceHead(start, pts, c);
      var more, rest := Trace(start, pts[1..], if next.on then None else Some(next)), [next] + pts[1..] + [start];
      TraceJoins(start, pts[1..], next);
      assert t == d + more && path[1..] == rest;
      forall j | 0 <= j < |path| - 1 ensures Joined(t, path[j], path[j + 1]) {
        if j > 0 { assert Joined(more, rest[j - 1], rest[j - 1 + 1]); }
        JoinedLonger(d, more, path[j], path[j + 1]);
      }
    }
    forall v | v in t ensures JoinsSome(v, path) {
      JoinsLonger(v, path);
    }
  }

  lemma TraceEnd(start: Point, c: Control)
    requires start.on
    ensures Trace(start, [], c) == Drawn(c, start)
  {
  }

  /** The point behind point `i` of a contour, going round. */
  function NextOf(pts: seq<Point>, i: nat): Point
    requires i < |pts|
  {
    if i + 1 < |pts| then pts[i + 1] else pts[0]
  }

  /** Drawing order goes round the contour, from the start to the start. */
  lemma NeighboursInPath(pts: seq<Point>, i: nat) returns (j: nat)
    requires ContourOk(pts) && i < |pts|
    ensures var path := [StartOf(pts)] + RestOf(pts) + [StartOf(pts)];
            && j + 1 < |path| && path[j] == pts[i]
            && (path[j + 1] == NextOf(pts, i) || (!pts[i].on && !NextOf(pts, i).on && path[j + 1] == Mid(pts[i], NextOf(pts, i))))
  {
    hide Mid;
    var path, n := [StartOf(pts)] + RestOf(pts) + [StartOf(pts)], |pts|;
    if pts[0].on {
      j := i;
    } else if pts[1].on {
      j := if i == 0 then n - 1 else i - 1;
    } else {
      j := if i == 0 then n else i;
    }
  }

  /**
    Every point of a contour and the next one, going round, are joined by a command: a line between points on
    the curve, and for a point off the curve a curve around it, which ends at the next point or halfway to it.
   */
  lemma ContourJoins(pts: seq<Point>, i: nat)
    requires ContourOk(pts) && i < |pts|
    ensures Joined(Contour(pts), pts[i], NextOf(pts, i))
  {
    var start, rest, p, q := StartOf(pts), RestOf(pts), pts[i], NextOf(pts, i);
    var j := NeighboursInPath(pts, i);
    assert start.on;
    hide StartOf, RestOf, Joined, Trace, NextOf, Mid;
    var t, path := Trace(start, rest, None), [start] + rest + [start];
    TraceJoins(start, rest, start);
    assert Joined(t, path[j], path[j + 1]);
    if path[j + 1] != q { JoinedHalfway(t, p, q, path[j + 1]); }
    JoinedLonger([MoveTo(start)], t, p, q);
  }

  lemma JoinedHalfway(t: seq<Vertex>, p: Point, q: Point, m: Point)
    requires !p.on && !q.on && m == Mid(p, q) && Joined(t, p, m)
    ensures Joined(t, p, q)
  {
    var k :| 0 <= k < |t| && Joins(t[k], p, m);
    assert Joins(t[k], p, q);
  }

  /** So are the neighbours of every contour of a glyph. */
  lemma {:induction false} OutlineJoins(pts: seq<Point>, ends: seq<nat>, n: nat, k: nat, i: nat)
    requires WellFormed(pts, ends) && k < n <= |ends| && ContourFits(pts, ends, k) && i < |ContourAt(pts, ends, k)|
    ensures var own := ContourAt(pts, ends, k); Joined(Outline(pts, ends, n), own[i], NextOf(own, i))
    decreases n
  {
    hide Joined, Contour, NextOf;
    assert ContourFits(pts, ends, n - 1);
    var own := ContourAt(pts, ends, k);
    if k == n - 1 { ContourJoins(own, i); } else { OutlineJoins(pts, ends, n - 1, k, i); }
    JoinedLonger(Outline(pts, ends, n - 1), Contour(ContourAt(pts, ends, n - 1)), own[i], NextOf(own, i));
  }

  /** And it starts at its first point on the curve, if that is the first or the second, or halfway between the two. */
  lemma ContourStarts(pts: seq<Point>)
    requires ContourOk(pts)
    ensures var v := Contour(pts)[0];
            v.tag == MOVE &&
            if pts[0].on then v.x == pts[0].x && v.y == pts[0].y
            else if pts[1].on then v.x == pts[1].x && v.y == pts[1].y
            else Halfway(pts[0].x, pts[1].x, v.x) && Halfway(pts[0].y, pts[1].y, v.y)
  {
  }

  lemma {:induction false} OffPointsAppend(a: seq<Point>, b: seq<Point>)
    ensures OffPoints(a + b) == OffPoints(a) + OffPoints(b)
  {
    if a == [] { assert a + b == b; } else {
      assert (a + b)[1..] == a[1..] + b;
      OffPointsAppend(a[1..], b);
    }
  }

  lemma OffPointsHead(pts: seq<Point>)
    requires pts != []
    ensures OffPoints(pts) == (if pts[0].on then [] else [pts[0]]) + OffPoints(pts[1..])
  {
  }

  lemma OffPointsOne(p: Point)
    requires !p.on
    ensures OffPoints([p]) == [p]
  {
    assert [p][1..] == [];
  }

  /** Drawing order moves at most a leading off-curve point to the end. */
  lemma RestRotates(pts: seq<Point>)
    requires ContourOk(pts) && !pts[0].on
    ensures OffPoints(pts) == [pts[0]] + OffPoints(pts[1..])
    ensures OffPoints(RestOf(pts)) == OffPoints(pts[1..]) + [pts[0]]
  {
    hide OffPoints;
    var tail := if pts[1].on then pts[2..] else pts[1..];
    OffPointsAppend(tail, [pts[0]]);
    OffPointsOne(pts[0]);
    OffPointsHead(pts);
    OffPointsHead(pts[1..]);
    assert pts[1..][1..] == pts[2..];
  }

  /** A contour's curves use each of its off-curve points once. */
  lemma DrawnOnce(pts: seq<Point>)
    requires ContourOk(pts)
    ensures multiset(Controls(Contour(pts))) == multiset(OffPoints(pts))
  {
    hide Contour, Controls;
    ContourShape(pts);
    if !pts[0].on {
      hide OffPoints, RestOf;
      RestRotates(pts);
    }
  }

  lemma {:induction false} OutlineLength(pts: seq<Point>, ends: seq<nat>, k: nat)
    requires WellFormed(pts, ends) && k <= |ends|
    ensures |Outline(pts, ends, k)| <= FirstOf(ends, k) + 2 * k
  {
    hide Contour;
    if k > 0 {
      OutlineLength(pts, ends, k - 1);
      InContour(pts, ends, k - 1);
      ContourShape(ContourAt(pts, ends, k - 1));
    }
  }

  // ----- the in-place conversion

  method SetVertex(v: array<Vertex>, i: nat, tag: nat, x: int, y: int, cx: int, cy: int)
    requires i < v.Length
    modifies v
    ensures v[..] == old(v[..])[i := Vertex(tag, Short(x), Short(y), Short(cx), Short(cy))]
  {
    v[i] := Vertex(tag, Short(x), Short(y), Short(cx), Short(cy));
  }

  /** The scalars of the conversion loop. */
  datatype Pen = Pen(wasOff: bool, startOff: bool, start: Point, startC: Point, c: Point)
  {
    function Control(): Control { if wasOff then Some(c) else None }

    /** A leading off-curve point is still to be drawn. */
    function Tail(): seq<Point> { if startOff then [startC] else [] }

    predicate Ok() {
      && IsShort(start.x) && IsShort(start.y) && IsShort(c.x) && IsShort(c.y)
      && IsShort(startC.x) && IsShort(startC.y) && !startC.on && !c.on
    }
  }

  method CloseShape(v: array<Vertex>, num: nat, pen: Pen) returns (num': nat)
    requires num + 2 <= v.Length && pen.Ok()
    modifies v
    ensures num <= num' <= num + 2
    ensures v[..num'] == old(v[..num]) + Trace(pen.start, pen.Tail(), pen.Control())
    ensures v[num + 2..] == old(v[num + 2..])
  {
    hide Trace, Short, Half;
    CloseTrace(pen);
    num' := num;
    var s, c := pen.start, pen.c;
    if pen.startOff {
      if pen.wasOff {
        SetVertex(v, num', CURVE, Half(c.x, pen.startC.x), Half(c.y, pen.startC.y), c.x, c.y);
        num' := num' + 1;
      }
      SetVertex(v, num', CURVE, s.x, s.y, pen.startC.x, pen.startC.y);
      num' := num' + 1;
    } else {
      if pen.wasOff {
        SetVertex(v, num', CURVE, s.x, s.y, c.x, c.y);
      } else {
        SetVertex(v, num', LINE, s.x, s.y, 0, 0);
      }
      num' := num' + 1;
    }
  }

  lemma CloseTrace(pen: Pen)
    requires pen.Ok()
    ensures Trace(pen.start, pen.Tail(), pen.Control()) ==
      if pen.startOff then Drawn(pen.Control(), pen.startC) + [CurveTo(pen.start, pen.startC)]
      else [if pen.wasOff then CurveTo(pen.start, pen.c) else LineTo(pen.start)]
  {
    hide Mid;
    if pen.startOff {
      assert pen.Tail()[1..] == [];
      TraceHead(pen.start, pen.Tail(), pen.Control());
    }
  }

  /** The points from `i` on have not been overwritten. */
  ghost predicate Unread(v: seq<Vertex>, off: nat, pts: seq<Point>, i: nat) {
    |v| == off + |pts| && forall k :: i <= k < |pts| ==> ToPoint(v[off + k]) == pts[k]
  }

  /** What has been written, with what the rest of contour `j - 1` will add, is the outline so far. */
  ghost predicate Drawing(out: seq<Vertex>, pts: seq<Point>, ends: seq<nat>, i: nat, j: nat, pen: Pen)
    requires WellFormed(pts, ends) && 0 < j <= |ends| && i <= FirstOf(ends, j) <= |pts|
  {
    out + Trace(pen.start, pts[i..FirstOf(ends, j)] + pen.Tail(), pen.Control()) == Outline(pts, ends, j)
  }

  /** The start point of a contour, which may use up two points. */
  method ChooseStart(v: array<Vertex>, off: nat, i: nat, ends: seq<nat>, j: nat, ghost pts: seq<Point>)
    returns (i': nat, pen: Pen)
    requires WellFormed(pts, ends) && j < |ends| && i == FirstOf(ends, j)
    requires Unread(v[..], off, pts, i)
    ensures i < i' <= FirstOf(ends, j + 1) <= |pts| && pen.Ok() && !pen.wasOff
    ensures ContourFits(pts, ends, j) && pen.start == StartOf(ContourAt(pts, ends, j))
    ensures RestOf(ContourAt(pts, ends, j)) == pts[i'..FirstOf(ends, j + 1)] + pen.Tail()
  {
    hide WellFormed;
    InContour(pts, ends, j);
    ghost var contour := ContourAt(pts, ends, j);
    var p := ToPoint(v[off + i]);
    assert p == contour[0];
    i' := i + 1;
    if p.on {
      pen := Pen(false, false, p, Point(false, 0, 0), Point(false, 0, 0));
    } else {
      var q := ToPoint(v[off + i + 1]);
      assert q == contour[1];
      if !q.on {
        pen := Pen(false, true, Mid(p, q), p, Point(false, 0, 0));
      } else {
        pen := Pen(false, true, q, p, Point(false, 0, 0));
        i' := i' + 1;
      }
    }
  }

  /** The start of a contour: the pen moves to its start point. */
  method StartContour(v: array<Vertex>, off: nat, i: nat, num: nat, ends: seq<nat>, j: nat, ghost pts: seq<Point>)
    returns (i': nat, pen: Pen)
    requires WellFormed(pts, ends) && j < |ends| && i == FirstOf(ends, j)
    requires Unread(v[..], off, pts, i) && num < off + i < v.Length
    requires v[..num] == Outline(pts, ends, j)
    modifies v
    ensures i < i' <= FirstOf(ends, j + 1) <= |pts| && pen.Ok()
    ensures Unread(v[..], off, pts, i')
    ensures Drawing(v[..num + 1], pts, ends, i', j + 1, pen)
  {
    hide Trace, Outline, WellFormed, StartOf, RestOf;
    ghost var out := v[..num];
    i', pen := ChooseStart(v, off, i, ends, j, pts);
    SetVertex(v, num, MOVE, pen.start.x, pen.start.y, 0, 0);
    assert v[..num + 1] == out + [MoveTo(pen.start)];
    OutlineNext(pts, ends, j);
    ghost var t := Trace(pen.start, RestOf(ContourAt(pts, ends, j)), None);
    assert out + ([MoveTo(pen.start)] + t) == out + [MoveTo(pen.start)] + t;
  }

  lemma InContour(pts: seq<Point>, ends: seq<nat>, j: nat)
    requires WellFormed(pts, ends) && j < |ends|
    ensures ContourFits(pts, ends, j) && FirstOf(ends, j) < FirstOf(ends, j + 1) <= |pts|
    ensures var c := ContourAt(pts, ends, j);
            && ContourOk(c) && |c| == FirstOf(ends, j + 1) - FirstOf(ends, j)
            && (forall k :: 0 <= k < |c| ==> c[k] == pts[FirstOf(ends, j) + k] && Small(c[k]))
  {
    assert ContourFits(pts, ends, j);
  }

  /** Only the last contour ends with the last point. */
  lemma LastContour(pts: seq<Point>, ends: seq<nat>, j: nat)
    requires WellFormed(pts, ends) && j <= |ends|
    ensures FirstOf(ends, j) <= |pts| && (FirstOf(ends, j) == |pts| <==> j == |ends|)
  {
    if j < |ends| { InContour(pts, ends, j); }
  }

  lemma OutlineNext(pts: seq<Point>, ends: seq<nat>, j: nat)
    requires WellFormed(pts, ends) && j < |ends|
    ensures ContourFits(pts, ends, j)
    ensures Outline(pts, ends, j + 1) == Outline(pts, ends, j) + Contour(ContourAt(pts, ends, j))
  {
    assert ContourFits(pts, ends, j);
  }

  lemma OutlineNone(pts: seq<Point>, ends: seq<nat>)
    requires WellFormed(pts, ends)
    ensures Outline(pts, ends, 0) == []
  {
  }

  /** Any other point of a contour: at most one command. */
  method DrawPoint(v: array<Vertex>, num: nat, pen: Pen, p: Point, ghost rest: seq<Point>)
    returns (num': nat, pen': Pen)
    requires num < v.Length && pen.Ok() && Small(p)
    modifies v
    ensures num <= num' <= num + 1 && v[num + 1..] == old(v[num + 1..])
    ensures pen'.Ok() && pen'.start == pen.start && pen'.Tail() == pen.Tail()
    ensures v[..num'] + Trace(pen.start, rest, pen'.Control()) == old(v[..num]) + Trace(pen.start, [p] + rest, pen.Control())
  {
    hide Trace, Short, Half;
    num', pen' := num, pen;
    var c := pen.c;
    assert ([p] + rest)[1..] == rest;
    TraceHead(pen.start, [p] + rest, pen.Control());
    if !p.on {
      if pen.wasOff {
        SetVertex(v, num', CURVE, Half(c.x, p.x), Half(c.y, p.y), c.x, c.y);
        num' := num' + 1;
        assert v[..num'] == old(v[..num]) + [CurveTo(Mid(c, p), c)];
      }
      pen' := pen.(c := p, wasOff := true);
    } else {
      if pen.wasOff {
        SetVertex(v, num', CURVE, p.x, p.y, c.x, c.y);
      } else {
        SetVertex(v, num', LINE, p.x, p.y, 0, 0);
      }
      num' := num' + 1;
      pen' := pen.(wasOff := false);
    }
  }

  /** The end of a contour. */
  method Finish(v: array<Vertex>, off: nat, i: nat, num: nat, ends: seq<nat>, j: nat, ghost pts: seq<Point>, pen: Pen)
    returns (num': nat)
    requires WellFormed(pts, ends) && 0 < j <= |ends| && i == FirstOf(ends, j)
    requires Unread(v[..], off, pts, i) && num + 2 <= off + i <= v.Length
    requires pen.Ok() && Drawing(v[..num], pts, ends, i, j, pen)
    modifies v
    ensures num' <= num + 2 && v[..num'] == Outline(pts, ends, j)
    ensures Unread(v[..], off, pts, i)
  {
    hide Outline, Trace;
    ghost var old2 := v[num + 2..];
    assert pts[i..i] + pen.Tail() == pen.Tail();
    num' := CloseShape(v, num, pen);
    assert forall k :: num + 2 <= k < v.Length ==> v[k] == old2[k - (num + 2)];
  }

  lemma FirstAndRest(pts: seq<Point>, i: nat, n: nat, tail: seq<Point>)
    requires i < n <= |pts|
    ensures pts[i..n] + tail == [pts[i]] + (pts[i + 1..n] + tail)
  {
  }

  /** A point inside a contour. */
  method NextPoint(v: array<Vertex>, off: nat, i: nat, num: nat, ends: seq<nat>, j: nat, ghost pts: seq<Point>, pen: Pen)
    returns (num': nat, pen': Pen)
    requires WellFormed(pts, ends) && 0 < j <= |ends| && i < FirstOf(ends, j) <= |pts|
    requires Unread(v[..], off, pts, i) && num < off + i < v.Length
    requires pen.Ok() && Drawing(v[..num], pts, ends, i, j, pen)
    modifies v
    ensures num' <= num + 1 && pen'.Ok() && Unread(v[..], off, pts, i + 1)
    ensures num' <= v.Length && Drawing(v[..num'], pts, ends, i + 1, j, pen')
  {
    hide Outline, Trace;
    var p := ToPoint(v[off + i]);
    assert p == pts[i] && Small(pts[i]);
    ghost var rest, old1 := pts[i + 1..FirstOf(ends, j)] + pen.Tail(), v[num + 1..];
    FirstAndRest(pts, i, FirstOf(ends, j), pen.Tail());
    num', pen' := DrawPoint(v, num, pen, p, rest);
    assert forall k :: num + 1 <= k < v.Length ==> v[k] == old1[k - (num + 1)];
  }

  /**
    The conversion loop.  `off` cells before the points are enough room: no point is overwritten
    before it has been read, and the result is the outline.
   */
  method Convert(v: array<Vertex>, ends: seq<nat>, ghost pts: seq<Point>) returns (num: nat)
    requires WellFormed(pts, ends) && |ends| > 0 && Unread(v[..], 2 * |ends|, pts, 0)
    modifies v
    ensures num <= |pts| + 2 * |ends| == v.Length
    ensures v[..num] == Outline(pts, ends, |ends|)
  {
    hide Trace, Outline, Drawing, WellFormed;
    LastContour(pts, ends, |ends|);
    var off, n := 2 * |ends|, FirstOf(ends, |ends|);
    var i, j, nextMove := 0, 0, 0;
    var pen := Pen(false, false, Point(true, 0, 0), Point(false, 0, 0), Point(false, 0, 0));
    num := 0;
    LastContour(pts, ends, 0);
    while i < n
      invariant j <= |ends| && i <= nextMove == FirstOf(ends, j) <= n
      invariant nextMove == n <==> j == |ends|
      invariant num <= i + 2 * j && (j > 0 ==> num + 2 <= i + 2 * j)
      invariant Unread(v[..], off, pts, i)
      invariant pen.Ok()
      invariant j > 0 ==> Drawing(v[..num], pts, ends, i, j, pen)
    {
      if nextMove == i {
        if i != 0 {
          num := Finish(v, off, i, num, ends, j, pts, pen);
        } else {
          OutlineNone(pts, ends);
        }
        i, pen := StartContour(v, off, i, num, ends, j, pts);
        num, j := num + 1, j + 1;
        nextMove := FirstOf(ends, j);
        LastContour(pts, ends, j);
      } else {
        num, pen := NextPoint(v, off, i, num, ends, j, pts, pen);
        i := i + 1;
      }
    }
    num := Finish(v, off, i, num, ends, j, pts, pen);
  }
}
