/**
  What the path operators of a charstring draw, in absolute points. A point is counted in 65536ths of a
  font unit; each operator can draw some lists of segments, and its operands are differences of their points.
 */
module CharstringDrawing {
  import opened Common
  import opened CharstringSpec
  import opened CharstringNumber

  datatype Point = Point(x: int, y: int)

  datatype Segment = Line(end: Point) | Curve(c1: Point, c2: Point, end: Point)

  datatype Operator =
    | RLineTo | AltLineTo(horizontal: bool)
    | RRCurveTo | AltCurveTo(horizontal: bool, fifth: bool) | AxisCurveTo(horizontal: bool, cross: bool)
    | RCurveLine | RLineCurve
    | FlexTo(kind: FlexKind)

  /** `Flex` also takes a depth, which only matters to hinting. */
  datatype FlexKind = HFlex | FlexDepth(depth: int) | HFlex1 | Flex1

  function LastPoint(p: Point, segs: seq<Segment>): Point {
    if segs == [] then p else segs[|segs| - 1].end
  }

  function PenAt(at: Point, first: Point): Pen {
    Pen(Units(at.x), Units(at.y), Units(first.x), Units(first.y))
  }

  function Rounded(d: int): int { Trunc(Units(d)) }

  /** Coordinates lose their fraction, towards zero. */
  lemma RoundsToZero(d: int)
    ensures Rounded(-d) == -Rounded(d) && (d >= 0 ==> Rounded(d) * ONE <= d < (Rounded(d) + 1) * ONE)
  {
    if d >= 0 {
      var r := Units(d).Floor;
      assert r as real <= Units(d) < r as real + 1.0;
      assert r * ONE <= d < (r + 1) * ONE;
    }
  }

  function VertexOf(s: Segment): Vertex {
    match s
    case Line(q) => Vertex(LINE, Rounded(q.x), Rounded(q.y), 0, 0, 0, 0)
    case Curve(c, d, q) => Vertex(CUBIC, Rounded(q.x), Rounded(q.y), Rounded(c.x), Rounded(c.y), Rounded(d.x), Rounded(d.y))
  }

  function Vertices(segs: seq<Segment>): (vs: seq<Vertex>)
    ensures |vs| == |segs|
  {
    seq(|segs|, i requires 0 <= i < |segs| => VertexOf(segs[i]))
  }

  /** The segments from `p` on, drawn with a pen whose contour started at `first`. */
  function Drawn(p: Point, first: Point, segs: seq<Segment>): Stroke {
    Stroke(PenAt(LastPoint(p, segs), first), Vertices(segs))
  }

  function Reals(s: seq<int>): (r: seq<real>)
    ensures |r| == |s|
  {
    seq(|s|, i requires 0 <= i < |s| => Units(s[i]))
  }

  // ----- which segments an operator can draw, and its operands for them

  predicate AllLines(segs: seq<Segment>) { forall s <- segs :: s.Line? }

  predicate AllCurves(segs: seq<Segment>) { forall s <- segs :: s.Curve? }

  function LineOperands(p: Point, segs: seq<Segment>): (r: seq<int>)
    requires AllLines(segs)
    ensures |r| == 2 * |segs|
    decreases |segs|
  {
    if segs == [] then []
    else var q := segs[0].end; [q.x - p.x, q.y - p.y] + LineOperands(q, segs[1..])
  }

  predicate Alternates(p: Point, segs: seq<Segment>, horizontal: bool)
    requires AllLines(segs)
    decreases |segs|
  {
    segs != [] ==>
      var q := segs[0].end;
      (if horizontal then q.y == p.y else q.x == p.x) && Alternates(q, segs[1..], !horizontal)
  }

  function AltLineOperands(p: Point, segs: seq<Segment>, horizontal: bool): (r: seq<int>)
    requires AllLines(segs)
    ensures |r| == |segs|
    decreases |segs|
  {
    if segs == [] then []
    else
      var q := segs[0].end;
      [if horizontal then q.x - p.x else q.y - p.y] + AltLineOperands(q, segs[1..], !horizontal)
  }

  function CurveDeltas(p: Point, s: Segment): (r: seq<int>)
    requires s.Curve?
    ensures |r| == 6
  {
    var Curve(c, d, q) := s;
    [c.x - p.x, c.y - p.y, d.x - c.x, d.y - c.y, q.x - d.x, q.y - d.y]
  }

  function CurveOperands(p: Point, segs: seq<Segment>): (r: seq<int>)
    requires AllCurves(segs)
    ensures |r| == 6 * |segs|
    decreases |segs|
  {
    if segs == [] then [] else CurveDeltas(p, segs[0]) + CurveOperands(segs[0].end, segs[1..])
  }

  /** Each curve leaves along one axis and arrives along the other; the last may arrive at any angle. */
  predicate Turns(p: Point, segs: seq<Segment>, horizontal: bool, fifth: bool)
    requires AllCurves(segs)
    decreases |segs|
  {
    segs != [] ==>
      var Curve(c, d, q) := segs[0];
      && (if horizontal then c.y == p.y else c.x == p.x)
      && (if fifth && |segs| == 1 then true else if horizontal then q.x == d.x else q.y == d.y)
      && Turns(q, segs[1..], !horizontal, fifth)
  }

  function TurnDeltas(p: Point, s: Segment, horizontal: bool, fifth: bool): (r: seq<int>)
    requires s.Curve?
    ensures |r| == if fifth then 5 else 4
  {
    var Curve(c, d, q) := s;
    if horizontal then [c.x - p.x, d.x - c.x, d.y - c.y, q.y - d.y] + if fifth then [q.x - d.x] else []
    else [c.y - p.y, d.x - c.x, d.y - c.y, q.x - d.x] + if fifth then [q.y - d.y] else []
  }

  function TurnOperands(p: Point, segs: seq<Segment>, horizontal: bool, fifth: bool): (r: seq<int>)
    requires AllCurves(segs)
    ensures |r| == 4 * |segs| + if fifth && segs != [] then 1 else 0
    decreases |segs|
  {
    if segs == [] then []
    else
      TurnDeltas(p, segs[0], horizontal, fifth && |segs| == 1) + TurnOperands(segs[0].end, segs[1..], !horizontal, fifth)
  }

  /** Each curve leaves and arrives along the same axis; the first may leave at any angle. */
  predicate Follows(p: Point, segs: seq<Segment>, horizontal: bool, cross: bool)
    requires AllCurves(segs)
    decreases |segs|
  {
    segs != [] ==>
      var Curve(c, d, q) := segs[0];
      && (if cross then true else if horizontal then c.y == p.y else c.x == p.x)
      && (if horizontal then q.y == d.y else q.x == d.x)
      && Follows(q, segs[1..], horizontal, false)
  }

  function FollowDeltas(p: Point, s: Segment, horizontal: bool): (r: seq<int>)
    requires s.Curve?
    ensures |r| == 4
  {
    var Curve(c, d, q) := s;
    if horizontal then [c.x - p.x, d.x - c.x, d.y - c.y, q.x - d.x] else [c.y - p.y, d.x - c.x, d.y - c.y, q.y - d.y]
  }

  function FollowOperands(p: Point, segs: seq<Segment>, horizontal: bool): (r: seq<int>)
    requires AllCurves(segs)
    ensures |r| == 4 * |segs|
    decreases |segs|
  {
    if segs == [] then [] else FollowDeltas(p, segs[0], horizontal) + FollowOperands(segs[0].end, segs[1..], horizontal)
  }

  function Size(d: int): nat { if d < 0 then -d else d }

  /** `flex1` leaves out the smaller of the two distances; the curves end level with their start in it. */
  predicate Wide(p: Point, b: Segment)
    requires b.Curve?
  {
    Size(b.c2.x - p.x) > Size(b.c2.y - p.y)
  }

  predicate CanFlex(kind: FlexKind, p: Point, a: Segment, b: Segment)
    requires a.Curve? && b.Curve?
  {
    match kind
    case HFlex => a.c1.y == p.y && a.end.y == a.c2.y && b.c1.y == a.end.y && b.c2.y == p.y && b.end.y == p.y
    case FlexDepth(_) => true
    case HFlex1 => a.end.y == a.c2.y && b.c1.y == a.end.y && b.end.y == p.y
    case Flex1 => if Wide(p, b) then b.end.y == p.y else b.end.x == p.x
  }

  predicate CanDraw(op: Operator, p: Point, segs: seq<Segment>) {
    var n := |segs|;
    segs != [] &&
    match op
    case RLineTo => AllLines(segs)
    case AltLineTo(h) => AllLines(segs) && Alternates(p, segs, h)
    case RRCurveTo => AllCurves(segs)
    case AltCurveTo(h, fifth) => AllCurves(segs) && Turns(p, segs, h, fifth)
    case AxisCurveTo(h, cross) => AllCurves(segs) && Follows(p, segs, h, cross)
    case RCurveLine => n > 1 && AllCurves(segs[..n - 1]) && segs[n - 1].Line?
    case RLineCurve => n > 1 && AllLines(segs[..n - 1]) && segs[n - 1].Curve?
    case FlexTo(kind) => n == 2 && AllCurves(segs) && CanFlex(kind, p, segs[0], segs[1])
  }

  function FlexOperands(kind: FlexKind, p: Point, a: Segment, b: Segment): seq<int>
    requires a.Curve? && b.Curve?
  {
    var (j, q) := (a.end, b.end);
    match kind
    case HFlex =>
      [a.c1.x - p.x, a.c2.x - a.c1.x, a.c2.y - a.c1.y, j.x - a.c2.x, b.c1.x - j.x, b.c2.x - b.c1.x, q.x - b.c2.x]
    case FlexDepth(depth) => CurveOperands(p, [a, b]) + [depth]
    case HFlex1 =>
      [a.c1.x - p.x, a.c1.y - p.y, a.c2.x - a.c1.x, a.c2.y - a.c1.y, j.x - a.c2.x,
       b.c1.x - j.x, b.c2.x - b.c1.x, b.c2.y - b.c1.y, q.x - b.c2.x]
    case Flex1 =>
      CurveOperands(p, [a, b])[..10] + [if Wide(p, b) then q.x - b.c2.x else q.y - b.c2.y]
  }

  function Operands(op: Operator, p: Point, segs: seq<Segment>): seq<int>
    requires CanDraw(op, p, segs)
  {
    var n := |segs|;
    match op
    case RLineTo => LineOperands(p, segs)
    case AltLineTo(h) => AltLineOperands(p, segs, h)
    case RRCurveTo => CurveOperands(p, segs)
    case AltCurveTo(h, fifth) => TurnOperands(p, segs, h, fifth)
    case AxisCurveTo(h, cross) =>
      (if !cross then [] else if h then [segs[0].c1.y - p.y] else [segs[0].c1.x - p.x]) + FollowOperands(p, segs, h)
    case RCurveLine =>
      CurveOperands(p, segs[..n - 1]) + LineOperands(LastPoint(p, segs[..n - 1]), segs[n - 1..])
    case RLineCurve =>
      LineOperands(p, segs[..n - 1]) + CurveOperands(LastPoint(p, segs[..n - 1]), segs[n - 1..])
    case FlexTo(kind) => FlexOperands(kind, p, segs[0], segs[1])
  }

  function FlexCode(kind: FlexKind): Byte {
    match kind
    case HFlex => 34
    case FlexDepth(_) => 35
    case HFlex1 => 36
    case Flex1 => 37
  }

  function Opcode(op: Operator): seq<Byte> {
    match op
    case RLineTo => [5]
    case AltLineTo(h) => if h then [6] else [7]
    case RRCurveTo => [8]
    case AltCurveTo(h, _) => if h then [31] else [30]
    case AxisCurveTo(h, _) => if h then [27] else [26]
    case RCurveLine => [24]
    case RLineCurve => [25]
    case FlexTo(kind) => [12, FlexCode(kind)]
  }

  // ----- one segment

  lemma Between(a: int, b: int)
    ensures Units(a) + Units(b - a) == Units(b)
  {
  }

  lemma OneLine(p: Point, first: Point, q: Point)
    ensures CharstringSpec.RLineTo(PenAt(p, first), Units(q.x - p.x), Units(q.y - p.y)) ==
            Stroke(PenAt(q, first), [VertexOf(Line(q))])
  {
    Between(p.x, q.x);
    Between(p.y, q.y);
  }

  lemma OneCurve(p: Point, first: Point, s: Segment)
    requires s.Curve?
    ensures RCurveTo(PenAt(p, first), Units(s.c1.x - p.x), Units(s.c1.y - p.y), Units(s.c2.x - s.c1.x),
              Units(s.c2.y - s.c1.y), Units(s.end.x - s.c2.x), Units(s.end.y - s.c2.y)) ==
            Stroke(PenAt(s.end, first), [VertexOf(s)])
  {
    Between(p.x, s.c1.x);
    Between(p.y, s.c1.y);
    Between(s.c1.x, s.c2.x);
    Between(s.c1.y, s.c2.y);
    Between(s.c2.x, s.end.x);
    Between(s.c2.y, s.end.y);
  }

  lemma DrawnFirst(p: Point, first: Point, segs: seq<Segment>)
    requires segs != []
    ensures Stroke(PenAt(segs[0].end, first), [VertexOf(segs[0])]).Then(Drawn(segs[0].end, first, segs[1..])) ==
            Drawn(p, first, segs)
  {
    assert Vertices(segs) == [VertexOf(segs[0])] + Vertices(segs[1..]);
  }

  lemma DrawnBoth(p: Point, first: Point, a: seq<Segment>, b: seq<Segment>)
    ensures Drawn(p, first, a).Then(Drawn(LastPoint(p, a), first, b)) == Drawn(p, first, a + b)
    ensures Drawn(p, first, a).pen == PenAt(LastPoint(p, a), first)
  {
    assert Vertices(a + b) == Vertices(a) + Vertices(b);
    if b == [] { assert a + b == a; }
  }

  /** The operands at the front of a list, and the ones behind them. */
  lemma Front(s: seq<real>, i: nat, end: nat, a: seq<int>, b: seq<int>)
    requires i <= end <= |s| && s[i..end] == Reals(a + b)
    ensures i + |a| <= end && s[i + |a|..end] == Reals(b)
    ensures forall k :: 0 <= k < |a| ==> s[i + k] == Units(a[k])
  {
    forall k | 0 <= k < |a| ensures s[i + k] == Units(a[k]) { assert s[i + k] == s[i..end][k]; }
    assert s[i + |a|..end] == s[i..end][|a|..] == Reals(b);
  }

  lemma RealsJoin(a: seq<int>, b: seq<int>)
    ensures var s, m := Reals(a + b), |a|; s[0..m] == Reals(a) && s[m..] == s[m..m + |b|] == Reals(b)
  {
  }

  // ----- the repeated forms; `s` holds the operands from place `i` on

  lemma {:induction false} LinesDraw(p: Point, first: Point, segs: seq<Segment>, s: seq<real>, i: nat, end: nat)
    requires AllLines(segs) && i <= end <= |s| && s[i..end] == Reals(LineOperands(p, segs))
    ensures Lines(PenAt(p, first), s, i, end) == Drawn(p, first, segs)
    decreases |segs|
  {
    if segs == [] {
    } else {
      var q, ops := segs[0].end, LineOperands(p, segs);
      assert s[i] == s[i..end][0] == Units(ops[0]) && s[i + 1] == s[i..end][1] == Units(ops[1]);
      assert s[i + 2..end] == s[i..end][2..] == Reals(LineOperands(q, segs[1..]));
      OneLine(p, first, q);
      LinesDraw(q, first, segs[1..], s, i + 2, end);
      DrawnFirst(p, first, segs);
    }
  }

  lemma NextCurve(p: Pen, s: seq<real>, i: nat, end: nat, t: Stroke, more: Stroke)
    requires i + 6 <= end <= |s| && t == RCurveTo(p, s[i], s[i + 1], s[i + 2], s[i + 3], s[i + 4], s[i + 5])
    requires more == Curves(t.pen, s, i + 6, end)
    ensures Curves(p, s, i, end) == t.Then(more)
  {
  }

  lemma CurveAt(p: Point, first: Point, a: Segment, s: seq<real>, i: nat, end: nat, more: seq<int>)
    requires a.Curve? && i <= end <= |s| && s[i..end] == Reals(CurveDeltas(p, a) + more)
    ensures i + 6 <= end && s[i + 6..end] == Reals(more)
    ensures RCurveTo(PenAt(p, first), s[i], s[i + 1], s[i + 2], s[i + 3], s[i + 4], s[i + 5]) ==
            Stroke(PenAt(a.end, first), [VertexOf(a)])
  {
    hide RCurveTo, Reals, PenAt, VertexOf, Units;
    var ds := CurveDeltas(p, a);
    Front(s, i, end, ds, more);
    assert s[i + 0] == Units(ds[0]) && s[i + 1] == Units(ds[1]) && s[i + 2] == Units(ds[2]);
    assert s[i + 3] == Units(ds[3]) && s[i + 4] == Units(ds[4]) && s[i + 5] == Units(ds[5]);
    OneCurve(p, first, a);
  }

  lemma {:induction false} CurvesDraw(p: Point, first: Point, segs: seq<Segment>, s: seq<real>, i: nat, end: nat)
    requires AllCurves(segs) && i <= end <= |s| && s[i..end] == Reals(CurveOperands(p, segs))
    ensures Curves(PenAt(p, first), s, i, end) == Drawn(p, first, segs)
    decreases |segs|
  {
    if segs == [] {
    } else {
      hide PenAt, Units, VertexOf, Drawn, RCurveTo, Reals, Curves, CurveDeltas;
      var q := segs[0].end;
      CurveAt(p, first, segs[0], s, i, end, CurveOperands(q, segs[1..]));
      CurvesDraw(q, first, segs[1..], s, i + 6, end);
      NextCurve(PenAt(p, first), s, i, end, Stroke(PenAt(q, first), [VertexOf(segs[0])]), Drawn(q, first, segs[1..]));
      DrawnFirst(p, first, segs);
    }
  }

  lemma {:induction false} AltLinesDraw(p: Point, first: Point, segs: seq<Segment>, horizontal: bool, s: seq<real>, i: nat)
    requires AllLines(segs) && Alternates(p, segs, horizontal)
    requires i <= |s| && s[i..] == Reals(AltLineOperands(p, segs, horizontal))
    ensures AltLines(PenAt(p, first), s, i, horizontal) == Drawn(p, first, segs)
    decreases |segs|
  {
    if segs == [] {
    } else {
      var q, ops := segs[0].end, AltLineOperands(p, segs, horizontal);
      assert s[i] == s[i..][0] == Units(ops[0]);
      assert s[i + 1..] == s[i..][1..] == Reals(AltLineOperands(q, segs[1..], !horizontal));
      OneLine(p, first, q);
      AltLinesDraw(q, first, segs[1..], !horizontal, s, i + 1);
      DrawnFirst(p, first, segs);
    }
  }

  lemma OneTurn(p: Point, first: Point, a: Segment, horizontal: bool, fifth: bool, s: seq<real>)
    requires a.Curve? && s == Reals(TurnDeltas(p, a, horizontal, fifth))
    requires if horizontal then a.c1.y == p.y else a.c1.x == p.x
    requires fifth || if horizontal then a.end.x == a.c2.x else a.end.y == a.c2.y
    ensures var last := if fifth then s[4] else 0.0;
            (if horizontal then RCurveTo(PenAt(p, first), s[0], 0.0, s[1], s[2], last, s[3])
             else RCurveTo(PenAt(p, first), 0.0, s[0], s[1], s[2], s[3], last)) == Stroke(PenAt(a.end, first), [VertexOf(a)])
  {
    OneCurve(p, first, a);
  }

  lemma TurnAt(p: Point, first: Point, a: Segment, horizontal: bool, fifth: bool, s: seq<real>, i: nat, more: seq<int>)
    requires a.Curve? && (if horizontal then a.c1.y == p.y else a.c1.x == p.x)
    requires fifth || if horizontal then a.end.x == a.c2.x else a.end.y == a.c2.y
    requires i <= |s| && s[i..] == Reals(TurnDeltas(p, a, horizontal, fifth) + more) && (if fifth then more == [] else |more| != 1)
    ensures i + 4 <= |s| && (if fifth then |s| == i + 5 else s[i + 4..] == Reals(more))
    ensures AltCurves(PenAt(p, first), s, i, horizontal) ==
            Stroke(PenAt(a.end, first), [VertexOf(a)]).Then(AltCurves(PenAt(a.end, first), s, i + 4, !horizontal))
  {
    hide RCurveTo, Reals, PenAt, VertexOf, Units, TurnDeltas;
    var deltas := TurnDeltas(p, a, horizontal, fifth);
    Front(s, i, |s|, deltas, more);
    OneTurn(p, first, a, horizontal, fifth, Reals(deltas));
    RealsAre(deltas);
  }

  lemma RealsAre(a: seq<int>)
    ensures forall k :: 0 <= k < |a| ==> Reals(a)[k] == Units(a[k])
  {
  }

  lemma {:induction false} TurnsDraw(p: Point, first: Point, segs: seq<Segment>, horizontal: bool, fifth: bool,
                                     s: seq<real>, i: nat)
    requires AllCurves(segs) && Turns(p, segs, horizontal, fifth)
    requires i <= |s| && s[i..] == Reals(TurnOperands(p, segs, horizontal, fifth))
    ensures AltCurves(PenAt(p, first), s, i, horizontal) == Drawn(p, first, segs)
    decreases |segs|
  {
    if segs == [] {
    } else {
      var q, last := segs[0].end, fifth && |segs| == 1;
      hide PenAt, Units, VertexOf, Drawn, RCurveTo, TurnDeltas, Reals, AltCurves;
      TurnAt(p, first, segs[0], horizontal, last, s, i, TurnOperands(q, segs[1..], !horizontal, fifth));
      DrawnFirst(p, first, segs);
      if last {
        NoMoreTurns(q, first, s, i + 4, !horizontal);
        assert segs[1..] == [];
      } else {
        TurnsDraw(q, first, segs[1..], !horizontal, fifth, s, i + 4);
      }
    }
  }

  lemma NoMoreTurns(p: Point, first: Point, s: seq<real>, i: nat, horizontal: bool)
    requires |s| == i + 1
    ensures AltCurves(PenAt(p, first), s, i, horizontal) == Drawn(p, first, [])
  {
  }

  lemma OneFollow(p: Point, first: Point, a: Segment, horizontal: bool, s: seq<real>, f: real)
    requires a.Curve? && s == Reals(FollowDeltas(p, a, horizontal))
    requires f == Units(if horizontal then a.c1.y - p.y else a.c1.x - p.x)
    requires if horizontal then a.end.y == a.c2.y else a.end.x == a.c2.x
    ensures (if horizontal then RCurveTo(PenAt(p, first), s[0], f, s[1], s[2], s[3], 0.0)
             else RCurveTo(PenAt(p, first), f, s[0], s[1], s[2], 0.0, s[3])) == Stroke(PenAt(a.end, first), [VertexOf(a)])
  {
    OneCurve(p, first, a);
  }

  lemma {:induction false} FollowsDraw(p: Point, first: Point, segs: seq<Segment>, horizontal: bool,
                                       cross: bool, s: seq<real>, i: nat, f: real)
    requires AllCurves(segs) && Follows(p, segs, horizontal, cross)
    requires segs != [] ==> f == Units(if horizontal then segs[0].c1.y - p.y else segs[0].c1.x - p.x)
    requires i <= |s| && s[i..] == Reals(FollowOperands(p, segs, horizontal))
    ensures AxisCurves(PenAt(p, first), s, i, f, horizontal) == Drawn(p, first, segs)
    decreases |segs|
  {
    if segs == [] {
    } else {
      var q, deltas := segs[0].end, FollowDeltas(p, segs[0], horizontal);
      Front(s, i, |s|, deltas, FollowOperands(q, segs[1..], horizontal));
      OneFollow(p, first, segs[0], horizontal, Reals(deltas), f);
      DrawnFirst(p, first, segs);
      hide PenAt, VertexOf, Drawn, RCurveTo, FollowDeltas;
      FollowsDraw(q, first, segs[1..], horizontal, false, s, i + 4, 0.0);
    }
  }

  // ----- the operators

  lemma Two(p: Point, first: Point, a: Segment, b: Segment, s: seq<real>, t: seq<real>)
    requires a.Curve? && b.Curve? && s == Reals(CurveDeltas(p, a)) && t == Reals(CurveDeltas(a.end, b))
    ensures TwoCurves(PenAt(p, first), (s[0], s[1], s[2], s[3], s[4], s[5]), (t[0], t[1], t[2], t[3], t[4], t[5])) ==
            Drawn(p, first, [a, b])
  {
    OneCurve(p, first, a);
    OneCurve(a.end, first, b);
    assert Vertices([a, b]) == [VertexOf(a)] + [VertexOf(b)];
  }

  lemma TwoOperands(p: Point, a: Segment, b: Segment)
    requires a.Curve? && b.Curve?
    ensures CurveOperands(p, [a, b]) == CurveDeltas(p, a) + CurveDeltas(a.end, b)
  {
    assert [a, b][1..] == [b] && [b][1..] == [];
  }

  /** `flex1` compares the sums of its operands, which are the distances from the start. */
  lemma FlexWidth(p: Point, a: Segment, b: Segment)
    requires a.Curve? && b.Curve?
    ensures var s, t := Reals(CurveDeltas(p, a)), Reals(CurveDeltas(a.end, b));
            var dx, dy := s[0] + s[2] + s[4] + t[0] + t[2], s[1] + s[3] + s[5] + t[1] + t[3];
            && dx == Units(b.c2.x - p.x) && dy == Units(b.c2.y - p.y)
            && (Abs(dx) > Abs(dy) <==> Wide(p, b))
  {
  }

  lemma HFlexDraws(p: Point, first: Point, a: Segment, b: Segment)
    requires a.Curve? && b.Curve? && CanFlex(HFlex, p, a, b)
    ensures Flex(34, Reals(FlexOperands(HFlex, p, a, b)), PenAt(p, first)) == Some(Drawn(p, first, [a, b]))
  {
    Two(p, first, a, b, Reals(CurveDeltas(p, a)), Reals(CurveDeltas(a.end, b)));
    hide PenAt, Drawn, TwoCurves;
  }

  lemma HFlex1Draws(p: Point, first: Point, a: Segment, b: Segment)
    requires a.Curve? && b.Curve? && CanFlex(HFlex1, p, a, b)
    ensures Flex(36, Reals(FlexOperands(HFlex1, p, a, b)), PenAt(p, first)) == Some(Drawn(p, first, [a, b]))
  {
    Two(p, first, a, b, Reals(CurveDeltas(p, a)), Reals(CurveDeltas(a.end, b)));
    hide PenAt, Drawn, TwoCurves;
  }

  lemma FlexDepthDraws(depth: int, p: Point, first: Point, a: Segment, b: Segment)
    requires a.Curve? && b.Curve?
    ensures Flex(35, Reals(FlexOperands(FlexDepth(depth), p, a, b)), PenAt(p, first)) == Some(Drawn(p, first, [a, b]))
  {
    TwoOperands(p, a, b);
    Two(p, first, a, b, Reals(CurveDeltas(p, a)), Reals(CurveDeltas(a.end, b)));
    hide PenAt, Drawn, TwoCurves, CurveDeltas, CurveOperands;
  }

  lemma Flex1Draws(p: Point, first: Point, a: Segment, b: Segment)
    requires a.Curve? && b.Curve? && CanFlex(Flex1, p, a, b)
    ensures Flex(37, Reals(FlexOperands(Flex1, p, a, b)), PenAt(p, first)) == Some(Drawn(p, first, [a, b]))
  {
    TwoOperands(p, a, b);
    Two(p, first, a, b, Reals(CurveDeltas(p, a)), Reals(CurveDeltas(a.end, b)));
    FlexWidth(p, a, b);
    hide PenAt, Drawn, TwoCurves, CurveOperands, Abs, Wide;
  }

  lemma PathOfBoth(s: seq<real>, p: Pen, m: nat)
    ensures |s| == m + 2 && m >= 6 && m % 6 == 0 ==>
            var t := Curves(p, s, 0, m); Path(24, s, p) == Some(t.Then(Lines(t.pen, s, m, m + 2)))
    ensures |s| == m + 6 && m >= 2 && m % 2 == 0 ==>
            var t := Lines(p, s, 0, m); Path(25, s, p) == Some(t.Then(Curves(t.pen, s, m, m + 6)))
  {
    hide Curves, Lines;
  }

  lemma CurvesThenLine(p: Point, first: Point, front: seq<Segment>, back: seq<Segment>)
    requires AllCurves(front) && AllLines(back) && |front| > 0 && |back| == 1
    ensures Path(24, Reals(CurveOperands(p, front) + LineOperands(LastPoint(p, front), back)), PenAt(p, first)) ==
            Some(Drawn(p, first, front + back))
  {
    hide CurveOperands, LineOperands, Reals, Curves, Lines, PenAt, Path, Drawn, LastPoint, AllLines, AllCurves;
    var m, q := 6 * |front|, LastPoint(p, front);
    var a, b := CurveOperands(p, front), LineOperands(q, back);
    var s := Reals(a + b);
    RealsJoin(a, b);
    CurvesDraw(p, first, front, s, 0, m);
    LinesDraw(q, first, back, s, m, m + 2);
    DrawnBoth(p, first, front, back);
    PathOfBoth(s, PenAt(p, first), m);
  }

  lemma LinesThenCurve(p: Point, first: Point, front: seq<Segment>, back: seq<Segment>)
    requires AllLines(front) && AllCurves(back) && |front| > 0 && |back| == 1
    ensures Path(25, Reals(LineOperands(p, front) + CurveOperands(LastPoint(p, front), back)), PenAt(p, first)) ==
            Some(Drawn(p, first, front + back))
  {
    hide CurveOperands, LineOperands, Reals, Curves, Lines, PenAt, Path, Drawn, LastPoint, AllLines, AllCurves;
    var m, q := 2 * |front|, LastPoint(p, front);
    var a, b := LineOperands(p, front), CurveOperands(q, back);
    var s := Reals(a + b);
    RealsJoin(a, b);
    LinesDraw(p, first, front, s, 0, m);
    CurvesDraw(q, first, back, s, m, m + 6);
    DrawnBoth(p, first, front, back);
    PathOfBoth(s, PenAt(p, first), m);
  }

  lemma RealsFirst(f: int, ops: seq<int>)
    ensures Reals([f] + ops)[0] == Units(f)
  {
  }

  lemma AxisDraws(horizontal: bool, cross: bool, p: Point, first: Point, segs: seq<Segment>, f: int)
    requires segs != [] && AllCurves(segs) && Follows(p, segs, horizontal, cross)
    requires f == (if horizontal then segs[0].c1.y - p.y else segs[0].c1.x - p.x) && (!cross ==> Units(f) == 0.0)
    ensures var s := Reals((if cross then [f] else []) + FollowOperands(p, segs, horizontal));
            Path(if horizontal then 0x1B else 0x1A, s, PenAt(p, first)) == Some(Drawn(p, first, segs))
  {
    hide Reals, FollowOperands, Drawn, AxisCurves, PenAt, Path, Follows, Units, AllCurves;
    var front, ops := if cross then [f] else [], FollowOperands(p, segs, horizontal);
    var s := Reals(front + ops);
    RealsFirst(f, ops);
    RealsJoin(front, ops);
    FollowsDraw(p, first, segs, horizontal, cross, s, |front|, Units(f));
    PathOfAxis(if horizontal then 0x1B else 0x1A, s, PenAt(p, first));
  }

  lemma PathOfAxis(op: Byte, s: seq<real>, p: Pen)
    requires op in {0x1A, 0x1B} && |s| >= 4
    ensures Path(op, s, p) == Some(AxisCurves(p, s, |s| % 2, if |s| % 2 == 1 then s[0] else 0.0, op == 0x1B))
  {
    hide AxisCurves;
  }

  /** The operators that repeat one form. */
  lemma RepeatDraws(op: Operator, p: Point, first: Point, segs: seq<Segment>)
    requires CanDraw(op, p, segs) && (op.RLineTo? || op.AltLineTo? || op.RRCurveTo? || op.AltCurveTo?)
    ensures Path(Opcode(op)[0], Reals(Operands(op, p, segs)), PenAt(p, first)) == Some(Drawn(p, first, segs))
  {
    hide Reals, Drawn, PenAt, Curves, Lines, AltLines, AltCurves, LineOperands, CurveOperands, TurnOperands,
      AltLineOperands, Alternates, Turns, AllLines, AllCurves;
    var s := Reals(Operands(op, p, segs));
    assert s[0..|s|] == s[0..] == s;
    match op
    case RLineTo => LinesDraw(p, first, segs, s, 0, |s|);
    case AltLineTo(h) => AltLinesDraw(p, first, segs, h, s, 0);
    case RRCurveTo => CurvesDraw(p, first, segs, s, 0, |s|);
    case AltCurveTo(h, fifth) => TurnsDraw(p, first, segs, h, fifth, s, 0);
  }

  /** Every operator, on its operands for segments that it can draw, draws exactly them. */
  lemma OperatorDraws(op: Operator, p: Point, first: Point, segs: seq<Segment>)
    requires CanDraw(op, p, segs)
    ensures var s, code := Reals(Operands(op, p, segs)), Opcode(op);
            if op.FlexTo? then
              code[0] == 12 && IsFlex(code[1]) && Flex(code[1], s, PenAt(p, first)) == Some(Drawn(p, first, segs))
            else
              && |code| == 1 && IsPathOp(code[0]) && !IsMoveOp(code[0])
              && Path(code[0], s, PenAt(p, first)) == Some(Drawn(p, first, segs))
  {
    hide Reals, Drawn, PenAt, Path, Flex, LineOperands, CurveOperands, FlexOperands, Follows, AllLines, AllCurves;
    match op
    case AxisCurveTo(h, cross) =>
      LastIs(segs);
      NoCross(p, segs, h, cross);
      AxisDraws(h, cross, p, first, segs, if h then segs[0].c1.y - p.y else segs[0].c1.x - p.x);
    case RCurveLine =>
      assert segs == segs[..|segs| - 1] + segs[|segs| - 1..];
      LastIs(segs);
      CurvesThenLine(p, first, segs[..|segs| - 1], segs[|segs| - 1..]);
    case RLineCurve =>
      assert segs == segs[..|segs| - 1] + segs[|segs| - 1..];
      LastIs(segs);
      LinesThenCurve(p, first, segs[..|segs| - 1], segs[|segs| - 1..]);
    case FlexTo(kind) =>
      LastIs(segs);
      assert segs == [segs[0], segs[1]];
      match kind {
        case HFlex => HFlexDraws(p, first, segs[0], segs[1]);
        case FlexDepth(depth) => FlexDepthDraws(depth, p, first, segs[0], segs[1]);
        case HFlex1 => HFlex1Draws(p, first, segs[0], segs[1]);
        case Flex1 => Flex1Draws(p, first, segs[0], segs[1]);
      }
    case _ => RepeatDraws(op, p, first, segs);
  }

  lemma NoCross(p: Point, segs: seq<Segment>, horizontal: bool, cross: bool)
    requires segs != [] && AllCurves(segs) && Follows(p, segs, horizontal, cross)
    ensures !cross ==> Units(if horizontal then segs[0].c1.y - p.y else segs[0].c1.x - p.x) == 0.0
  {
  }

  lemma LastIs(segs: seq<Segment>)
    requires segs != []
    ensures segs[|segs| - 1].Line? ==> AllLines(segs[|segs| - 1..])
    ensures segs[|segs| - 1].Curve? ==> AllCurves(segs[|segs| - 1..])
    ensures AllCurves(segs) ==> segs[0].Curve? && segs[|segs| - 1].Curve?
  {
  }
}
