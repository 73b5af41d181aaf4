/**
  The bytes of a simple TrueType glyph: run-length coded flags and then two lists of coordinate changes,
  loaded in three passes into the end of the vertex array.  Loading undoes every legal way of writing the
  points as bytes, and with the conversion behind it a glyph's bytes become its outline.
 */
module GlyphLoad {
  import opened Common
  import opened GlyphOutline

  predicate OnCurve(f: Byte) { f % 2 == 1 }
  predicate Repeats(f: Byte) { f / 8 % 2 == 1 }

  datatype Axis = X | Y

  /** The change is one byte long. */
  predicate IsShortDelta(axis: Axis, f: Byte) {
    match axis case X => f / 2 % 2 == 1 case Y => f / 4 % 2 == 1
  }

  /** For a one-byte change, that it is positive; otherwise, that there is none. */
  predicate IsSame(axis: Axis, f: Byte) {
    match axis case X => f / 16 % 2 == 1 case Y => f / 32 % 2 == 1
  }

  /** What reading gives and what is left; or the bytes ran out. */
  datatype Read<T> = RanOut | Read(value: T, rest: seq<Byte>)

  /** The flags of the next `n` points; `count` more points share the flags `f`. */
  function Flags(s: seq<Byte>, n: nat, f: Byte, count: nat): (r: Read<seq<Byte>>)
    ensures r.Read? ==> |r.value| == n
    decreases n
  {
    if n == 0 then Read([], s)
    else if count > 0 then Prepend(f, Flags(s, n - 1, f, count - 1))
    else if s == [] then RanOut
    else if !Repeats(s[0]) then Prepend(s[0], Flags(s[1..], n - 1, s[0], 0))
    else if |s| < 2 then RanOut
    else Prepend(s[0], Flags(s[2..], n - 1, s[0], s[1]))
  }

  function Prepend<T>(x: T, r: Read<seq<T>>): (q: Read<seq<T>>)
    ensures q.Read? <==> r.Read?
    ensures q.Read? ==> |q.value| == |r.value| + 1
  {
    match r case RanOut => RanOut case Read(xs, rest) => Read([x] + xs, rest)
  }

  /** One coordinate change. */
  function Delta(s: seq<Byte>, axis: Axis, f: Byte): Read<int> {
    if IsShortDelta(axis, f) then
      if s == [] then RanOut else Read(if IsSame(axis, f) then s[0] else -(s[0] as int), s[1..])
    else if IsSame(axis, f) then Read(0, s)
    else if |s| < 2 then RanOut
    else Read(Short((s[0] as int) * 256 + s[1]), s[2..])
  }

  /** The coordinates of the points with flags `fs`, from `at` on. */
  function Coords(s: seq<Byte>, axis: Axis, fs: seq<Byte>, at: int): (r: Read<seq<int>>)
    ensures r.Read? ==> |r.value| == |fs|
    decreases |fs|
  {
    if fs == [] then Read([], s)
    else
      match Delta(s, axis, fs[0])
      case RanOut => RanOut
      case Read(d, rest) => Prepend(Short(at + d), Coords(rest, axis, fs[1..], at + d))
  }

  // Writing the points.  A run is one flag byte for one point and `more` others.

  datatype Run = Run(f: Byte, more: Byte)

  predicate RunOk(run: Run) { !Repeats(run.f) ==> run.more == 0 }

  function PrintRun(run: Run): seq<Byte> { if Repeats(run.f) then [run.f, run.more] else [run.f] }

  function PrintRuns(runs: seq<Run>): seq<Byte> {
    if runs == [] then [] else PrintRun(runs[0]) + PrintRuns(runs[1..])
  }

  function Copies(f: Byte, n: nat): (r: seq<Byte>)
    ensures |r| == n
  {
    if n == 0 then [] else [f] + Copies(f, n - 1)
  }

  /** The flags of all points. */
  function Spread(runs: seq<Run>): seq<Byte> {
    if runs == [] then [] else Copies(runs[0].f, 1 + runs[0].more) + Spread(runs[1..])
  }

  lemma {:induction false} FlagsOfCopies(s: seq<Byte>, m: nat, n: nat, f: Byte)
    requires Flags(s, n, f, 0).Read?
    ensures Flags(s, m + n, f, m) == Read(Copies(f, m) + Flags(s, n, f, 0).value, Flags(s, n, f, 0).rest)
    decreases m
  {
    if m == 0 {
      assert Copies(f, 0) + Flags(s, n, f, 0).value == Flags(s, n, f, 0).value;
    } else {
      FlagsOfCopies(s, m - 1, n, f);
      assert Copies(f, m) + Flags(s, n, f, 0).value == [f] + (Copies(f, m - 1) + Flags(s, n, f, 0).value);
    }
  }

  /** Loading the flags undoes their run-length coding. */
  lemma {:induction false} FlagsRoundTrip(runs: seq<Run>, rest: seq<Byte>, f: Byte)
    requires forall i :: 0 <= i < |runs| ==> RunOk(runs[i])
    ensures Flags(PrintRuns(runs) + rest, |Spread(runs)|, f, 0) == Read(Spread(runs), rest)
    decreases |runs|
  {
    if runs == [] {
      assert PrintRuns(runs) + rest == rest;
    } else {
      hide Flags, PrintRun, Repeats, Copies, Spread, PrintRuns;
      PrintRunsNext(runs, rest);
      var g, m, tail := runs[0].f, runs[0].more, PrintRuns(runs[1..]) + rest;
      assert RunOk(runs[0]);
      FlagsRoundTrip(runs[1..], rest, g);
      FlagsOfCopies(tail, m, |Spread(runs[1..])|, g);
      FlagsOfRun(runs[0], tail, m + |Spread(runs[1..])|, f);
      SpreadNext(runs);
    }
  }

  lemma PrintRunsNext(runs: seq<Run>, rest: seq<Byte>)
    requires runs != []
    ensures PrintRuns(runs) + rest == PrintRun(runs[0]) + (PrintRuns(runs[1..]) + rest)
  {
    hide PrintRun;
  }

  lemma SpreadNext(runs: seq<Run>)
    requires runs != []
    ensures Spread(runs) == [runs[0].f] + (Copies(runs[0].f, runs[0].more) + Spread(runs[1..]))
  {
  }

  lemma FlagsOfRun(run: Run, tail: seq<Byte>, n: nat, f: Byte)
    requires RunOk(run)
    ensures Flags(PrintRun(run) + tail, 1 + n, f, 0) == Prepend(run.f, Flags(tail, n, run.f, run.more))
  {
    var s := PrintRun(run) + tail;
    if Repeats(run.f) {
      assert s[0] == run.f && s[1] == run.more && s[2..] == tail;
    } else {
      assert s[0] == run.f && s[1..] == tail;
    }
  }

  /** A change that a flag byte lets one write. */
  predicate DeltaOk(axis: Axis, f: Byte, d: int) {
    if IsShortDelta(axis, f) then (if IsSame(axis, f) then 0 <= d < 256 else -256 < d <= 0)
    else if IsSame(axis, f) then d == 0 else IsShort(d)
  }

  function PrintDelta(axis: Axis, f: Byte, d: int): seq<Byte> {
    if IsShortDelta(axis, f) then [(if d < 0 then -d else d) % 256]
    else if IsSame(axis, f) then []
    else [(d % 0x1_0000) / 256, d % 256]
  }

  lemma DeltaRoundTrip(axis: Axis, f: Byte, d: int, rest: seq<Byte>)
    requires DeltaOk(axis, f, d)
    ensures Delta(PrintDelta(axis, f, d) + rest, axis, f) == Read(d, rest)
  {
    var s := PrintDelta(axis, f, d) + rest;
    if IsShortDelta(axis, f) {
      assert s[1..] == rest;
    } else if IsSame(axis, f) {
      assert s == rest;
    } else {
      assert s[2..] == rest;
      TwoBytes(d);
    }
  }

  lemma TwoBytes(d: int)
    requires IsShort(d)
    ensures Short((d % 0x1_0000) / 256 * 256 + d % 256) == d
  {
    assert d % 256 == (d % 0x1_0000) % 256;
  }

  predicate DeltasOk(axis: Axis, fs: seq<Byte>, ds: seq<int>) {
    |fs| == |ds| && forall i :: 0 <= i < |fs| ==> DeltaOk(axis, fs[i], ds[i])
  }

  function PrintDeltas(axis: Axis, fs: seq<Byte>, ds: seq<int>): seq<Byte>
    decreases |fs|
  {
    if fs == [] || ds == [] then [] else PrintDelta(axis, fs[0], ds[0]) + PrintDeltas(axis, fs[1..], ds[1..])
  }

  /** The running sums of the changes, as they are stored. */
  function Sums(at: int, ds: seq<int>): (r: seq<int>)
    ensures |r| == |ds|
    decreases |ds|
  {
    if ds == [] then [] else [Short(at + ds[0])] + Sums(at + ds[0], ds[1..])
  }

  /** Loading coordinates undoes their coding as changes. */
  lemma {:induction false} CoordsRoundTrip(axis: Axis, fs: seq<Byte>, ds: seq<int>, at: int, rest: seq<Byte>)
    requires DeltasOk(axis, fs, ds)
    ensures Coords(PrintDeltas(axis, fs, ds) + rest, axis, fs, at) == Read(Sums(at, ds), rest)
    decreases |fs|
  {
    if fs == [] {
      assert PrintDeltas(axis, fs, ds) + rest == rest;
    } else {
      hide Delta, PrintDelta, DeltaOk, Short, Coords, PrintDeltas;
      DeltasTail(axis, fs, ds);
      PrintDeltasNext(axis, fs, ds, rest);
      var tail := PrintDeltas(axis, fs[1..], ds[1..]) + rest;
      DeltaRoundTrip(axis, fs[0], ds[0], tail);
      CoordsNext(PrintDeltas(axis, fs, ds) + rest, axis, fs, at);
      CoordsRoundTrip(axis, fs[1..], ds[1..], at + ds[0], rest);
    }
  }

  lemma DeltasTail(axis: Axis, fs: seq<Byte>, ds: seq<int>)
    requires DeltasOk(axis, fs, ds) && fs != []
    ensures DeltaOk(axis, fs[0], ds[0]) && DeltasOk(axis, fs[1..], ds[1..])
  {
    hide DeltaOk;
  }

  lemma PrintDeltasNext(axis: Axis, fs: seq<Byte>, ds: seq<int>, rest: seq<Byte>)
    requires fs != [] && ds != []
    ensures PrintDeltas(axis, fs, ds) + rest == PrintDelta(axis, fs[0], ds[0]) + (PrintDeltas(axis, fs[1..], ds[1..]) + rest)
  {
    hide PrintDelta;
  }

  lemma CoordsNext(s: seq<Byte>, axis: Axis, fs: seq<Byte>, at: int)
    requires fs != [] && Delta(s, axis, fs[0]).Read?
    ensures var d := Delta(s, axis, fs[0]);
            Coords(s, axis, fs, at) == Prepend(Short(at + d.value), Coords(d.rest, axis, fs[1..], at + d.value))
  {
    hide Delta, Short;
  }

  // The three passes.

  /** One more value read. */
  ghost predicate Halfway<T(!new)>(goal: Read<seq<T>>, i: nat, left: Read<seq<T>>) {
    goal.Read? && left.Read? && i <= |goal.value| && goal.value[i..] == left.value && goal.rest == left.rest
  }

  lemma HalfwayNext<T(!new)>(goal: Read<seq<T>>, i: nat, x: T, left: Read<seq<T>>)
    requires Halfway(goal, i, Prepend(x, left))
    ensures i < |goal.value| && goal.value[i] == x && Halfway(goal, i + 1, left)
  {
    assert goal.value[i..][0] == x;
    assert goal.value[i + 1..] == goal.value[i..][1..];
  }

  /** One turn of the first pass. */
  method NextFlags(s: seq<Byte>, p: nat, f: Byte, count: nat, ghost n: nat) returns (f': Byte, count': nat, p': nat)
    requires p <= |s| && n > 0 && Flags(s[p..], n, f, count).Read?
    ensures p <= p' <= |s| && Flags(s[p..], n, f, count) == Prepend(f', Flags(s[p'..], n - 1, f', count'))
  {
    f', count', p' := f, count, p;
    if count' == 0 {
      f' := s[p'];
      p' := p' + 1;
      if Repeats(f') {
        count' := s[p'];
        p' := p' + 1;
        assert s[p..][2..] == s[p'..];
      } else {
        assert s[p..][1..] == s[p'..];
      }
    } else {
      count' := count' - 1;
    }
  }

  method LoadFlags(v: array<Vertex>, off: nat, n: nat, s: seq<Byte>, start: nat) returns (p: nat)
    requires off + n <= v.Length && start <= |s| && Flags(s[start..], n, 0, 0).Read?
    modifies v
    ensures start <= p <= |s| && s[p..] == Flags(s[start..], n, 0, 0).rest
    ensures forall k :: 0 <= k < n ==> v[off + k] == old(v[off + k]).(tag := Flags(s[start..], n, 0, 0).value[k])
    ensures forall k :: 0 <= k < v.Length && !(off <= k < off + n) ==> v[k] == old(v[k])
  {
    hide Flags;
    ghost var goal := Flags(s[start..], n, 0, 0);
    p := start;
    var flags: Byte, flagcount: nat, i := 0, 0, 0;
    while i < n
      invariant 0 <= i <= n && start <= p <= |s| && Halfway(goal, i, Flags(s[p..], n - i, flags, flagcount))
      invariant forall k :: 0 <= k < i ==> v[off + k] == old(v[off + k]).(tag := goal.value[k])
      invariant forall k :: 0 <= k < v.Length && !(off <= k < off + i) ==> v[k] == old(v[k])
    {
      flags, flagcount, p := NextFlags(s, p, flags, flagcount, n - i);
      HalfwayNext(goal, i, flags, Flags(s[p..], n - i - 1, flags, flagcount));
      v[off + i] := v[off + i].(tag := flags);
      i := i + 1;
    }
    FlagsEnd(s[p..], flags, flagcount);
  }

  lemma FlagsEnd(s: seq<Byte>, f: Byte, count: nat)
    ensures Flags(s, 0, f, count) == Read([], s)
  {
  }

  /** One change, read at position `p`. */
  method ReadDelta(s: seq<Byte>, p: nat, axis: Axis, f: Byte) returns (d: int, p': nat)
    requires p <= |s| && Delta(s[p..], axis, f).Read?
    ensures p <= p' <= |s| && Delta(s[p..], axis, f) == Read(d, s[p'..])
  {
    if IsShortDelta(axis, f) {
      d := if IsSame(axis, f) then s[p] else -(s[p] as int);
      p' := p + 1;
    } else if IsSame(axis, f) {
      d, p' := 0, p;
    } else {
      d := Short((s[p] as int) * 256 + s[p + 1]);
      p' := p + 2;
    }
  }

  function WithCoord(v: Vertex, axis: Axis, c: int): Vertex {
    match axis case X => v.(x := c) case Y => v.(y := c)
  }

  /** The second and the third pass, which find the flags in the array. */
  method LoadCoords(v: array<Vertex>, off: nat, n: nat, ghost fs: seq<Byte>, axis: Axis, s: seq<Byte>, start: nat)
    returns (p: nat)
    requires |fs| == n && off + n <= v.Length && start <= |s| && Coords(s[start..], axis, fs, 0).Read?
    requires forall k :: 0 <= k < |fs| ==> v[off + k].tag == fs[k]
    modifies v
    ensures start <= p <= |s| && s[p..] == Coords(s[start..], axis, fs, 0).rest
    ensures forall k :: 0 <= k < |fs| ==>
      v[off + k] == WithCoord(old(v[off + k]), axis, Coords(s[start..], axis, fs, 0).value[k])
    ensures forall k :: 0 <= k < n ==> v[off + k].tag == fs[k]
    ensures forall k :: 0 <= k < v.Length && !(off <= k < off + |fs|) ==> v[k] == old(v[k])
  {
    hide Delta, Short;
    ghost var goal := Coords(s[start..], axis, fs, 0);
    assert fs[0..] == fs;
    hide Coords;
    p := start;
    var at, i := 0, 0;
    while i < n
      invariant 0 <= i <= n && start <= p <= |s| && Halfway(goal, i, Coords(s[p..], axis, fs[i..], at))
      invariant forall k :: 0 <= k < i ==> v[off + k] == WithCoord(old(v[off + k]), axis, goal.value[k])
      invariant forall k :: 0 <= k < n ==> v[off + k].tag == fs[k]
      invariant forall k :: 0 <= k < v.Length && !(off <= k < off + i) ==> v[k] == old(v[k])
    {
      CoordsAt(s[p..], axis, fs, i, at);
      var flags: Byte := v[off + i].tag;
      var d, p' := ReadDelta(s, p, axis, flags);
      HalfwayNext(goal, i, Short(at + d), Coords(s[p'..], axis, fs[i + 1..], at + d));
      at, p := at + d, p';
      v[off + i] := WithCoord(v[off + i], axis, Short(at));
      i := i + 1;
    }
    CoordsEnd(s[p..], axis, fs[i..], at);
  }

  lemma CoordsAt(s: seq<Byte>, axis: Axis, fs: seq<Byte>, i: nat, at: int)
    requires i < |fs| && Coords(s, axis, fs[i..], at).Read?
    ensures Delta(s, axis, fs[i]).Read?
    ensures var d := Delta(s, axis, fs[i]);
            Coords(s, axis, fs[i..], at) == Prepend(Short(at + d.value), Coords(d.rest, axis, fs[i + 1..], at + d.value))
  {
    hide Delta, Short;
    assert fs[i..][0] == fs[i] && fs[i..][1..] == fs[i + 1..];
  }

  lemma CoordsEnd(s: seq<Byte>, axis: Axis, fs: seq<Byte>, at: int)
    requires fs == []
    ensures Coords(s, axis, fs, at) == Read([], s)
  {
  }

  // From bytes to the outline.

  function MakePoints(fs: seq<Byte>, xs: seq<int>, ys: seq<int>): (pts: seq<Point>)
    requires |fs| == |xs| == |ys|
    ensures |pts| == |fs|
  {
    seq(|fs|, k requires 0 <= k < |fs| => Point(OnCurve(fs[k]), xs[k], ys[k]))
  }

  /** The points that the bytes of a glyph stand for. */
  function Points(s: seq<Byte>, n: nat): (r: Read<seq<Point>>)
    ensures r.Read? ==> |r.value| == n
  {
    match Flags(s, n, 0, 0)
    case RanOut => RanOut
    case Read(fs, rest) =>
      match Coords(rest, X, fs, 0)
      case RanOut => RanOut
      case Read(xs, rest') =>
        match Coords(rest', Y, fs, 0)
        case RanOut => RanOut
        case Read(ys, rest'') => Read(MakePoints(fs, xs, ys), rest'')
  }

  /** The bytes of a glyph whose flags are coded as `runs`, with the changes `dxs` and `dys`. */
  function PrintGlyph(runs: seq<Run>, dxs: seq<int>, dys: seq<int>): seq<Byte> {
    PrintRuns(runs) + (PrintDeltas(X, Spread(runs), dxs) + PrintDeltas(Y, Spread(runs), dys))
  }

  /** Whatever legal coding of flags and coordinates was used, the bytes give the points back. */
  lemma PointsRoundTrip(runs: seq<Run>, dxs: seq<int>, dys: seq<int>, rest: seq<Byte>)
    requires forall i :: 0 <= i < |runs| ==> RunOk(runs[i])
    requires DeltasOk(X, Spread(runs), dxs) && DeltasOk(Y, Spread(runs), dys)
    ensures Points(PrintGlyph(runs, dxs, dys) + rest, |Spread(runs)|) ==
      Read(MakePoints(Spread(runs), Sums(0, dxs), Sums(0, dys)), rest)
  {
    hide Flags, Coords, PrintRuns, PrintDeltas, DeltasOk, Spread, Sums, MakePoints;
    var fs := Spread(runs);
    var a, b, c := PrintRuns(runs), PrintDeltas(X, fs, dxs), PrintDeltas(Y, fs, dys);
    assert a + (b + c) + rest == a + (b + (c + rest));
    FlagsRoundTrip(runs, b + (c + rest), 0);
    CoordsRoundTrip(X, fs, dxs, 0, c + rest);
    CoordsRoundTrip(Y, fs, dys, 0, rest);
  }

  /** Changes that lead through given coordinates. */
  function Changes(at: int, ts: seq<int>): (ds: seq<int>)
    ensures |ds| == |ts| && forall i :: 0 <= i < |ds| ==> IsShort(ds[i])
    decreases |ts|
  {
    if ts == [] then [] else [Short(ts[0] - at)] + Changes(at + Short(ts[0] - at), ts[1..])
  }

  lemma ShortOfSum(at: int, t: int)
    requires IsShort(t)
    ensures Short(at + Short(t - at)) == t
  {
  }

  /** Any 16-bit coordinates can be written as changes. */
  lemma {:induction false} SumsOfChanges(at: int, ts: seq<int>)
    requires forall i :: 0 <= i < |ts| ==> IsShort(ts[i])
    ensures Sums(at, Changes(at, ts)) == ts
    decreases |ts|
  {
    hide Short, IsShort;
    if ts != [] {
      ShortOfSum(at, ts[0]);
      SumsOfChanges(at + Short(ts[0] - at), ts[1..]);
      assert Changes(at, ts)[1..] == Changes(at + Short(ts[0] - at), ts[1..]);
    }
  }

  /** One flag byte for each point: only whether the point is on the curve, so both changes are words. */
  function PlainRuns(pts: seq<Point>): (runs: seq<Run>)
    ensures |runs| == |pts| && forall i :: 0 <= i < |runs| ==> RunOk(runs[i])
    decreases |pts|
  {
    if pts == [] then [] else [Run(if pts[0].on then 1 else 0, 0)] + PlainRuns(pts[1..])
  }

  lemma {:induction false} SpreadPlain(pts: seq<Point>)
    ensures var fs := Spread(PlainRuns(pts));
      |fs| == |pts| && forall i :: 0 <= i < |fs| ==> fs[i] == if pts[i].on then 1 else 0
    decreases |pts|
  {
    if pts != [] {
      hide Spread;
      SpreadPlain(pts[1..]);
      SpreadNext(PlainRuns(pts));
      assert PlainRuns(pts)[1..] == PlainRuns(pts[1..]);
    }
  }

  function Along(axis: Axis, pts: seq<Point>): (ts: seq<int>)
    ensures |ts| == |pts|
  {
    seq(|pts|, i requires 0 <= i < |pts| => if axis.X? then pts[i].x else pts[i].y)
  }

  /** A coding of any list of points. */
  function Encode(pts: seq<Point>): seq<Byte> {
    PrintGlyph(PlainRuns(pts), Changes(0, Along(X, pts)), Changes(0, Along(Y, pts)))
  }

  lemma ChangesOk(axis: Axis, pts: seq<Point>)
    ensures DeltasOk(axis, Spread(PlainRuns(pts)), Changes(0, Along(axis, pts)))
  {
    hide Spread, PlainRuns, Changes;
    SpreadPlain(pts);
  }

  /** Every list of points with 16-bit coordinates has a coding that loads it back. */
  lemma EncodeRoundTrip(pts: seq<Point>, rest: seq<Byte>)
    requires forall k :: 0 <= k < |pts| ==> Small(pts[k])
    ensures Points(Encode(pts) + rest, |pts|) == Read(pts, rest)
  {
    hide Points, Spread, PlainRuns, Changes, DeltasOk, Sums, PrintGlyph;
    ChangesOk(X, pts);
    ChangesOk(Y, pts);
    SpreadPlain(pts);
    SumsOfChanges(0, Along(X, pts));
    SumsOfChanges(0, Along(Y, pts));
    PointsRoundTrip(PlainRuns(pts), Changes(0, Along(X, pts)), Changes(0, Along(Y, pts)), rest);
    assert MakePoints(Spread(PlainRuns(pts)), Along(X, pts), Along(Y, pts)) == pts;
  }

  /** The whole decoder: the vertices are the outline of the points that the bytes stand for. */
  method GetGlyphShape(s: seq<Byte>, ends: seq<nat>) returns (vertices: seq<Vertex>)
    requires |ends| > 0 && Points(s, FirstOf(ends, |ends|)).Read?
    requires WellFormed(Points(s, FirstOf(ends, |ends|)).value, ends)
    ensures vertices == Outline(Points(s, FirstOf(ends, |ends|)).value, ends, |ends|)
  {
    hide Flags, Coords, WellFormed, Outline;
    var n := FirstOf(ends, |ends|);
    var off := 2 * |ends|;
    ghost var pts := Points(s, n).value;
    ghost var fs := Flags(s, n, 0, 0).value;
    assert s[0..] == s;
    var v := new Vertex[off + n](_ => Vertex(0, 0, 0, 0, 0));
    var p := LoadFlags(v, off, n, s, 0);
    p := LoadCoords(v, off, n, fs, X, s, p);
    p := LoadCoords(v, off, n, fs, Y, s, p);
    forall k | 0 <= k < n ensures ToPoint(v[off + k]) == pts[k] {
    }
    var num := Convert(v, ends, pts);
    vertices := v[..num];
  }

  /** Any glyph whose points make well-formed contours is decoded to its outline from any coding of it. */
  method DecodePrinted(runs: seq<Run>, dxs: seq<int>, dys: seq<int>, rest: seq<Byte>, ends: seq<nat>)
    returns (vertices: seq<Vertex>)
    requires forall i :: 0 <= i < |runs| ==> RunOk(runs[i])
    requires DeltasOk(X, Spread(runs), dxs) && DeltasOk(Y, Spread(runs), dys)
    requires WellFormed(MakePoints(Spread(runs), Sums(0, dxs), Sums(0, dys)), ends)
    ensures vertices == Outline(MakePoints(Spread(runs), Sums(0, dxs), Sums(0, dys)), ends, |ends|)
  {
    hide Points, MakePoints, PrintGlyph, Outline, DeltasOk;
    PointsRoundTrip(runs, dxs, dys, rest);
    vertices := GetGlyphShape(PrintGlyph(runs, dxs, dys) + rest, ends);
  }

  /** Every well-formed list of points has bytes from which the decoder draws its outline. */
  method EncodeAndDecode(pts: seq<Point>, rest: seq<Byte>, ends: seq<nat>) returns (vertices: seq<Vertex>)
    requires WellFormed(pts, ends)
    ensures vertices == Outline(pts, ends, |ends|)
  {
    hide Points, Encode, Outline;
    EncodeRoundTrip(pts, rest);
    vertices := GetGlyphShape(Encode(pts) + rest, ends);
  }
}
