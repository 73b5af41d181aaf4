/**
  The shelf packer that places glyph boxes in a font texture: over any number of calls, the boxes that were
  placed never overlap, and after the padding is taken off they keep their distance from each other and
  from the edge of the texture.
 */
module RectPack {
  datatype Rect = Rect(id: int, w: nat, h: nat, x: int, y: int, packed: bool)
  {
    predicate Covers(px: int, py: int) {
      x <= px < x + w && y <= py < y + h
    }
  }

  /** One box is wholly to one side of the other. */
  predicate Apart(a: Rect, b: Rect) {
    a.x + a.w <= b.x || b.x + b.w <= a.x || a.y + a.h <= b.y || b.y + b.h <= a.y
  }

  predicate PairwiseApart(s: seq<Rect>) {
    forall i, j :: 0 <= i < j < |s| ==> Apart(s[i], s[j])
  }

  /** Boxes with area are apart exactly when no pixel is in both. */
  lemma ApartIsDisjoint(a: Rect, b: Rect)
    ensures Apart(a, b) ==> forall px, py :: !(a.Covers(px, py) && b.Covers(px, py))
    ensures a.w > 0 && a.h > 0 && b.w > 0 && b.h > 0 && !Apart(a, b) ==>
      exists px, py :: a.Covers(px, py) && b.Covers(px, py)
  {
    var px, py := if a.x > b.x then a.x else b.x, if a.y > b.y then a.y else b.y;
    if a.w > 0 && a.h > 0 && b.w > 0 && b.h > 0 && !Apart(a, b) {
      assert a.Covers(px, py) && b.Covers(px, py);
    }
  }

  /** Inside a target of the given size. */
  predicate Inside(r: Rect, width: int, height: int) {
    0 <= r.x && r.x + r.w <= width && 0 <= r.y && r.y + r.h <= height
  }

  /** A box that was placed earlier is above the current shelf, or on it and to the left of the pen. */
  predicate Behind(r: Rect, x: int, y: int, bottomY: int) {
    r.y + r.h <= bottomY && (r.y + r.h <= y || r.x + r.w <= x)
  }

  predicate AllBehind(s: seq<Rect>, x: int, y: int, bottomY: int) {
    forall i :: 0 <= i < |s| ==> Behind(s[i], x, y, bottomY)
  }

  /** Every box is inside the target, unless it was too wide for any shelf. */
  predicate AllInside(s: seq<Rect>, width: int, height: int) {
    forall i :: 0 <= i < |s| ==> (Inside(s[i], width, height) <==> s[i].w <= width)
  }

  /** The lowest edge of all boxes, or the top of the target when there is none. */
  ghost predicate Lowest(s: seq<Rect>, bottomY: int) {
    bottomY == 0 || exists i :: 0 <= i < |s| && s[i].y + s[i].h == bottomY
  }

  class Context {
    const width: int
    const height: int
    var x: int
    var y: int
    var bottomY: int

    /** Every box placed so far, in order, over all calls. */
    ghost var placed: seq<Rect>

    ghost predicate Valid()
      reads this
    {
      && 0 <= x && 0 <= y <= bottomY && Lowest(placed, bottomY)
      && AllBehind(placed, x, y, bottomY) && PairwiseApart(placed) && AllInside(placed, width, height)
    }

    constructor (pw: int, ph: int)
      ensures Valid() && placed == [] && width == pw && height == ph
    {
      width, height := pw, ph;
      x, y, bottomY, placed := 0, 0, 0, [];
    }

    /** A new shelf, below everything, when the box would stick out on the right. */
    method ChooseShelf(w: nat)
      requires Valid()
      modifies this
      ensures Valid() && placed == old(placed)
      ensures x + w <= width || x == 0
      ensures bottomY == old(bottomY) && (x, y) == if old(x) + w > width then (0, old(bottomY)) else (old(x), old(y))
    {
      if x + w > width {
        x := 0;
        y := bottomY;
      }
    }

    /** The pen moves past the new box. */
    method Advance(r: Rect)
      requires Valid() && r.x == x && r.y == y && y + r.h <= height && (x + r.w <= width || x == 0)
      modifies this
      ensures Valid() && placed == old(placed) + [r]
      ensures x == old(x) + r.w && y == old(y)
    {
      assert forall i :: 0 <= i < |placed| ==> Behind(placed[i], x, y, bottomY);
      ghost var before := placed;
      placed := placed + [r];
      assert placed[|before|] == r && forall i :: 0 <= i < |before| ==> placed[i] == before[i];
      x := x + r.w;
      if y + r.h > bottomY {
        bottomY := y + r.h;
      }
    }

    /**
      A call places boxes in order until one does not fit on a new shelf, and marks that one and the rest
      as not placed.
     */
    method PackRects(rects: array<Rect>) returns (n: nat)
      requires Valid()
      modifies this, rects
      ensures Valid() && n <= rects.Length && placed == old(placed) + rects[..n]
      ensures forall i :: 0 <= i < rects.Length ==>
        rects[i] == (if i < n then old(rects[i]).(x := rects[i].x, y := rects[i].y, packed := true) else old(rects[i]).(packed := false))
      ensures n < rects.Length ==> y + rects[n].h > height && (x == 0 || x + rects[n].w <= width)
      ensures y >= old(y)
    {
      hide AllBehind, PairwiseApart, AllInside, Lowest;
      var i := 0;
      while i < rects.Length
        invariant 0 <= i <= rects.Length && Valid() && placed == old(placed) + rects[..i] && y >= old(y)
        invariant forall k :: i <= k < rects.Length ==> rects[k] == old(rects[k])
        invariant forall k :: 0 <= k < i ==>
          rects[k] == old(rects[k]).(x := rects[k].x, y := rects[k].y, packed := true)
      {
        ChooseShelf(rects[i].w);
        if y + rects[i].h > height { break; }
        rects[i] := rects[i].(x := x, y := y, packed := true);
        Advance(rects[i]);
        i := i + 1;
      }
      n := i;
      MarkRest(rects, n);
    }
  }

  method MarkRest(rects: array<Rect>, n: nat)
    requires n <= rects.Length
    modifies rects
    ensures forall k :: 0 <= k < n ==> rects[k] == old(rects[k])
    ensures forall k :: n <= k < rects.Length ==> rects[k] == old(rects[k]).(packed := false)
  {
    var i := n;
    while i < rects.Length
      invariant n <= i <= rects.Length
      invariant forall k :: 0 <= k < n ==> rects[k] == old(rects[k])
      invariant forall k :: n <= k < i ==> rects[k] == old(rects[k]).(packed := false)
      invariant forall k :: i <= k < rects.Length ==> rects[k] == old(rects[k])
    {
      rects[i] := rects[i].(packed := false);
      i := i + 1;
    }
  }

  // Padding.  The target is smaller than the texture by `pad`; each box is larger than its glyph by `pad`,
  // which is taken off again on the left and at the top before the glyph is drawn.

  function Drawn(r: Rect, pad: nat): Rect
    requires pad <= r.w && pad <= r.h
  {
    r.(x := r.x + pad, y := r.y + pad, w := r.w - pad, h := r.h - pad)
  }

  /** One box is at least `gap` away from the other, across or down. */
  predicate Clear(a: Rect, b: Rect, gap: nat) {
    a.x + a.w + gap <= b.x || b.x + b.w + gap <= a.x || a.y + a.h + gap <= b.y || b.y + b.h + gap <= a.y
  }

  /** Every box that is not too wide is drawn at least `pad` away from the four edges of the texture. */
  lemma EdgesKept(con: Context, textureWidth: int, textureHeight: int, pad: nat, i: nat)
    requires con.Valid() && con.width == textureWidth - pad && con.height == textureHeight - pad
    requires i < |con.placed| && pad <= con.placed[i].w <= con.width && pad <= con.placed[i].h
    ensures var a := Drawn(con.placed[i], pad);
            pad <= a.x && a.x + a.w <= textureWidth - pad && pad <= a.y && a.y + a.h <= textureHeight - pad
  {
    assert Inside(con.placed[i], con.width, con.height);
  }

  /** Any two are drawn at least `pad` apart. */
  lemma PaddingKept(con: Context, pad: nat, i: nat, j: nat)
    requires con.Valid() && i < |con.placed| && j < |con.placed| && i != j
    requires pad <= con.placed[i].w && pad <= con.placed[i].h && pad <= con.placed[j].w && pad <= con.placed[j].h
    ensures Clear(Drawn(con.placed[i], pad), Drawn(con.placed[j], pad), pad)
  {
    assert Apart(con.placed[if i < j then i else j], con.placed[if i < j then j else i]);
  }

  // Several calls.

  function Flatten(parts: seq<seq<Rect>>): seq<Rect> {
    if parts == [] then [] else Flatten(parts[..|parts| - 1]) + parts[|parts| - 1]
  }

  /** Where part `k` starts in the whole. */
  function StartOf(parts: seq<seq<Rect>>, k: nat): nat
    requires k <= |parts|
  {
    if k == 0 then 0 else StartOf(parts, k - 1) + |parts[k - 1]|
  }

  lemma {:induction false} StartOfPrefix(parts: seq<seq<Rect>>, n: nat, k: nat)
    requires k <= n <= |parts|
    ensures StartOf(parts[..n], k) == StartOf(parts, k)
    decreases k
  {
    if k != 0 { StartOfPrefix(parts, n, k - 1); }
  }

  lemma {:induction false} StartsInOrder(parts: seq<seq<Rect>>, k: nat, l: nat)
    requires k < l <= |parts|
    ensures StartOf(parts, k) + |parts[k]| <= StartOf(parts, l)
    decreases l
  {
    if k < l - 1 { StartsInOrder(parts, k, l - 1); }
  }

  lemma {:induction false} FlattenAt(parts: seq<seq<Rect>>, k: nat, i: nat)
    requires k < |parts| && i < |parts[k]|
    ensures StartOf(parts, |parts|) == |Flatten(parts)|
    ensures StartOf(parts, k) + i < |Flatten(parts)| && Flatten(parts)[StartOf(parts, k) + i] == parts[k][i]
  {
    var n := |parts| - 1;
    var front := parts[..n];
    FlattenLength(front);
    StartOfPrefix(parts, n, n);
    FlattenLength(parts);
    if k < n {
      StartOfPrefix(parts, n, k);
      FlattenAt(front, k, i);
    }
  }

  lemma {:induction false} FlattenLength(parts: seq<seq<Rect>>)
    ensures StartOf(parts, |parts|) == |Flatten(parts)|
  {
    if parts != [] {
      FlattenLength(parts[..|parts| - 1]);
      StartOfPrefix(parts, |parts| - 1, |parts| - 1);
    }
  }

  /** Two boxes of different calls, or two of one call, are apart. */
  lemma PartsApart(parts: seq<seq<Rect>>, k: nat, i: nat, l: nat, j: nat)
    requires PairwiseApart(Flatten(parts)) && k < |parts| && i < |parts[k]| && l < |parts| && j < |parts[l]|
    requires k < l || (k == l && i < j)
    ensures Apart(parts[k][i], parts[l][j])
  {
    hide Flatten, StartOf, Apart;
    FlattenAt(parts, k, i);
    FlattenAt(parts, l, j);
    if k < l { StartsInOrder(parts, k, l); }
  }

  /** A call placed the first `n` boxes that it was given, and marked the others. */
  predicate Answers(was: seq<Rect>, now: seq<Rect>, n: nat) {
    && |now| == |was| && n <= |was|
    && forall i :: 0 <= i < |was| ==>
      now[i] == if i < n then was[i].(x := now[i].x, y := now[i].y, packed := true) else was[i].(packed := false)
  }

  /** The first box that was not placed would reach below the target on the last shelf. */
  predicate Refused(was: seq<Rect>, n: nat, y: int, height: int) {
    n < |was| ==> y + was[n].h > height
  }

  /** What a target holds after calls that were given `was` and left `now`. */
  ghost predicate Packed(con: Context, was: seq<seq<Rect>>, now: seq<seq<Rect>>, counts: seq<nat>)
    reads con
  {
    && con.Valid() && |counts| == |now| == |was|
    && (forall k :: 0 <= k < |counts| ==> Answers(was[k], now[k], counts[k]) && Refused(was[k], counts[k], con.y, con.height))
    && con.placed == Flatten(Fronts(now, counts))
  }

  /** The boxes placed by each call. */
  function Fronts(now: seq<seq<Rect>>, counts: seq<nat>): (r: seq<seq<Rect>>)
    ensures |r| == |now|
    ensures forall k :: 0 <= k < |now| && k < |counts| && counts[k] <= |now[k]| ==> r[k] == now[k][..counts[k]]
  {
    seq(|now|, k requires 0 <= k < |now| => if k < |counts| && counts[k] <= |now[k]| then now[k][..counts[k]] else [])
  }

  /** Each box that a call placed is one of those on the target, where it is inside if and only if it is no wider. */
  lemma PackedInside(con: Context, was: seq<seq<Rect>>, now: seq<seq<Rect>>, counts: seq<nat>, k: nat, i: nat)
    requires Packed(con, was, now, counts) && k < |now| && i < counts[k]
    ensures i < |now[k]| && now[k][i] in con.placed
    ensures Inside(now[k][i], con.width, con.height) <==> was[k][i].w <= con.width
  {
    assert Answers(was[k], now[k], counts[k]);
    hide Flatten;
    var parts := Fronts(now, counts);
    assert parts[k] == now[k][..counts[k]] && parts[k][i] == now[k][i];
    FlattenAt(parts, k, i);
  }

  /** No pixel is in two of all the boxes that any of the calls placed. */
  lemma PackedDisjoint(con: Context, was: seq<seq<Rect>>, now: seq<seq<Rect>>, counts: seq<nat>, k: nat, i: nat, l: nat, j: nat)
    requires Packed(con, was, now, counts) && k < |now| && i < counts[k] && l < |now| && j < counts[l] && (k, i) != (l, j)
    ensures i < |now[k]| && j < |now[l]|
    ensures forall px, py :: !(now[k][i].Covers(px, py) && now[l][j].Covers(px, py))
  {
    assert Answers(was[k], now[k], counts[k]) && Answers(was[l], now[l], counts[l]);
    hide Flatten;
    var parts := Fronts(now, counts);
    assert parts[k] == now[k][..counts[k]] && parts[l] == now[l][..counts[l]];
    assert parts[k][i] == now[k][i] && parts[l][j] == now[l][j];
    if k < l || (k == l && i < j) { PartsApart(parts, k, i, l, j); } else { PartsApart(parts, l, j, k, i); }
    ApartIsDisjoint(now[k][i], now[l][j]);
  }

  ghost function Contents(calls: seq<array<Rect>>): (r: seq<seq<Rect>>)
    reads calls
    ensures |r| == |calls| && forall k :: 0 <= k < |calls| ==> r[k] == calls[k][..]
  {
    seq(|calls|, k requires 0 <= k < |calls| reads calls => calls[k][..])
  }

  /** Any number of calls on one target. */
  method PackCalls(pw: int, ph: int, calls: seq<array<Rect>>) returns (con: Context, counts: seq<nat>)
    requires forall k, l :: 0 <= k < l < |calls| ==> calls[k] != calls[l]
    modifies calls
    ensures fresh(con) && con.width == pw && con.height == ph
    ensures Packed(con, old(Contents(calls)), Contents(calls), counts)
  {
    hide Answers, Flatten;
    con := new Context(pw, ph);
    counts := [];
    ghost var was, parts := Contents(calls), [];
    NothingFlat();
    for n := 0 to |calls|
      invariant fresh(con) && con.Valid() && con.width == pw && con.height == ph
      invariant |counts| == |parts| == n && con.placed == Flatten(parts)
      invariant forall k :: 0 <= k < n ==> Answers(was[k], calls[k][..], counts[k])
      invariant forall k :: 0 <= k < n ==> Refused(was[k], counts[k], con.y, con.height)
      invariant forall k :: 0 <= k < n ==> counts[k] <= calls[k].Length && parts[k] == calls[k][..counts[k]]
      invariant forall k :: n <= k < |calls| ==> calls[k][..] == was[k]
    {
      var c := PackCall(con, calls[n]);
      FlatMore(parts, calls[n][..c]);
      counts := counts + [c];
      parts := parts + [calls[n][..c]];
    }
    assert Fronts(Contents(calls), counts) == parts;
  }

  method PackCall(con: Context, rects: array<Rect>) returns (c: nat)
    requires con.Valid()
    modifies con, rects
    ensures con.Valid() && c <= rects.Length && con.placed == old(con.placed) + rects[..c]
    ensures Answers(old(rects[..]), rects[..], c)
    ensures con.y >= old(con.y) && Refused(old(rects[..]), c, con.y, con.height)
  {
    c := con.PackRects(rects);
  }

  lemma NothingFlat()
    ensures Flatten([]) == []
  {
  }

  lemma FlatMore(parts: seq<seq<Rect>>, part: seq<Rect>)
    ensures Flatten(parts + [part]) == Flatten(parts) + part
  {
    assert (parts + [part])[..|parts|] == parts;
  }
}
