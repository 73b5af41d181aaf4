/**
  The edge sort of the glyph rasterizer: a quicksort that stops at short runs, with unguarded
  partition scans, followed by an insertion sort.  `p + i` with a length is the segment [lo, hi)
  of one array.  Edge keys are reals, so every two of them compare.
 */
module EdgeSort {
  import opened Common

  datatype Edge = Edge(x0: real, y0: real, x1: real, y1: real, invert: int)

  predicate Less(a: Edge, b: Edge) {
    a.y0 < b.y0
  }

  /** No edge of the second collection belongs before an edge of the first. */
  ghost predicate Below(s: multiset<Edge>, t: multiset<Edge>) {
    forall a, b :: a in s && b in t ==> !Less(b, a)
  }

  ghost predicate SortedTo(s: seq<Edge>, n: nat)
    requires n <= |s|
  {
    forall i, j :: 0 <= i < j < n ==> !Less(s[j], s[i])
  }

  ghost predicate Sorted(s: seq<Edge>) {
    SortedTo(s, |s|)
  }

  /** `t` is `s` with the segment [lo, hi) rearranged. */
  ghost predicate Shuffled(s: seq<Edge>, t: seq<Edge>, lo: nat, hi: nat)
    requires lo <= hi <= |s|
  {
    && |t| == |s| && t[..lo] == s[..lo] && t[hi..] == s[hi..]
    && multiset(t[lo..hi]) == multiset(s[lo..hi])
  }

  lemma ShuffledTrans(s: seq<Edge>, t: seq<Edge>, u: seq<Edge>, lo: nat, hi: nat)
    requires lo <= hi <= |s| && Shuffled(s, t, lo, hi) && Shuffled(t, u, lo, hi)
    ensures Shuffled(s, u, lo, hi)
  {
  }

  lemma ShuffledWiden(s: seq<Edge>, t: seq<Edge>, lo: nat, a: nat, b: nat, hi: nat)
    requires lo <= a <= b <= hi <= |s| && Shuffled(s, t, a, b)
    ensures Shuffled(s, t, lo, hi)
  {
    assert t[..lo] == t[..a][..lo] && s[..lo] == s[..a][..lo];
    assert t[hi..] == t[b..][hi - b..] && s[hi..] == s[b..][hi - b..];
    assert t[lo..a] == t[..a][lo..] && s[lo..a] == s[..a][lo..];
    assert t[b..hi] == t[b..][..hi - b] && s[b..hi] == s[b..][..hi - b];
    assert t[lo..hi] == t[lo..a] + t[a..b] + t[b..hi];
    assert s[lo..hi] == s[lo..a] + s[a..b] + s[b..hi];
  }

  lemma ShuffledSwap(s: seq<Edge>, i: nat, j: nat, lo: nat, hi: nat)
    requires lo <= i < hi && lo <= j < hi && hi <= |s|
    ensures Shuffled(s, s[i := s[j]][j := s[i]], lo, hi)
  {
    var t := s[i := s[j]][j := s[i]];
    var u := s[lo..hi];
    var v: seq<Edge> := u[i - lo := u[j - lo]][j - lo := u[i - lo]];
    assert t[lo..hi] == v;
    assert multiset(v) == multiset(u);
  }

  lemma ShuffledSame(s: seq<Edge>, lo: nat, hi: nat)
    requires lo <= hi <= |s|
    ensures Shuffled(s, s, lo, hi)
  {
  }

  // ----- insertion sort

  method InsertionSort(p: array<Edge>)
    modifies p
    ensures Sorted(p[..]) && multiset(p[..]) == multiset(old(p[..]))
  {
    hide SortedTo;
    var i := 1;
    assert p.Length > 0 ==> SortedTo(p[..], 1) by { SortedOne(p[..]); }
    while i < p.Length
      invariant 1 <= i <= p.Length || p.Length == 0
      invariant i <= p.Length ==> SortedTo(p[..], i)
      invariant multiset(p[..]) == multiset(old(p[..]))
    {
      Insert(p, i);
      i := i + 1;
    }
    if p.Length == 0 { SortedOne(p[..]); }
  }

  lemma SortedOne(s: seq<Edge>)
    ensures |s| > 0 ==> SortedTo(s, 1)
    ensures SortedTo(s, 0)
  {
  }

  /** One pass: edge `i` sinks to its place in the sorted prefix. */
  method Insert(p: array<Edge>, i: nat)
    requires 0 < i < p.Length && SortedTo(p[..], i)
    modifies p
    ensures SortedTo(p[..], i + 1) && multiset(p[..]) == multiset(old(p[..]))
  {
    hide SortedTo;
    var t := p[i];
    ghost var s := p[..];
    var j := i;
    while j > 0 && Less(t, p[j - 1])
      invariant 0 <= j <= i
      invariant j == i ==> p[i] == t
      invariant forall k :: 0 <= k < j ==> p[k] == s[k]
      invariant forall k :: j < k <= i ==> p[k] == s[k - 1]
      invariant forall k :: i < k < p.Length ==> p[k] == s[k]
      invariant forall k :: j <= k < i ==> Less(t, s[k])
    {
      p[j] := p[j - 1];
      j := j - 1;
    }
    if i != j { p[j] := t; }
    InsertedEdges(s, i, j, p[..]);
    InsertedOrder(s, i, j, p[..]);
  }

  /** `r` is `s` with edge `i` moved down to place `j`. */
  ghost predicate Moved(s: seq<Edge>, i: nat, j: nat, r: seq<Edge>)
    requires j <= i < |s|
  {
    && |r| == |s| && r[j] == s[i]
    && (forall k :: 0 <= k < j ==> r[k] == s[k])
    && (forall k :: j < k <= i ==> r[k] == s[k - 1])
    && (forall k :: i < k < |s| ==> r[k] == s[k])
  }

  lemma {:induction false} InsertedEdges(s: seq<Edge>, i: nat, j: nat, r: seq<Edge>)
    requires j <= i < |s| && Moved(s, i, j, r)
    ensures multiset(r) == multiset(s)
    decreases i
  {
    if j == i {
      assert r == s;
    } else {
      var s': seq<Edge> := s[i - 1 := s[i]][i := s[i - 1]];
      assert multiset(s') == multiset(s);
      InsertedEdges(s', i - 1, j, r);
    }
  }

  lemma InsertedOrder(s: seq<Edge>, i: nat, j: nat, r: seq<Edge>)
    requires j <= i < |s| && SortedTo(s, i) && Moved(s, i, j, r)
    requires forall k :: j <= k < i ==> Less(s[i], s[k])
    requires j > 0 ==> !Less(s[i], s[j - 1])
    ensures SortedTo(r, i + 1)
  {
    forall x, y | 0 <= x < y <= i ensures !Less(r[y], r[x]) {
      if y == j && x < j - 1 {
        assert !Less(s[j - 1], s[x]);
      }
    }
  }

  // ----- quicksort

  const THRESHOLD := 12

  method Swap(p: array<Edge>, i: nat, j: nat, ghost lo: nat, ghost hi: nat)
    requires lo <= i < hi && lo <= j < hi && hi <= p.Length
    modifies p
    ensures p[i] == old(p[j]) && p[j] == old(p[i])
    ensures forall k :: 0 <= k < p.Length && k != i && k != j ==> p[k] == old(p[k])
    ensures Shuffled(old(p[..]), p[..], lo, hi)
  {
    ShuffledSwap(p[..], i, j, lo, hi);
    var t := p[i];
    p[i] := p[j];
    p[j] := t;
    assert p[..] == old(p[..])[i := old(p[j])][j := old(p[i])];
  }

  /** The first edge becomes the median of the first, the middle and the last. */
  method MedianToFront(p: array<Edge>, lo: nat, hi: nat)
    requires lo + THRESHOLD < hi <= p.Length
    modifies p
    ensures Shuffled(old(p[..]), p[..], lo, hi)
    ensures exists k :: lo < k < hi && !Less(p[k], p[lo])
    ensures exists k :: lo < k < hi && !Less(p[lo], p[k])
  {
    hide Shuffled;
    var m := lo + (hi - lo) / 2;
    var c01 := Less(p[lo], p[m]);
    var c12 := Less(p[m], p[hi - 1]);
    ghost var s := p[..];
    if c01 != c12 {
      var c := Less(p[lo], p[hi - 1]);
      var z := if c == c12 then lo else hi - 1;
      Swap(p, z, m, lo, hi);
    } else {
      ShuffledSame(s, lo, hi);
    }
    ghost var t := p[..];
    Swap(p, lo, m, lo, hi);
    ShuffledTrans(s, t, p[..], lo, hi);
    assert !Less(p[m], p[lo]) || !Less(p[hi - 1], p[lo]);
    assert !Less(p[lo], p[m]) || !Less(p[lo], p[hi - 1]);
  }

  /** The left scan: no bound is tested, an edge not below the pivot lies ahead. */
  method ScanUp(p: array<Edge>, lo: nat, start: nat, ghost stop: nat) returns (i: nat)
    requires lo < start <= stop < p.Length && !Less(p[stop], p[lo])
    ensures start <= i <= stop && !Less(p[i], p[lo])
    ensures forall k :: start <= k < i ==> Less(p[k], p[lo])
  {
    i := start;
    while Less(p[i], p[lo])
      invariant start <= i <= stop
      invariant forall k :: start <= k < i ==> Less(p[k], p[lo])
      decreases stop - i
    {
      i := i + 1;
    }
  }

  /** The right scan: the pivot itself stops it. */
  method ScanDown(p: array<Edge>, lo: nat, start: nat) returns (j: nat)
    requires lo <= start < p.Length
    ensures lo <= j <= start && !Less(p[lo], p[j])
    ensures forall k :: j < k <= start ==> Less(p[lo], p[k])
  {
    j := start;
    while Less(p[lo], p[j])
      invariant lo <= j <= start
      invariant forall k :: j < k <= start ==> Less(p[lo], p[k])
      decreases j
    {
      j := j - 1;
    }
  }

  /** The partition loop; at most one edge, at index `j`, ends up in neither part. */
  method Partition(p: array<Edge>, lo: nat, hi: nat) returns (i: nat, j: nat)
    requires lo + THRESHOLD < hi <= p.Length
    requires exists k :: lo < k < hi && !Less(p[k], p[lo])
    modifies p
    ensures lo <= j <= i <= j + 1 && lo < i < hi
    ensures Shuffled(old(p[..]), p[..], lo, hi)
    ensures forall k :: lo <= k < i ==> !Less(p[lo], p[k])
    ensures forall k :: i <= k < hi ==> !Less(p[k], p[lo])
  {
    hide Shuffled;
    i, j := lo + 1, hi - 1;
    ghost var stop :| lo < stop < hi && !Less(p[stop], p[lo]);
    ghost var s := p[..];
    ShuffledSame(s, lo, hi);
    while true
      invariant lo < i <= stop < hi && i <= j + 1 && j < hi
      invariant !Less(p[stop], p[lo])
      invariant forall k :: lo < k < i ==> !Less(p[lo], p[k])
      invariant forall k :: j < k < hi ==> !Less(p[k], p[lo])
      invariant Shuffled(s, p[..], lo, hi)
      decreases hi - i
    {
      i := ScanUp(p, lo, i, if j + 1 < stop then j + 1 else stop);
      assert !Less(p[lo], p[i - 1]);
      j := ScanDown(p, lo, j);
      if i >= j { break; }
      ghost var t := p[..];
      Swap(p, i, j, lo, hi);
      ShuffledTrans(s, t, p[..], lo, hi);
      stop := j;
      i, j := i + 1, j - 1;
    }
  }

  /**
    What quicksort leaves: short, or cut where nothing on the left belongs on the right, with both
    sides again so, except that the last edge of the left side may have been left where it was.
   */
  ghost predicate Split(s: seq<Edge>)
    decreases |s|
  {
    |s| <= THRESHOLD ||
    exists j: nat, i: nat :: j <= i <= j + 1 && 0 < i < |s| &&
      Below(multiset(s[..i]), multiset(s[i..])) && Split(s[..j]) && Split(s[i..])
  }

  lemma SplitJoin(l: seq<Edge>, mid: seq<Edge>, r: seq<Edge>)
    requires Split(l) && Split(r) && |mid| <= 1 && l + mid != [] && r != []
    requires Below(multiset(l + mid), multiset(r))
    ensures Split(l + mid + r)
  {
    var s, i, j := l + mid + r, |l + mid|, |l|;
    assert s[..i] == l + mid && s[i..] == r && s[..j] == l;
  }

  /** However the edges of `cur` end up split, the whole around them is split. */
  ghost predicate Pending(pre: seq<Edge>, cur: multiset<Edge>, post: seq<Edge>) {
    forall t: seq<Edge> {:trigger multiset(t)} :: multiset(t) == cur && Split(t) ==> Split(pre + t + post)
  }

  lemma PendingUse(pre: seq<Edge>, cur: multiset<Edge>, post: seq<Edge>, t: seq<Edge>)
    requires Pending(pre, cur, post) && multiset(t) == cur && Split(t)
    ensures Split(pre + t + post)
  {
    hide Split;
  }

  lemma SplitAround(pre: seq<Edge>, l: seq<Edge>, mid: seq<Edge>, r: seq<Edge>, post: seq<Edge>, cur: multiset<Edge>)
    requires Pending(pre, cur, post) && cur == multiset(l) + multiset(mid) + multiset(r)
    requires Split(l) && Split(r) && |mid| <= 1 && l + mid != [] && r != []
    requires Below(multiset(l) + multiset(mid), multiset(r))
    ensures Split(pre + l + mid + r + post)
  {
    hide Split, Below, Pending;
    assert multiset(l + mid) == multiset(l) + multiset(mid);
    assert multiset(l + mid + r) == cur;
    SplitJoin(l, mid, r);
    PendingUse(pre, cur, post, l + mid + r);
    assert pre + l + mid + r + post == pre + (l + mid + r) + post;
  }

  lemma PendingRight(pre: seq<Edge>, l: seq<Edge>, mid: seq<Edge>, r: multiset<Edge>, post: seq<Edge>)
    requires Pending(pre, multiset(l) + multiset(mid) + r, post)
    requires Split(l) && |mid| <= 1 && l + mid != [] && |r| > 0
    requires Below(multiset(l) + multiset(mid), r)
    ensures Pending(pre + l + mid, r, post)
  {
    hide Split, Below;
    forall t: seq<Edge> | multiset(t) == r && Split(t) ensures Split(pre + l + mid + t + post) {
      assert |t| == |multiset(t)|;
      SplitAround(pre, l, mid, t, post, multiset(l) + multiset(mid) + r);
    }
  }

  lemma PendingLeft(pre: seq<Edge>, l: multiset<Edge>, mid: seq<Edge>, r: seq<Edge>, post: seq<Edge>)
    requires Pending(pre, l + multiset(mid) + multiset(r), post)
    requires Split(r) && |mid| <= 1 && |l| + |mid| > 0 && r != []
    requires Below(l + multiset(mid), multiset(r))
    ensures Pending(pre, l, mid + r + post)
  {
    forall t: seq<Edge> | multiset(t) == l && Split(t) ensures Split(pre + t + (mid + r + post)) {
      hide Split, Below, Pending;
      assert |t| == |multiset(t)|;
      SplitAround(pre, t, mid, r, post, l + multiset(mid) + multiset(r));
      Regroup(pre, t, mid, r, post);
    }
    hide Split, Below;
  }

  lemma Regroup(pre: seq<Edge>, t: seq<Edge>, mid: seq<Edge>, r: seq<Edge>, post: seq<Edge>)
    ensures pre + t + (mid + r + post) == pre + t + mid + r + post
  {
  }

  /** The invariant of the quicksort loop, over the whole array `s`. */
  ghost predicate Working(s: seq<Edge>, lo: nat, a: nat, b: nat, hi: nat)
    requires lo <= a <= b <= hi <= |s|
  {
    Pending(s[lo..a], multiset(s[a..b]), s[b..hi])
  }

  lemma WorkingStart(s: seq<Edge>, lo: nat, hi: nat)
    requires lo <= hi <= |s|
    ensures Working(s, lo, lo, hi, hi)
  {
    hide Split;
    forall t: seq<Edge> | Split(t) ensures Split(s[lo..lo] + t + s[hi..hi]) {
      assert s[lo..lo] + t + s[hi..hi] == t;
    }
  }

  lemma WorkingEnd(s: seq<Edge>, lo: nat, a: nat, b: nat, hi: nat)
    requires lo <= a <= b <= hi <= |s| && Working(s, lo, a, b, hi) && b - a <= THRESHOLD
    ensures Split(s[lo..hi])
  {
    var t := s[a..b];
    assert Split(t);
    assert s[lo..a] + t + s[b..hi] == s[lo..hi];
  }

  lemma WorkingShuffled(s: seq<Edge>, t: seq<Edge>, lo: nat, a: nat, b: nat, hi: nat)
    requires lo <= a <= b <= hi <= |s| && Working(s, lo, a, b, hi) && Shuffled(s, t, a, b)
    ensures Working(t, lo, a, b, hi)
  {
    assert t[lo..a] == t[..a][lo..] == s[lo..a];
    assert t[b..hi] == t[b..][..hi - b] == s[b..hi];
  }

  lemma CutEdges(s: seq<Edge>, a: nat, j: nat, i: nat, b: nat)
    requires a <= j <= i <= b <= |s|
    ensures multiset(s[a..i]) == multiset(s[a..j]) + multiset(s[j..i])
    ensures multiset(s[a..b]) == multiset(s[a..j]) + multiset(s[j..i]) + multiset(s[i..b])
  {
    assert s[a..i] == s[a..j] + s[j..i];
    assert s[a..b] == s[a..i] + s[i..b];
  }

  /** The left part has been sorted: what is left to do is the right part. */
  lemma WorkingRight(s: seq<Edge>, lo: nat, a: nat, j: nat, i: nat, b: nat, hi: nat)
    requires lo <= a <= j <= i <= j + 1 && a < i < b <= hi <= |s|
    requires Working(s, lo, a, b, hi) && Split(s[a..j]) && Below(multiset(s[a..i]), multiset(s[i..b]))
    ensures Working(s, lo, i, b, hi)
  {
    hide Split, Below, Pending;
    CutEdges(s, a, j, i, b);
    PendingRight(s[lo..a], s[a..j], s[j..i], multiset(s[i..b]), s[b..hi]);
    assert s[lo..a] + s[a..j] + s[j..i] == s[lo..i];
  }

  /** The right part has been sorted: what is left to do is the left part. */
  lemma WorkingLeft(s: seq<Edge>, lo: nat, a: nat, j: nat, i: nat, b: nat, hi: nat)
    requires lo <= a <= j <= i <= j + 1 && a < i < b <= hi <= |s|
    requires Working(s, lo, a, b, hi) && Split(s[i..b]) && Below(multiset(s[a..i]), multiset(s[i..b]))
    ensures Working(s, lo, a, j, hi)
  {
    hide Split, Below, Pending;
    CutEdges(s, a, j, i, b);
    PendingLeft(s[lo..a], multiset(s[a..j]), s[j..i], s[i..b], s[b..hi]);
    assert s[j..i] + s[i..b] + s[b..hi] == s[j..hi];
  }

  lemma BelowParts(s: seq<Edge>, a: nat, i: nat, b: nat)
    requires a < i < b <= |s|
    requires forall k :: a <= k < i ==> !Less(s[a], s[k])
    requires forall k :: i <= k < b ==> !Less(s[k], s[a])
    ensures Below(multiset(s[a..i]), multiset(s[i..b]))
  {
    forall x, y | x in multiset(s[a..i]) && y in multiset(s[i..b]) ensures !Less(y, x) {
      assert x in s[a..i] && y in s[i..b];
    }
  }

  /**
    The partition does not put the pivot between the two parts.  An edge that is left between them is not
    below the ones before it if and only if it is not below the pivot, which is one of them.
   */
  lemma LeftBetween(s: seq<Edge>, a: nat, j: nat)
    requires a < j < |s| && forall k :: a <= k <= j ==> !Less(s[a], s[k])
    ensures Below(multiset(s[a..j]), multiset(s[j..j + 1])) <==> !Less(s[j], s[a])
  {
    var left, between := multiset(s[a..j]), multiset(s[j..j + 1]);
    assert s[a] in s[a..j] && s[j] in s[j..j + 1];
    if !Less(s[j], s[a]) {
      forall x, y | x in left && y in between ensures !Less(y, x) {
        assert x in s[a..j] && y in s[j..j + 1];
      }
    }
  }

  lemma BelowShuffled(s: seq<Edge>, t: seq<Edge>, a: nat, i: nat, b: nat)
    requires a <= i <= b <= |s| && Below(multiset(s[a..i]), multiset(s[i..b]))
    requires Shuffled(s, t, a, i) || Shuffled(s, t, i, b)
    ensures |t| == |s| && Below(multiset(t[a..i]), multiset(t[i..b]))
  {
    if Shuffled(s, t, a, i) {
      assert t[i..b] == t[i..][..b - i] == s[i..b];
    } else {
      assert t[a..i] == t[..i][a..] == s[a..i];
    }
  }

  /** Median of three and partition, as one rearrangement of [a, b) into two parts. */
  method Cut(p: array<Edge>, ghost lo: nat, a: nat, b: nat, ghost hi: nat) returns (i: nat, j: nat)
    requires lo <= a && a + THRESHOLD < b <= hi <= p.Length
    requires Working(p[..], lo, a, b, hi)
    modifies p
    ensures a <= j <= i <= j + 1 && a < i < b
    ensures Shuffled(old(p[..]), p[..], a, b) && Working(p[..], lo, a, b, hi)
    ensures Below(multiset(p[a..i]), multiset(p[i..b]))
  {
    hide Shuffled, Working, Below;
    ghost var s := p[..];
    MedianToFront(p, a, b);
    ghost var t := p[..];
    i, j := Partition(p, a, b);
    ghost var u := p[..];
    ShuffledTrans(s, t, u, a, b);
    WorkingShuffled(s, u, lo, a, b, hi);
    BelowParts(u, a, i, b);
    assert u[a..i] == p[a..i] && u[i..b] == p[i..b];
  }

  lemma NoDepth()
    ensures Pow2(0) == 1
  {
  }

  /** One more nested call on at most half of the edges. */
  lemma DepthStep(d: nat, part: nat, whole: nat)
    requires Pow2(d) <= (if part == 0 then 1 else part) && 2 * part <= whole && 2 <= whole
    ensures Pow2(d + 1) <= whole
  {
  }

  /** One turn of the loop: the smaller part is sorted, and the larger one is what is left of [a, b). */
  method Turn(p: array<Edge>, ghost lo: nat, a: nat, b: nat, ghost hi: nat) returns (a': nat, b': nat, ghost d: nat)
    requires lo <= a && a + THRESHOLD < b <= hi <= p.Length && Working(p[..], lo, a, b, hi)
    modifies p
    ensures a <= a' <= b' <= b && b' - a' < b - a && Working(p[..], lo, a', b', hi)
    ensures Shuffled(old(p[..]), p[..], lo, hi) && Pow2(d + 1) <= b - a
    decreases b - a, 0
  {
    hide Shuffled, Split, Working, Below, Pow2;
    a', b' := a, b;
    ghost var t := p[..];
    var i, j := Cut(p, lo, a, b, hi);
    ghost var u := p[..];
    ShuffledWiden(t, u, lo, a, b, hi);
    assert u[a..i] == p[a..i] && u[i..b] == p[i..b];
    if j - a < b - i {
      d := Quicksort(p, a, j);
      DepthStep(d, j - a, b - a);
      ghost var w := p[..];
      assert w[a..j] == p[a..j];
      SortedLeft(u, w, lo, a, j, i, b, hi);
      a' := i;
    } else {
      d := Quicksort(p, i, b);
      DepthStep(d, b - i, b - a);
      ghost var w := p[..];
      assert w[i..b] == p[i..b];
      SortedRight(u, w, lo, a, j, i, b, hi);
      b' := j;
    }
    ShuffledTrans(t, u, p[..], lo, hi);
  }

  /** Quicksort of [lo, hi); `depth` counts nested calls. */
  method Quicksort(p: array<Edge>, lo: nat, hi: nat) returns (ghost depth: nat)
    requires lo <= hi <= p.Length
    modifies p
    ensures Shuffled(old(p[..]), p[..], lo, hi)
    ensures Split(p[lo..hi])
    ensures Pow2(depth) <= if hi == lo then 1 else hi - lo
    decreases hi - lo, 1
  {
    hide Shuffled, Split, Working, Pow2;
    depth := 0;
    NoDepth();
    var a, b := lo, hi;
    ghost var s := p[..];
    ShuffledSame(s, lo, hi);
    WorkingStart(s, lo, hi);
    while b - a > THRESHOLD
      invariant lo <= a <= b <= hi
      invariant Shuffled(s, p[..], lo, hi)
      invariant Working(p[..], lo, a, b, hi)
      invariant Pow2(depth) <= if hi == lo then 1 else hi - lo
      decreases b - a
    {
      ghost var t, d := p[..], 0;
      a, b, d := Turn(p, lo, a, b, hi);
      ShuffledTrans(s, t, p[..], lo, hi);
      if depth < d + 1 { depth := d + 1; }
    }
    WorkingEnd(p[..], lo, a, b, hi);
    assert p[..][lo..hi] == p[lo..hi];
  }

  lemma SortedLeft(u: seq<Edge>, v: seq<Edge>, lo: nat, a: nat, j: nat, i: nat, b: nat, hi: nat)
    requires lo <= a <= j <= i <= j + 1 && a < i < b <= hi <= |u|
    requires Working(u, lo, a, b, hi) && Below(multiset(u[a..i]), multiset(u[i..b]))
    requires Shuffled(u, v, a, j) && |v| == |u| && Split(v[a..j])
    ensures Working(v, lo, i, b, hi) && Shuffled(u, v, lo, hi)
  {
    hide Split, Working, Below, Shuffled;
    ShuffledWiden(u, v, a, a, j, b);
    ShuffledWiden(u, v, lo, a, j, hi);
    ShuffledWiden(u, v, a, a, j, i);
    WorkingShuffled(u, v, lo, a, b, hi);
    BelowShuffled(u, v, a, i, b);
    WorkingRight(v, lo, a, j, i, b, hi);
  }

  lemma SortedRight(u: seq<Edge>, v: seq<Edge>, lo: nat, a: nat, j: nat, i: nat, b: nat, hi: nat)
    requires lo <= a <= j <= i <= j + 1 && a < i < b <= hi <= |u|
    requires Working(u, lo, a, b, hi) && Below(multiset(u[a..i]), multiset(u[i..b]))
    requires Shuffled(u, v, i, b) && |v| == |u| && Split(v[i..b])
    ensures Working(v, lo, a, j, hi) && Shuffled(u, v, lo, hi)
  {
    hide Split, Working, Below, Shuffled;
    ShuffledWiden(u, v, a, i, b, b);
    ShuffledWiden(u, v, lo, i, b, hi);
    WorkingShuffled(u, v, lo, a, b, hi);
    BelowShuffled(u, v, a, i, b);
    WorkingLeft(v, lo, a, j, i, b, hi);
  }

  /** The whole sort. */
  method SortEdges(p: array<Edge>) returns (ghost depth: nat)
    modifies p
    ensures Sorted(p[..]) && multiset(p[..]) == multiset(old(p[..]))
    ensures Pow2(depth) <= if p.Length == 0 then 1 else p.Length
  {
    ghost var s := p[..];
    depth := Quicksort(p, 0, p.Length);
    assert s[0..p.Length] == s && p[..][0..p.Length] == p[..];
    InsertionSort(p);
  }
}
