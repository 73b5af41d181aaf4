/**
  Looking up a code point in a format 4 character map: a search that halves a power of two, started
  from one of two places, against the first segment whose end is not below the code point.
 */
module CmapSearch {
  import opened Common

  function UShort(data: seq<Byte>, p: nat): (v: nat)
    requires p + 1 < |data|
    ensures v < 0x1_0000
  {
    (data[p] as int) * 256 + data[p + 1]
  }

  /** Two's complement. */
  function ReadShort(data: seq<Byte>, p: nat): int
    requires p + 1 < |data|
  {
    Short(UShort(data, p))
  }

  /** A subtable starting at `at`: four parallel arrays of `n` entries behind a header. */
  datatype Table = Table(data: seq<Byte>, at: nat, n: nat)
  {
    predicate InBounds() { at + 16 + 8 * n <= |data| }

    function End(i: nat): nat
      requires InBounds() && i < n
    {
      UShort(data, at + 14 + 2 * i)
    }

    function Start(i: nat): nat
      requires InBounds() && i < n
    {
      UShort(data, at + 14 + 2 * n + 2 + 2 * i)
    }

    function Delta(i: nat): int
      requires InBounds() && i < n
    {
      ReadShort(data, at + 14 + 4 * n + 2 + 2 * i)
    }

    function OffsetAt(i: nat): nat { at + 14 + 6 * n + 2 + 2 * i }

    function Offset(i: nat): nat
      requires InBounds() && i < n
    {
      UShort(data, OffsetAt(i))
    }

    /** Where the glyph of a code point of segment `i` is stored, when the segment has an offset. */
    function GlyphAt(i: nat, c: int): int
      requires InBounds() && i < n
    {
      Offset(i) + (c - Start(i)) * 2 + OffsetAt(i)
    }

    /** The header describes the largest power of two that does not exceed the number of segments. */
    ghost predicate HeaderConforms()
      requires InBounds()
    {
      && UShort(data, at + 6) == 2 * n
      && Pow2(UShort(data, at + 10)) <= n < 2 * Pow2(UShort(data, at + 10))
      && UShort(data, at + 8) == 2 * Pow2(UShort(data, at + 10))
      && UShort(data, at + 12) == 2 * n - UShort(data, at + 8)
    }

    /** The segments are in increasing order of their ends, and the last one ends the code space. */
    ghost predicate Ordered()
      requires InBounds()
    {
      n > 0 && End(n - 1) == 0xFFFF && forall i, j :: 0 <= i < j < n ==> End(i) < End(j)
    }

    /** Every glyph that a segment with an offset points at is stored in the data. */
    ghost predicate Stored()
      requires InBounds()
    {
      forall i, c :: 0 <= i < n && Offset(i) != 0 && Start(i) <= c <= End(i) ==> GlyphAt(i, c) + 1 < |data|
    }

    /** "Format 4: Segment mapping to delta values" of the OpenType cmap table. */
    ghost predicate Conforms() {
      InBounds() && HeaderConforms() && Ordered() && Stored()
    }

    /** Segment `i` is the first one that does not end before `c`. */
    predicate IsSegment(i: nat, c: int)
      requires InBounds() && i < n
    {
      c <= End(i) && forall k :: 0 <= k < i ==> End(k) < c
    }

    /** The segment a scan from the first one finds. */
    function Scan(c: int, i: nat): (r: nat)
      requires Conforms() && i < n && c <= 0xFFFF && forall k :: 0 <= k < i ==> End(k) < c
      ensures r < n && IsSegment(r, c)
      decreases n - i
    {
      if c <= End(i) then i else Scan(c, i + 1)
    }

    /** The glyph as the code defines it. */
    function Glyph(c: int): int
      requires Conforms()
    {
      if c > 0xFFFF then 0
      else
        var i := Scan(c, 0);
        if c < Start(i) then 0
        else if Offset(i) == 0 then (c + Delta(i)) % 0x1_0000
        else UShort(data, GlyphAt(i, c))
    }

    /** The glyph as the standard defines it: a stored glyph other than 0 also gets the delta. */
    function StandardGlyph(c: int): int
      requires Conforms()
    {
      if c > 0xFFFF then 0
      else
        var i := Scan(c, 0);
        if c < Start(i) then 0
        else if Offset(i) == 0 then (c + Delta(i)) % 0x1_0000
        else
          var g := UShort(data, GlyphAt(i, c));
          if g == 0 then 0 else (g + Delta(i)) % 0x1_0000
    }
  }

  lemma SegmentUnique(t: Table, i: nat, j: nat, c: int)
    requires t.InBounds() && i < t.n && j < t.n && t.IsSegment(i, c) && t.IsSegment(j, c)
    ensures i == j
  {
  }

  /** One comparison tells on which side of an entry the segment lies. */
  lemma SegmentSide(t: Table, seg: nat, i: nat, c: int)
    requires t.InBounds() && t.Ordered() && i < t.n && seg < t.n && t.IsSegment(seg, c)
    ensures t.End(i) < c <==> i < seg
    ensures t.End(i) <= c ==> i <= seg
  {
  }

  /**
    The halving loop.  `before` is the number of the entry that `search` points at, or -1 when it points
    one entry before the first; the segment is among the next `searchRange` entries.
   */
  method Halve(t: Table, c: int, from: int, range: nat, selector: nat, ghost before: int, ghost seg: nat)
    returns (search: int)
    requires t.InBounds() && t.Ordered() && seg < t.n && t.IsSegment(seg, c)
    requires from == t.at + 14 + 2 * before && range == Pow2(selector)
    requires -1 <= before < seg <= before + range < t.n
    ensures search == t.at + 14 + 2 * (seg - 1)
  {
    hide Table.Ordered, Table.IsSegment, UShort;
    search := from;
    var searchRange, entrySelector := range, selector;
    ghost var lo := before;
    while entrySelector != 0
      invariant search == t.at + 14 + 2 * lo && searchRange == Pow2(entrySelector)
      invariant -1 <= lo < seg <= lo + searchRange < t.n
      decreases entrySelector
    {
      searchRange := searchRange / 2;
      SegmentSide(t, seg, lo + searchRange, c);
      if c > UShort(t.data, search + searchRange * 2) {
        search := search + searchRange * 2;
        lo := lo + searchRange;
      }
      entrySelector := entrySelector - 1;
    }
  }

  /** The search finds the segment of `c`, and every end code read on the way is one of the table's. */
  method FindSegment(t: Table, c: int) returns (item: nat)
    requires t.Conforms() && c <= 0xFFFF
    ensures item < t.n && t.IsSegment(item, c)
  {
    ghost var seg := t.Scan(c, 0);
    hide Table.Ordered, Table.Stored, Table.IsSegment, UShort;
    var searchRange := UShort(t.data, t.at + 8) / 2;
    var entrySelector := UShort(t.data, t.at + 10);
    var rangeShift := UShort(t.data, t.at + 12) / 2;
    var endCount := t.at + 14;
    var search: int := endCount;
    SegmentSide(t, seg, rangeShift, c);
    ghost var before := -1;
    if c >= UShort(t.data, search + rangeShift * 2) {
      search := search + rangeShift * 2;
      before := rangeShift - 1;
    }
    search := search - 2;
    search := Halve(t, c, search, searchRange, entrySelector, before, seg);
    search := search + 2;
    item := (search - endCount) / 2;
  }

  method FindGlyphIndex(t: Table, c: int) returns (g: int)
    requires t.Conforms()
    ensures g == t.Glyph(c)
  {
    if c > 0xFFFF { return 0; }
    var item := FindSegment(t, c);
    SegmentUnique(t, item, t.Scan(c, 0), c);
    var start, last := t.Start(item), t.End(item);
    if c < start || c > last { return 0; }
    var offset := t.Offset(item);
    if offset == 0 { return (c + t.Delta(item)) % 0x1_0000; }
    assert t.GlyphAt(item, c) + 1 < |t.data|;
    return UShort(t.data, offset + (c - start) * 2 + t.at + 14 + t.n * 6 + 2 + 2 * item);
  }

  /** The code agrees with the standard except where a stored glyph would need a delta. */
  lemma AgreesWithStandard(t: Table, c: int)
    requires t.Conforms() && c <= 0xFFFF
    ensures var i := t.Scan(c, 0);
            t.Glyph(c) == t.StandardGlyph(c) <==>
              c < t.Start(i) || t.Offset(i) == 0 || UShort(t.data, t.GlyphAt(i, c)) == 0 || t.Delta(i) == 0
  {
  }

  /** One segment for U+FFFF alone, with delta 1 and the stored glyph 7. */
  function OneSegment(): Table {
    Table([0, 4, 0, 26, 0, 0, 0, 2, 0, 2, 0, 0, 0, 0, 255, 255, 0, 0, 255, 255, 0, 1, 0, 2, 0, 7], 0, 1)
  }

  lemma OneSegmentHeader()
    ensures var t := OneSegment(); t.InBounds() && |t.data| == 26 && t.n == 1 && t.at == 0
    ensures var t := OneSegment(); UShort(t.data, 6) == UShort(t.data, 8) == 2 && UShort(t.data, 10) == UShort(t.data, 12) == 0
  {
  }

  lemma OneSegmentWords()
    ensures var t := OneSegment(); |t.data| == 26 && UShort(t.data, 14) == UShort(t.data, 18) == 0xFFFF
    ensures var t := OneSegment(); UShort(t.data, 20) == 1 && UShort(t.data, 22) == 2 && UShort(t.data, 24) == 7
  {
  }

  lemma OneSegmentFields()
    ensures OneSegment().InBounds() && |OneSegment().data| == 26 && OneSegment().n == 1
    ensures var t := OneSegment(); t.Start(0) == t.End(0) == 0xFFFF && t.Delta(0) == 1
    ensures var t := OneSegment(); t.GlyphAt(0, 0xFFFF) == 24 && UShort(t.data, 24) == 7 && t.Offset(0) == 2
  {
    OneSegmentHeader();
    OneSegmentWords();
    hide OneSegment, UShort;
  }

  /** The code does not always agree with the standard. */
  lemma DeltaIgnored()
    ensures OneSegment().Conforms()
    ensures OneSegment().Glyph(0xFFFF) == 7 && OneSegment().StandardGlyph(0xFFFF) == 8
  {
    OneSegmentHeader();
    OneSegmentFields();
    hide OneSegment, UShort, ReadShort, Table.Start, Table.End, Table.Delta, Table.Offset, Table.GlyphAt;
    var t := OneSegment();
    assert t.Stored();
    assert t.Conforms();
  }

  // Formats 12 and 13: groups of code points, searched by halving an interval.

  function ULong(data: seq<Byte>, p: nat): (v: nat)
    requires p + 3 < |data|
    ensures v < 0x1_0000_0000
  {
    UShort(data, p) * 0x1_0000 + UShort(data, p + 2)
  }

  datatype Groups = Groups(data: seq<Byte>, at: nat)
  {
    predicate HasHeader() { at + 16 <= |data| }

    function Count(): nat
      requires HasHeader()
    {
      ULong(data, at + 12)
    }

    predicate InBounds() { HasHeader() && at + 16 + 12 * Count() <= |data| }

    function First(i: nat): nat
      requires InBounds() && i < Count()
    {
      ULong(data, at + 16 + 12 * i)
    }

    function Last(i: nat): nat
      requires InBounds() && i < Count()
    {
      ULong(data, at + 16 + 12 * i + 4)
    }

    function StartGlyph(i: nat): nat
      requires InBounds() && i < Count()
    {
      ULong(data, at + 16 + 12 * i + 8)
    }

    /** Groups do not overlap and are in increasing order; there are few enough for a signed count. */
    ghost predicate Ordered()
      requires InBounds()
    {
      && Count() < 0x8000_0000
      && (forall i :: 0 <= i < Count() ==> First(i) <= Last(i))
      && (forall i, j :: 0 <= i < j < Count() ==> Last(i) < First(j))
    }

    predicate Holds(i: nat, c: nat)
      requires InBounds() && i < Count()
    {
      First(i) <= c <= Last(i)
    }
  }

  /** The glyph of a code point in group `i`, in 32-bit arithmetic; format 13 gives the whole group one glyph. */
  function GroupGlyph(g: Groups, i: nat, c: nat, format: nat): nat
    requires g.InBounds() && i < g.Count()
  {
    if format == 12 then (g.StartGlyph(i) + c - g.First(i)) % 0x1_0000_0000 else g.StartGlyph(i)
  }

  /** Every code point is in one group at most, so its glyph is determined by the table alone. */
  method FindInGroups(g: Groups, c: nat, format: nat) returns (glyph: nat)
    requires g.InBounds() && g.Ordered() && (format == 12 || format == 13)
    ensures forall i :: 0 <= i < g.Count() && g.Holds(i, c) ==> glyph == GroupGlyph(g, i, c, format)
    ensures (forall i :: 0 <= i < g.Count() ==> !g.Holds(i, c)) ==> glyph == 0
  {
    hide ULong;
    var low, high := 0, g.Count();
    while low < high
      invariant 0 <= low <= high <= g.Count()
      invariant forall i :: 0 <= i < low ==> g.Last(i) < c
      invariant forall i :: high <= i < g.Count() ==> c < g.First(i)
    {
      var mid := low + (high - low) / 2;
      if c < g.First(mid) {
        high := mid;
      } else if c > g.Last(mid) {
        low := mid + 1;
      } else {
        assert g.Holds(mid, c);
        return GroupGlyph(g, mid, c, format);
      }
    }
    return 0;
  }
}
