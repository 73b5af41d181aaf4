/**
  The box filter over an oversampled glyph: a running total and a ring of eight samples, in place, row by
  row and then column by column.  Each line is filtered to the mean of the last samples of its original.
 */
module Prefilter {
  import opened Common

  const MAX_OVERSAMPLE := 8

  /** Sample `i` of a line that is zero before its start. */
  function Sample(line: seq<Byte>, i: int): nat
    requires i < |line|
  {
    if i < 0 then 0 else line[i]
  }

  /** The sum of the `k` samples before position `i`. */
  function Window(line: seq<Byte>, i: nat, k: nat): (sum: nat)
    requires i <= |line|
    ensures sum <= 255 * k
  {
    if k == 0 then 0 else Window(line, i, k - 1) + Sample(line, i - k)
  }

  /** The window moves on by one sample. */
  lemma {:induction false} WindowSlides(line: seq<Byte>, i: nat, k: nat)
    requires i < |line|
    ensures Window(line, i + 1, k) + Sample(line, i - k) == Window(line, i, k) + line[i]
  {
    if k != 0 { WindowSlides(line, i, k - 1); }
  }

  lemma {:induction false} WindowAtStart(line: seq<Byte>, k: nat)
    ensures Window(line, 0, k) == 0
  {
    if k != 0 { WindowAtStart(line, k - 1); }
  }

  /** The filtered sample. */
  function Mean(line: seq<Byte>, i: nat, kernel: nat): (b: Byte)
    requires i < |line| && kernel > 0
  {
    MeanInRange(Window(line, i + 1, kernel), kernel);
    Window(line, i + 1, kernel) / kernel
  }

  lemma MeanInRange(sum: nat, kernel: nat)
    requires sum <= 255 * kernel && kernel > 0
    ensures 0 <= sum / kernel < 256
  {
  }

  // Nothing is lost but rounding: before the division, the filter gives every sample `kernel` times.

  function Total(line: seq<Byte>, n: nat): nat
    requires n <= |line|
  {
    if n == 0 then 0 else Total(line, n - 1) + line[n - 1]
  }

  function WindowTotal(line: seq<Byte>, n: nat, k: nat): nat
    requires n <= |line|
  {
    if n == 0 then 0 else WindowTotal(line, n - 1, k) + Window(line, n, k)
  }

  lemma {:induction false} WindowTotalSplit(line: seq<Byte>, n: nat, k: nat)
    requires n <= |line| && k > 0
    ensures WindowTotal(line, n, k) == WindowTotal(line, n, k - 1) + Total(line, if n + 1 >= k then n + 1 - k else 0)
  {
    if n != 0 { WindowTotalSplit(line, n - 1, k); }
  }

  /** The end of the line is blank, as wide as the filter spreads. */
  predicate BlankEnd(line: seq<Byte>, kernel: nat) {
    forall i :: 0 <= i < |line| && i + kernel > |line| ==> line[i] == 0
  }

  lemma {:induction false} TotalBlank(line: seq<Byte>, m: nat, n: nat)
    requires m <= n <= |line| && forall i :: m <= i < n ==> line[i] == 0
    ensures Total(line, n) == Total(line, m)
    decreases n
  {
    if m != n { TotalBlank(line, m, n - 1); }
  }

  lemma {:induction false} Conserves(line: seq<Byte>, k: nat)
    requires BlankEnd(line, k)
    ensures WindowTotal(line, |line|, k) == k * Total(line, |line|)
  {
    var n := |line|;
    if k == 0 {
      NoWindow(line, n);
    } else {
      Conserves(line, k - 1);
      WindowTotalSplit(line, n, k);
      TotalBlank(line, if n + 1 >= k then n + 1 - k else 0, n);
    }
  }

  lemma {:induction false} NoWindow(line: seq<Byte>, n: nat)
    requires n <= |line|
    ensures WindowTotal(line, n, 0) == 0
  {
    if n != 0 { NoWindow(line, n - 1); }
  }

  // The ring.

  /** The ring holds the samples that will leave the window at position `i` and after. */
  ghost predicate Holds(ring: seq<Byte>, line: seq<Byte>, i: nat, kernel: nat) {
    && |ring| == MAX_OVERSAMPLE
    && forall j :: i <= j < i + kernel && j < |line| ==> ring[Slot(j, MAX_OVERSAMPLE)] == Sample(line, j - kernel)
  }

  lemma HoldsBegin(ring: seq<Byte>, line: seq<Byte>, kernel: nat)
    requires |ring| == MAX_OVERSAMPLE && kernel <= MAX_OVERSAMPLE && forall d :: 0 <= d < kernel ==> ring[d] == 0
    ensures Holds(ring, line, 0, kernel)
  {
  }

  lemma HoldsStep(ring: seq<Byte>, line: seq<Byte>, i: nat, kernel: nat)
    requires Holds(ring, line, i, kernel) && i < |line| && 0 < kernel <= MAX_OVERSAMPLE
    ensures ring[Slot(i, MAX_OVERSAMPLE)] == Sample(line, i - kernel)
    ensures Holds(ring[Slot(i + kernel, MAX_OVERSAMPLE) := line[i]], line, i + 1, kernel)
  {
    var now := ring[Slot(i + kernel, MAX_OVERSAMPLE) := line[i]];
    forall j | i + 1 <= j < i + 1 + kernel && j < |line|
      ensures now[Slot(j, MAX_OVERSAMPLE)] == Sample(line, j - kernel)
    {
      if j < i + kernel { SlotsDiffer(j, i + kernel, MAX_OVERSAMPLE); }
    }
  }

  /** Near the end of the line no new sample is needed. */
  lemma HoldsEnd(ring: seq<Byte>, line: seq<Byte>, i: nat, kernel: nat)
    requires Holds(ring, line, i, kernel) && i < |line| < i + kernel
    ensures ring[Slot(i, MAX_OVERSAMPLE)] == Sample(line, i - kernel)
    ensures Holds(ring, line, i + 1, kernel)
  {
  }

  /** One turn of the main loop: sample `i` comes in, the oldest one goes out. */
  method Slide(ring: array<Byte>, total: nat, ghost line: seq<Byte>, pixel: Byte, i: nat, kernel: nat)
    returns (sum: nat, mean: Byte)
    requires ring.Length == MAX_OVERSAMPLE && 0 < kernel <= MAX_OVERSAMPLE && i < |line| && pixel == line[i]
    requires Holds(ring[..], line, i, kernel) && total == Window(line, i, kernel)
    modifies ring
    ensures Holds(ring[..], line, i + 1, kernel) && sum == Window(line, i + 1, kernel) && mean == Mean(line, i, kernel)
  {
    hide Holds, Window;
    HoldsStep(ring[..], line, i, kernel);
    WindowSlides(line, i, kernel);
    sum := total + pixel - ring[i % MAX_OVERSAMPLE];
    ghost var was := ring[..];
    ring[(i + kernel) % MAX_OVERSAMPLE] := pixel;
    assert ring[..] == was[Slot(i + kernel, MAX_OVERSAMPLE) := line[i]];
    MeanInRange(sum, kernel);
    mean := sum / kernel;
  }

  /** One turn of the loop over the blank end of the line. */
  method Fade(ring: array<Byte>, total: nat, ghost line: seq<Byte>, i: nat, kernel: nat)
    returns (sum: nat, mean: Byte)
    requires ring.Length == MAX_OVERSAMPLE && 0 < kernel <= MAX_OVERSAMPLE && i < |line| < i + kernel && line[i] == 0
    requires Holds(ring[..], line, i, kernel) && total == Window(line, i, kernel)
    ensures Holds(ring[..], line, i + 1, kernel) && sum == Window(line, i + 1, kernel) && mean == Mean(line, i, kernel)
  {
    hide Holds, Window;
    HoldsEnd(ring[..], line, i, kernel);
    WindowSlides(line, i, kernel);
    sum := total - ring[i % MAX_OVERSAMPLE];
    MeanInRange(sum, kernel);
    mean := sum / kernel;
  }

  method ClearRing(ring: array<Byte>, ghost line: seq<Byte>, kernel: nat)
    requires ring.Length == MAX_OVERSAMPLE && kernel <= MAX_OVERSAMPLE
    modifies ring
    ensures Holds(ring[..], line, 0, kernel)
  {
    for d := 0 to kernel
      invariant forall k :: 0 <= k < d ==> ring[k] == 0
    {
      ring[d] := 0;
    }
    HoldsBegin(ring[..], line, kernel);
  }

  // Images.  `pixels[r, c]` is the sample at row r, column c; the filters work on the part of the image that
  // starts at row y0, column x0.

  function PartRow(pixels: array2<Byte>, r: nat, x0: nat, w: nat): (line: seq<Byte>)
    requires r < pixels.Length0 && x0 + w <= pixels.Length1
    reads pixels
    ensures |line| == w
  {
    seq(w, i requires 0 <= i < w reads pixels => pixels[r, x0 + i])
  }

  function ColumnOf(pixels: array2<Byte>, c: nat, y0: nat, h: nat): (line: seq<Byte>)
    requires c < pixels.Length1 && y0 + h <= pixels.Length0
    reads pixels
    ensures |line| == h
  {
    seq(h, i requires 0 <= i < h reads pixels => pixels[y0 + i, c])
  }

  /** Row `r` is filtered up to its column `i`, and no other sample has changed. */
  twostate predicate RowDone(pixels: array2<Byte>, line: seq<Byte>, r: nat, x0: nat, i: nat, kernel: nat)
    requires r < pixels.Length0 && x0 + |line| <= pixels.Length1 && kernel > 0 && i <= |line|
    reads pixels
  {
    && (forall k :: 0 <= k < i ==> pixels[r, x0 + k] == Mean(line, k, kernel))
    && (forall a, b :: 0 <= a < pixels.Length0 && 0 <= b < pixels.Length1 && !(a == r && x0 <= b < x0 + i) ==>
      pixels[a, b] == old(pixels[a, b]))
  }

  method FilterRow(pixels: array2<Byte>, ring: array<Byte>, r: nat, x0: nat, w: nat, kernel: nat)
    requires r < pixels.Length0 && x0 + w <= pixels.Length1
    requires ring.Length == MAX_OVERSAMPLE && 0 < kernel <= MAX_OVERSAMPLE
    requires BlankEnd(PartRow(pixels, r, x0, w), kernel)
    modifies pixels, ring
    ensures RowDone(pixels, old(PartRow(pixels, r, x0, w)), r, x0, w, kernel)
  {
    ghost var line := PartRow(pixels, r, x0, w);
    ClearRing(ring, line, kernel);
    var total, i := 0, 0;
    WindowAtStart(line, kernel);
    hide Holds, Window, Mean;
    while i <= w - kernel
      invariant 0 <= i <= w && RowDone(pixels, line, r, x0, i, kernel)
      invariant Holds(ring[..], line, i, kernel) && total == Window(line, i, kernel)
      invariant i <= w - kernel + 1 || i == 0
    {
      var sum, mean := Slide(ring, total, line, pixels[r, x0 + i], i, kernel);
      total := sum;
      pixels[r, x0 + i] := mean;
      i := i + 1;
    }
    while i < w
      invariant 0 <= i <= w < i + kernel && RowDone(pixels, line, r, x0, i, kernel)
      invariant Holds(ring[..], line, i, kernel) && total == Window(line, i, kernel)
    {
      var sum, mean := Fade(ring, total, line, i, kernel);
      total := sum;
      pixels[r, x0 + i] := mean;
      i := i + 1;
    }
  }

  /** Column `c` is filtered down to its row `i`, and no other sample has changed. */
  twostate predicate ColumnDone(pixels: array2<Byte>, line: seq<Byte>, c: nat, y0: nat, i: nat, kernel: nat)
    requires c < pixels.Length1 && y0 + |line| <= pixels.Length0 && kernel > 0 && i <= |line|
    reads pixels
  {
    && (forall k :: 0 <= k < i ==> pixels[y0 + k, c] == Mean(line, k, kernel))
    && (forall a, b :: 0 <= a < pixels.Length0 && 0 <= b < pixels.Length1 && !(b == c && y0 <= a < y0 + i) ==>
      pixels[a, b] == old(pixels[a, b]))
  }

  method FilterColumn(pixels: array2<Byte>, ring: array<Byte>, c: nat, y0: nat, h: nat, kernel: nat)
    requires c < pixels.Length1 && y0 + h <= pixels.Length0
    requires ring.Length == MAX_OVERSAMPLE && 0 < kernel <= MAX_OVERSAMPLE
    requires BlankEnd(ColumnOf(pixels, c, y0, h), kernel)
    modifies pixels, ring
    ensures ColumnDone(pixels, old(ColumnOf(pixels, c, y0, h)), c, y0, h, kernel)
  {
    ghost var line := ColumnOf(pixels, c, y0, h);
    ClearRing(ring, line, kernel);
    var total, i := 0, 0;
    WindowAtStart(line, kernel);
    hide Holds, Window, Mean;
    while i <= h - kernel
      invariant 0 <= i <= h && ColumnDone(pixels, line, c, y0, i, kernel)
      invariant Holds(ring[..], line, i, kernel) && total == Window(line, i, kernel)
      invariant i <= h - kernel + 1 || i == 0
    {
      var sum, mean := Slide(ring, total, line, pixels[y0 + i, c], i, kernel);
      total := sum;
      pixels[y0 + i, c] := mean;
      i := i + 1;
    }
    while i < h
      invariant 0 <= i <= h < i + kernel && ColumnDone(pixels, line, c, y0, i, kernel)
      invariant Holds(ring[..], line, i, kernel) && total == Window(line, i, kernel)
    {
      var sum, mean := Fade(ring, total, line, i, kernel);
      total := sum;
      pixels[y0 + i, c] := mean;
      i := i + 1;
    }
  }

  /** A part of an image. */
  datatype Part = Part(y0: nat, x0: nat, h: nat, w: nat)
  {
    predicate Of(pixels: array2<Byte>) { y0 + h <= pixels.Length0 && x0 + w <= pixels.Length1 }

    predicate Has(r: int, c: int) { y0 <= r < y0 + h && x0 <= c < x0 + w }
  }

  /** Every sample outside the part is as it was. */
  twostate predicate OthersKept(pixels: array2<Byte>, part: Part)
    reads pixels
  {
    forall r, c :: 0 <= r < pixels.Length0 && 0 <= c < pixels.Length1 && !part.Has(r, c) ==> pixels[r, c] == old(pixels[r, c])
  }

  method FilterRows(pixels: array2<Byte>, part: Part, kernel: nat)
    requires part.Of(pixels) && 0 < kernel <= MAX_OVERSAMPLE
    requires forall r :: part.y0 <= r < part.y0 + part.h ==> BlankEnd(PartRow(pixels, r, part.x0, part.w), kernel)
    modifies pixels
    ensures OthersKept(pixels, part)
    ensures forall r, i :: part.y0 <= r < part.y0 + part.h && 0 <= i < part.w ==>
      pixels[r, part.x0 + i] == Mean(old(PartRow(pixels, r, part.x0, part.w)), i, kernel)
  {
    hide BlankEnd, Mean;
    var ring := new Byte[MAX_OVERSAMPLE](_ => 0);
    for j := 0 to part.h
      invariant OthersKept(pixels, part.(h := j))
      invariant forall r, i :: part.y0 <= r < part.y0 + j && 0 <= i < part.w ==>
        pixels[r, part.x0 + i] == Mean(old(PartRow(pixels, r, part.x0, part.w)), i, kernel)
    {
      assert PartRow(pixels, part.y0 + j, part.x0, part.w) == old(PartRow(pixels, part.y0 + j, part.x0, part.w));
      FilterRow(pixels, ring, part.y0 + j, part.x0, part.w, kernel);
    }
  }

  method FilterColumns(pixels: array2<Byte>, part: Part, kernel: nat)
    requires part.Of(pixels) && 0 < kernel <= MAX_OVERSAMPLE
    requires forall c :: part.x0 <= c < part.x0 + part.w ==> BlankEnd(ColumnOf(pixels, c, part.y0, part.h), kernel)
    modifies pixels
    ensures OthersKept(pixels, part)
    ensures forall c, i :: part.x0 <= c < part.x0 + part.w && 0 <= i < part.h ==>
      pixels[part.y0 + i, c] == Mean(old(ColumnOf(pixels, c, part.y0, part.h)), i, kernel)
  {
    hide BlankEnd, Mean;
    var ring := new Byte[MAX_OVERSAMPLE](_ => 0);
    for j := 0 to part.w
      invariant OthersKept(pixels, part.(w := j))
      invariant forall c, i :: part.x0 <= c < part.x0 + j && 0 <= i < part.h ==>
        pixels[part.y0 + i, c] == Mean(old(ColumnOf(pixels, c, part.y0, part.h)), i, kernel)
    {
      assert ColumnOf(pixels, part.x0 + j, part.y0, part.h) == old(ColumnOf(pixels, part.x0 + j, part.y0, part.h));
      FilterColumn(pixels, ring, part.x0 + j, part.y0, part.h, kernel);
    }
  }

  lemma MeanOfOne(line: seq<Byte>, i: nat)
    requires i < |line|
    ensures Mean(line, i, 1) == line[i]
  {
    assert Window(line, i + 1, 1) == Window(line, i + 1, 0) + line[i];
  }

  lemma {:induction false} WindowBlank(line: seq<Byte>, i: nat, k: nat)
    requires i <= |line| && forall j :: 0 <= j < |line| ==> line[j] == 0
    ensures Window(line, i, k) == 0
  {
    if k != 0 { WindowBlank(line, i, k - 1); }
  }

  /** The rows of a part. */
  function PartRows(pixels: array2<Byte>, part: Part): (rows: seq<seq<Byte>>)
    requires part.Of(pixels)
    reads pixels
    ensures |rows| == part.h && forall j :: 0 <= j < part.h ==> rows[j] == PartRow(pixels, part.y0 + j, part.x0, part.w)
  {
    seq(part.h, j requires 0 <= j < part.h reads pixels => PartRow(pixels, part.y0 + j, part.x0, part.w))
  }

  /** Column `i` of an image whose rows have been filtered. */
  function Across(rows: seq<seq<Byte>>, i: nat, kernel: nat): (line: seq<Byte>)
    requires kernel > 0 && forall j :: 0 <= j < |rows| ==> i < |rows[j]|
    ensures |line| == |rows|
  {
    seq(|rows|, j requires 0 <= j < |rows| => Mean(rows[j], i, kernel))
  }

  /** The glyph was drawn clear of the last columns and rows, which the filters spread into. */
  ghost predicate Drawn(pixels: array2<Byte>, part: Part, kx: nat, ky: nat)
    requires part.Of(pixels)
    reads pixels
  {
    forall r, c :: part.Has(r, c) && (c + kx > part.x0 + part.w || r + ky > part.y0 + part.h) ==> pixels[r, c] == 0
  }

  /** Rows that were blank stay blank, so the columns have the blank end that the second pass needs. */
  lemma AcrossBlankEnd(pixels: array2<Byte>, part: Part, i: nat, kx: nat, ky: nat)
    requires part.Of(pixels) && Drawn(pixels, part, kx, ky) && i < part.w && kx > 0
    ensures BlankEnd(Across(PartRows(pixels, part), i, kx), ky)
  {
    var rows := PartRows(pixels, part);
    forall j | 0 <= j < part.h && j + ky > part.h
      ensures Across(rows, i, kx)[j] == 0
    {
      forall k | 0 <= k < part.w ensures rows[j][k] == 0 {
        assert part.Has(part.y0 + j, part.x0 + k);
      }
      WindowBlank(rows[j], i + 1, kx);
    }
  }

  /** The first pass, or nothing for a kernel of one. */
  method AcrossPass(pixels: array2<Byte>, part: Part, kx: nat, ghost ky: nat)
    requires part.Of(pixels) && 0 < kx <= MAX_OVERSAMPLE && Drawn(pixels, part, kx, ky)
    modifies pixels
    ensures OthersKept(pixels, part)
    ensures forall i :: 0 <= i < part.w ==>
      ColumnOf(pixels, part.x0 + i, part.y0, part.h) == Across(old(PartRows(pixels, part)), i, kx)
  {
    hide Mean;
    ghost var rows := PartRows(pixels, part);
    if kx > 1 {
      forall r | part.y0 <= r < part.y0 + part.h
        ensures BlankEnd(PartRow(pixels, r, part.x0, part.w), kx)
      {
        forall k | 0 <= k < part.w && k + kx > part.w ensures PartRow(pixels, r, part.x0, part.w)[k] == 0 {
          assert part.Has(r, part.x0 + k);
        }
      }
      FilterRows(pixels, part, kx);
      forall i | 0 <= i < part.w
        ensures ColumnOf(pixels, part.x0 + i, part.y0, part.h) == Across(rows, i, kx)
      {
        forall j | 0 <= j < part.h
          ensures ColumnOf(pixels, part.x0 + i, part.y0, part.h)[j] == Across(rows, i, kx)[j]
        {
          assert pixels[part.y0 + j, part.x0 + i] == Mean(rows[j], i, kx);
        }
      }
    } else {
      forall i | 0 <= i < part.w
        ensures ColumnOf(pixels, part.x0 + i, part.y0, part.h) == Across(rows, i, kx)
      {
        forall j | 0 <= j < part.h
          ensures ColumnOf(pixels, part.x0 + i, part.y0, part.h)[j] == Across(rows, i, kx)[j]
        {
          MeanOfOne(rows[j], i);
        }
      }
    }
  }

  /** Both passes: each sample becomes the mean, down its column, of the means along the rows. */
  method FilterGlyph(pixels: array2<Byte>, part: Part, kx: nat, ky: nat)
    requires part.Of(pixels) && 0 < kx <= MAX_OVERSAMPLE && 0 < ky <= MAX_OVERSAMPLE
    requires Drawn(pixels, part, kx, ky)
    modifies pixels
    ensures OthersKept(pixels, part)
    ensures forall i, j :: 0 <= i < part.w && 0 <= j < part.h ==>
      pixels[part.y0 + j, part.x0 + i] == Mean(Across(old(PartRows(pixels, part)), i, kx), j, ky)
  {
    hide Mean, BlankEnd, Drawn;
    ghost var rows := PartRows(pixels, part);
    forall i | 0 <= i < part.w ensures BlankEnd(Across(rows, i, kx), ky) {
      AcrossBlankEnd(pixels, part, i, kx, ky);
    }
    AcrossPass(pixels, part, kx, ky);
    if ky > 1 {
      forall c | part.x0 <= c < part.x0 + part.w
        ensures BlankEnd(ColumnOf(pixels, c, part.y0, part.h), ky)
      {
        assert ColumnOf(pixels, part.x0 + (c - part.x0), part.y0, part.h) == Across(rows, c - part.x0, kx);
      }
      FilterColumns(pixels, part, ky);
    } else {
      forall i, j | 0 <= i < part.w && 0 <= j < part.h
        ensures pixels[part.y0 + j, part.x0 + i] == Mean(Across(rows, i, kx), j, ky)
      {
        MeanOfOne(Across(rows, i, kx), j);
        assert ColumnOf(pixels, part.x0 + i, part.y0, part.h)[j] == pixels[part.y0 + j, part.x0 + i];
      }
    }
  }
}
