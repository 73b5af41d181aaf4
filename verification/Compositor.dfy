/**
  The compositor: every visible window is blended, in slot order, into one frame, and the hit test
  picks a window by position.  The frame is one array, row after row.  Alpha arithmetic is over
  reals.
 */
module Compositor {
  import opened Common
  import opened WindowServer

  datatype Pixel = Pixel(a: Byte, r: Byte, g: Byte, b: Byte)

  const BACKGROUND := Pixel(0x1a, 0x1a, 0x1a, 0x1a)

  /** `(uint8_t)(s * a + d * (1 - a))` for an alpha strictly between 0 and 255. */
  function Mix(s: Byte, d: Byte, alpha: Byte): Byte {
    MixInRange(s, d, alpha);
    (s as real * (alpha as real / 255.0) + d as real * (1.0 - alpha as real / 255.0)).Floor
  }

  lemma MixInRange(s: Byte, d: Byte, alpha: Byte)
    ensures 0 <= (s as real * (alpha as real / 255.0) + d as real * (1.0 - alpha as real / 255.0)).Floor < 256
  {
    MixReal(s as real, d as real, alpha as real / 255.0, 1.0 - alpha as real / 255.0);
  }

  lemma MixReal(s: real, d: real, a: real, b: real)
    requires 0.0 <= s <= 255.0 && 0.0 <= d <= 255.0 && 0.0 <= a && 0.0 <= b && a + b == 1.0
    ensures 0.0 <= s * a + d * b <= 255.0
  {
    NonNegative(s, a);
    NonNegative(d, b);
    NonNegative(255.0 - s, a);
    NonNegative(255.0 - d, b);
    assert (255.0 - s) * a == 255.0 * a - s * a;
    assert (255.0 - d) * b == 255.0 * b - d * b;
  }

  lemma NonNegative(x: real, p: real)
    requires 0.0 <= x && 0.0 <= p
    ensures 0.0 <= x * p
  {
  }

  /** Each channel is the mean of the two, weighted by alpha and rounded down, so it lies between them. */
  lemma MixIsMean(s: Byte, d: Byte, alpha: Byte)
    ensures var m := Mix(s, d, alpha); 255 * m <= s * alpha + d * (255 - alpha) < 255 * (m + 1)
    ensures var m := Mix(s, d, alpha); (s <= d ==> s <= m <= d) && (d <= s ==> d <= m <= s)
  {
    var m, a := Mix(s, d, alpha), alpha as real / 255.0;
    var v := s as real * a + d as real * (1.0 - a);
    assert v == (s * alpha + d * (255 - alpha)) as real / 255.0 by { MeanReal(s, d, alpha); }
    assert m as real <= v < m as real + 1.0;
    if s <= d { MeanBetween(s, d, alpha); } else { MeanBetween(d, s, alpha); }
  }

  lemma MeanReal(s: int, d: int, alpha: int)
    ensures s as real * (alpha as real / 255.0) + d as real * (1.0 - alpha as real / 255.0) ==
            (s * alpha + d * (255 - alpha)) as real / 255.0
  {
    RealProduct(s, alpha);
    RealProduct(d, 255 - alpha);
    assert d as real * (1.0 - alpha as real / 255.0) == d as real * ((255 - alpha) as real) / 255.0;
    assert s as real * (alpha as real / 255.0) == s as real * alpha as real / 255.0;
  }

  lemma {:induction false} RealProduct(x: int, y: int)
    ensures (x * y) as real == x as real * y as real
    decreases if y < 0 then -y else y
  {
    if y > 0 {
      RealProduct(x, y - 1);
      assert x * y == x * (y - 1) + x;
    } else if y < 0 {
      RealProduct(x, y + 1);
      assert x * y == x * (y + 1) - x;
    }
  }

  lemma ProductGrows(x: int, y: int, k: nat)
    requires x <= y
    ensures x * k <= y * k
  {
    assert (y - x) * k >= 0;
    Distribute(y, x, k);
  }

  lemma MeanBetween(s: int, d: int, alpha: int)
    requires s <= d && 0 <= alpha <= 255
    ensures 255 * s <= s * alpha + d * (255 - alpha) <= 255 * d
    ensures 255 * s <= d * alpha + s * (255 - alpha) <= 255 * d
  {
    ProductGrows(s, d, alpha);
    ProductGrows(s, d, 255 - alpha);
    Distribute(255 - alpha, alpha, s);
    Distribute(255 - alpha, alpha, d);
  }

  /** A fully transparent pixel counts as opaque. */
  function Blend(src: Pixel, dst: Pixel): Pixel {
    if src.a == 255 then src
    else if src.a == 0 then src.(a := 255)
    else Pixel(255, Mix(src.r, dst.r, src.a), Mix(src.g, dst.g, src.a), Mix(src.b, dst.b, src.a))
  }

  predicate Covers(w: Window, x: int, y: int) {
    w.visible && w.x <= x < w.x + w.width && w.y <= y < w.y + w.height
  }

  /** A window's buffer has a pixel for every position the window covers. */
  predicate Backed(w: Window, src: seq<Pixel>) {
    w.visible && w.width > 0 && w.height > 0 ==> |src| == w.width * w.height
  }

  lemma InBuffer(rx: int, ry: int, width: int, height: int)
    requires 0 <= rx < width && 0 <= ry < height
    ensures 0 <= ry * width + rx < width * height
  {
    assert ry * width <= (height - 1) * width;
    assert (height - 1) * width == height * width - width;
    assert ry * width >= 0;
  }

  function PixelAt(w: Window, src: seq<Pixel>, x: int, y: int): Pixel
    requires Backed(w, src) && Covers(w, x, y)
  {
    InBuffer(x - w.x, y - w.y, w.width, w.height);
    src[(y - w.y) * w.width + (x - w.x)]
  }

  function Over(w: Window, src: seq<Pixel>, x: int, y: int, below: Pixel): Pixel
    requires Backed(w, src)
  {
    if Covers(w, x, y) then Blend(PixelAt(w, src, x, y), below) else below
  }

  ghost predicate AllBacked(ws: seq<Window>, srcs: seq<seq<Pixel>>) {
    |srcs| == |ws| && forall i :: 0 <= i < |ws| ==> Backed(ws[i], srcs[i])
  }

  /** The colour of one position after the first `n` slots have been drawn. */
  function Frame(ws: seq<Window>, srcs: seq<seq<Pixel>>, n: nat, x: int, y: int): Pixel
    requires AllBacked(ws, srcs) && n <= |ws|
  {
    if n == 0 then BACKGROUND else Over(ws[n - 1], srcs[n - 1], x, y, Frame(ws, srcs, n - 1, x, y))
  }

  // ----- the hit test

  /** The last slot whose window covers the position. */
  method FindAt(ws: seq<Window>, x: int, y: int) returns (top: int)
    ensures -1 <= top < |ws| && (top >= 0 ==> Covers(ws[top], x, y))
    ensures forall i :: top < i < |ws| ==> !Covers(ws[i], x, y)
  {
    top := -1;
    for i := 0 to |ws|
      invariant -1 <= top < i && (top >= 0 ==> Covers(ws[top], x, y))
      invariant forall k :: top < k < i ==> !Covers(ws[k], x, y)
    {
      if ws[i].visible && ws[i].x <= x < ws[i].x + ws[i].width && ws[i].y <= y < ws[i].y + ws[i].height {
        top := i;
      }
    }
  }

  predicate IsTop(ws: seq<Window>, top: int, x: int, y: int) {
    -1 <= top < |ws| && (top >= 0 ==> Covers(ws[top], x, y)) && forall i :: top < i < |ws| ==> !Covers(ws[i], x, y)
  }

  /** Above the topmost window nothing is drawn. */
  lemma {:induction false} FrameTop(ws: seq<Window>, srcs: seq<seq<Pixel>>, n: nat, top: int, x: int, y: int)
    requires AllBacked(ws, srcs) && IsTop(ws, top, x, y) && top < n <= |ws|
    ensures Frame(ws, srcs, n, x, y) == Frame(ws, srcs, top + 1, x, y)
    decreases n
  {
    hide Blend;
    if n > top + 1 { FrameTop(ws, srcs, n - 1, top, x, y); }
  }

  /** Picture and hit test agree: where the window hit is opaque or fully transparent, its colour is shown. */
  lemma PictureAgreesWithHit(ws: seq<Window>, srcs: seq<seq<Pixel>>, top: int, x: int, y: int)
    requires AllBacked(ws, srcs) && IsTop(ws, top, x, y)
    ensures top == -1 ==> Frame(ws, srcs, |ws|, x, y) == BACKGROUND
    ensures top >= 0 && PixelAt(ws[top], srcs[top], x, y).a in {0, 255} ==>
      Frame(ws, srcs, |ws|, x, y) == PixelAt(ws[top], srcs[top], x, y).(a := 255)
  {
    FrameTop(ws, srcs, |ws|, top, x, y);
  }

  // ----- painting

  lemma RowOf(k: nat, dw: nat, y: nat)
    requires dw > 0
    ensures k / dw == y <==> y * dw <= k < y * dw + dw
    ensures k / dw == y ==> k % dw == k - y * dw
  {
    var q, r := k / dw, k % dw;
    assert k == q * dw + r;
    if q < y { RowsApart(q, y, dw); }
    if q > y { RowsApart(y, q, dw); }
  }

  lemma RowsApart(a: nat, b: nat, dw: nat)
    requires a < b
    ensures a * dw + dw <= b * dw
  {
    assert (a + 1) * dw <= b * dw;
    assert (a + 1) * dw == a * dw + dw;
  }

  /** One row of a window: columns `lo` to `hi` of the window, at `dst[base + ..]`. */
  method CompositeRow(dst: array<Pixel>, base: int, w: Window, src: seq<Pixel>, row: int, lo: int, hi: int)
    requires Backed(w, src) && w.visible && 0 <= row < w.height && 0 <= lo <= hi <= w.width
    requires 0 <= base + lo && base + hi <= dst.Length
    modifies dst
    ensures forall k :: 0 <= k < dst.Length ==> dst[k] == Painted(w, src, base, row, lo, hi, k, old(dst[k]))
  {
    hide Blend;
    for x := lo to hi
      invariant forall k :: 0 <= k < dst.Length ==> dst[k] == Painted(w, src, base, row, lo, x, k, old(dst[k]))
    {
      InBuffer(x, row, w.width, w.height);
      var sp := src[row * w.width + x];
      assert sp == PixelAt(w, src, w.x + x, w.y + row);
      dst[base + x] := Blend(sp, dst[base + x]);
    }
  }

  /** What a row of painting does to one cell of the frame. */
  function Painted(w: Window, src: seq<Pixel>, base: int, row: int, lo: int, hi: int, k: int, o: Pixel): Pixel
    requires Backed(w, src) && w.visible && 0 <= row < w.height && 0 <= lo <= hi <= w.width
  {
    if base + lo <= k < base + hi then Blend(PixelAt(w, src, w.x + (k - base), w.y + row), o) else o
  }

  /** The part of a window that is on a screen of that size. */
  predicate Clip(w: Window, dw: nat, dh: nat, x0: int, x1: int, y0: int, y1: int) {
    && x0 == (if w.x < 0 then -w.x else 0) && y0 == (if w.y < 0 then -w.y else 0)
    && x1 == (if w.x + w.width > dw then dw - w.x else w.width)
    && y1 == (if w.y + w.height > dh then dh - w.y else w.height)
  }

  lemma RowPaints(w: Window, src: seq<Pixel>, dw: nat, dh: nat, x0: int, x1: int, y0: int, y1: int, row: int, k: nat, o: Pixel)
    requires dw > 0 && k < dw * dh && Backed(w, src) && w.visible && Clip(w, dw, dh, x0, x1, y0, y1)
    requires x0 < x1 && y0 <= row < y1
    ensures var base := (w.y + row) * dw + w.x;
            Painted(w, src, base, row, x0, x1, k, o) == if k / dw == w.y + row then Over(w, src, k % dw, k / dw, o) else o
  {
    hide Blend, PixelAt;
    OnScreen(k, dw, dh);
    RowOf(k, dw, w.y + row);
  }

  /** The whole window, clipped to the screen. */
  method CompositeWindow(dst: array<Pixel>, dw: nat, dh: nat, w: Window, src: seq<Pixel>)
    requires dw > 0 && dst.Length == dw * dh && Backed(w, src) && w.visible
    modifies dst
    ensures forall k :: 0 <= k < dst.Length ==> dst[k] == Over(w, src, k % dw, k / dw, old(dst[k]))
  {
    hide Blend, Over, PixelAt, Covers, Painted;
    var x0, y0 := if w.x < 0 then -w.x else 0, if w.y < 0 then -w.y else 0;
    var x1, y1 := w.width, w.height;
    if w.x + w.width > dw { x1 := dw - w.x; }
    if w.y + w.height > dh { y1 := dh - w.y; }
    ghost var o := dst[..];
    forall k | 0 <= k < dst.Length
      ensures k / dw < w.y + y0 || k / dw >= w.y + y1 || x0 >= x1 ==> Over(w, src, k % dw, k / dw, o[k]) == o[k]
    {
      OutsideClip(w, src, dw, dh, x0, x1, y0, y1, k, o[k]);
    }
    if x0 >= x1 || y0 >= y1 { return; }
    for y := y0 to y1
      invariant forall k :: 0 <= k < dst.Length ==>
        dst[k] == if k / dw < w.y + y then Over(w, src, k % dw, k / dw, o[k]) else o[k]
    {
      ghost var before := dst[..];
      RowFits(w, dw, dh, x0, x1, y0, y1, y);
      CompositeRow(dst, (w.y + y) * dw + w.x, w, src, y, x0, x1);
      forall k | 0 <= k < dst.Length
        ensures dst[k] == if k / dw < w.y + y + 1 then Over(w, src, k % dw, k / dw, o[k]) else o[k]
      {
        RowPaints(w, src, dw, dh, x0, x1, y0, y1, y, k, before[k]);
      }
    }
  }

  lemma OutsideClip(w: Window, src: seq<Pixel>, dw: nat, dh: nat, x0: int, x1: int, y0: int, y1: int, k: nat, o: Pixel)
    requires dw > 0 && k < dw * dh && Backed(w, src) && Clip(w, dw, dh, x0, x1, y0, y1)
    ensures k / dw < w.y + y0 || k / dw >= w.y + y1 || x0 >= x1 ==> Over(w, src, k % dw, k / dw, o) == o
  {
    hide Blend, PixelAt;
    OnScreen(k, dw, dh);
  }

  lemma RowFits(w: Window, dw: nat, dh: nat, x0: int, x1: int, y0: int, y1: int, row: int)
    requires Clip(w, dw, dh, x0, x1, y0, y1) && x0 < x1 && y0 <= row < y1
    ensures 0 <= x0 && x1 <= w.width && 0 <= row < w.height
    ensures var base := (w.y + row) * dw + w.x; 0 <= base + x0 && base + x1 <= dw * dh
  {
    InBuffer(w.x + x0, w.y + row, dw, dh);
    InBuffer(w.x + x1 - 1, w.y + row, dw, dh);
  }

  lemma OnScreen(k: nat, dw: nat, dh: nat)
    requires dw > 0 && k < dw * dh
    ensures 0 <= k % dw < dw && 0 <= k / dw < dh
  {
    RowOf(k, dw, k / dw);
    if k / dw > dh { RowsApart(dh, k / dw, dw); }
  }

  /** A window whose latest contents are on the screen. */
  function Shown(w: Window): Window { if w.visible then w.(pendingCommit := false) else w }

  /** A repaint: the background, then every visible window in slot order, which is no longer pending. */
  method Repaint(dst: array<Pixel>, dw: nat, dh: nat, windows: array<Window>, srcs: seq<seq<Pixel>>)
    requires dw > 0 && dst.Length == dw * dh && AllBacked(windows[..], srcs)
    modifies dst, windows
    ensures forall k :: 0 <= k < dst.Length ==> dst[k] == Frame(old(windows[..]), srcs, windows.Length, k % dw, k / dw)
    ensures forall i :: 0 <= i < windows.Length ==> windows[i] == Shown(old(windows[i]))
  {
    hide Over;
    ghost var ws := windows[..];
    for k := 0 to dst.Length
      invariant forall j :: 0 <= j < k ==> dst[j] == BACKGROUND
      invariant windows[..] == ws
    {
      dst[k] := BACKGROUND;
    }
    for i := 0 to windows.Length
      invariant forall k :: 0 <= k < dst.Length ==> dst[k] == Frame(ws, srcs, i, k % dw, k / dw)
      invariant forall k :: 0 <= k < windows.Length ==> windows[k] == if k < i then Shown(ws[k]) else ws[k]
    {
      if !windows[i].visible {
        HiddenIsSkipped(ws[i], srcs[i]);
        continue;
      }
      CompositeWindow(dst, dw, dh, windows[i], srcs[i]);
      windows[i] := windows[i].(pendingCommit := false);
    }
  }

  predicate IsDirty(ws: seq<Window>) { exists i :: 0 <= i < |ws| && ws[i].visible && ws[i].pendingCommit }

  /** The repaint part of a frame: only when a visible window has new contents, and then none is left with any. */
  method Render(dst: array<Pixel>, dw: nat, dh: nat, windows: array<Window>, srcs: seq<seq<Pixel>>) returns (anyDirty: bool)
    requires dw > 0 && dst.Length == dw * dh && AllBacked(windows[..], srcs)
    modifies dst, windows
    ensures anyDirty == IsDirty(old(windows[..])) && !IsDirty(windows[..])
    ensures !anyDirty ==> dst[..] == old(dst[..]) && windows[..] == old(windows[..])
    ensures anyDirty ==> forall k :: 0 <= k < dst.Length ==> dst[k] == Frame(old(windows[..]), srcs, windows.Length, k % dw, k / dw)
  {
    hide Frame;
    anyDirty := false;
    for i := 0 to windows.Length
      invariant !anyDirty && forall k :: 0 <= k < i ==> !(windows[k].visible && windows[k].pendingCommit)
      invariant windows[..] == old(windows[..]) && dst[..] == old(dst[..])
    {
      if windows[i].visible && windows[i].pendingCommit {
        anyDirty := true;
        assert windows[..][i].visible;
        break;
      }
    }
    if anyDirty {
      Repaint(dst, dw, dh, windows, srcs);
    }
  }

  lemma HiddenIsSkipped(w: Window, src: seq<Pixel>)
    requires !w.visible
    ensures forall x, y, below :: Over(w, src, x, y, below) == below
  {
  }

  // ----- the pointer

  function Clamp(v: int, size: int): int {
    if v < 0 then 0 else if v >= size then size - 1 else v
  }

  class Pointer {
    var cursorX: int
    var cursorY: int
    var focusedWindowId: int
    var hasMouseEvent: bool

    /**
      A mouse event moves the cursor, which stays on the screen, and gives the focus to the window on top
      there; the event is then gone.  What the screen shows under the cursor is that window, where it is opaque.
     */
    method RouteInput(mouseX: int, mouseY: int, ws: seq<Window>, ghost srcs: seq<seq<Pixel>>, dw: nat, dh: nat)
      returns (ghost top: int)
      requires dw > 0 && dh > 0 && AllBacked(ws, srcs)
      modifies this
      ensures !hasMouseEvent
      ensures !old(hasMouseEvent) ==> cursorX == old(cursorX) && cursorY == old(cursorY) && focusedWindowId == old(focusedWindowId)
      ensures old(hasMouseEvent) ==> cursorX == Clamp(mouseX, dw) && cursorY == Clamp(mouseY, dh)
      ensures old(hasMouseEvent) ==> 0 <= cursorX < dw && 0 <= cursorY < dh && IsTop(ws, top, cursorX, cursorY)
      ensures old(hasMouseEvent) ==> focusedWindowId == if top >= 0 then ws[top].id else -1
      ensures old(hasMouseEvent) && top == -1 ==> Frame(ws, srcs, |ws|, cursorX, cursorY) == BACKGROUND
      ensures old(hasMouseEvent) && top >= 0 && PixelAt(ws[top], srcs[top], cursorX, cursorY).a in {0, 255} ==>
        Frame(ws, srcs, |ws|, cursorX, cursorY) == PixelAt(ws[top], srcs[top], cursorX, cursorY).(a := 255)
    {
      top := -1;
      if hasMouseEvent {
        cursorX, cursorY := mouseX, mouseY;
        if cursorX < 0 { cursorX := 0; }
        if cursorY < 0 { cursorY := 0; }
        if cursorX >= dw { cursorX := dw - 1; }
        if cursorY >= dh { cursorY := dh - 1; }
        var win := FindAt(ws, cursorX, cursorY);
        top := win;
        PictureAgreesWithHit(ws, srcs, win, cursorX, cursorY);
        if win >= 0 {
          focusedWindowId := ws[win].id;
        } else {
          focusedWindowId := -1;
        }
        hasMouseEvent := false;
      }
    }
  }
}
