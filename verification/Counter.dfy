/**
  Loops over counters of fixed width.  There are `m` counters, from `-m / 2` to `m / 2 - 1`, and a step from one
  end of them leads to the other end.  So a loop either passes its end or goes round for ever.
 */
module Counter {
  import opened Common

  predicate IsCounter(v: int, m: nat) { -(m / 2) <= v < m / 2 }

  predicate IsWidth(m: nat) { m > 0 && m % 2 == 0 }

  /** Two's complement. */
  function Wrap(n: int, m: nat): (r: int)
    requires IsWidth(m)
    ensures IsCounter(r, m)
  {
    (n + m / 2) % m - m / 2
  }

  // ----- division

  lemma DivMod(q: int, r: int, c: int)
    requires 0 <= r < c
    ensures (q * c + r) / c == q && (q * c + r) % c == r
  {
    var a := q * c + r;
    var p := a / c;
    assert a == p * c + a % c;
    if p < q { MulGap(p, q, c); } else if q < p { MulGap(q, p, c); }
  }

  // ----- wrapping

  lemma WrapOf(n: int, m: nat) returns (q: int)
    requires IsWidth(m)
    ensures n == Wrap(n, m) + q * m
  {
    q := (n + m / 2) / m;
    assert n + m / 2 == q * m + (n + m / 2) % m;
  }

  lemma WrapIs(n: int, v: int, q: int, m: nat)
    requires IsWidth(m) && IsCounter(v, m) && n == v + q * m
    ensures Wrap(n, m) == v
  {
    DivMod(q, v + m / 2, m);
  }

  lemma WrapSame(a: int, b: int, q: int, m: nat)
    requires IsWidth(m) && a == b + q * m
    ensures Wrap(a, m) == Wrap(b, m)
  {
    var p := WrapOf(b, m);
    Distribute(p, q, m);
    WrapIs(a, Wrap(b, m), p + q, m);
  }

  lemma WrapCounter(v: int, m: nat)
    requires IsWidth(m) && IsCounter(v, m)
    ensures Wrap(v, m) == v
  {
    WrapIs(v, v, 0, m);
  }

  // ----- the loops

  /** Where a loop that goes up or down is after `k` turns, if nothing wraps. */
  function Line(start: int, step: int, up: bool, k: nat): int {
    if up then start + k * step else start - k * step
  }

  /** The counter after `k` turns. */
  function At(start: int, step: int, up: bool, m: nat, k: nat): (v: int)
    requires IsWidth(m)
    ensures IsCounter(v, m)
  {
    Wrap(Line(start, step, up, k), m)
  }

  /** The loop test fails. */
  predicate Past(v: int, end: int, up: bool) { if up then v > end else v < end }

  lemma AtNext(start: int, step: int, up: bool, m: nat, k: nat)
    requires IsWidth(m)
    ensures At(start, step, up, m, k + 1) == Wrap(Line(At(start, step, up, m, k), step, up, 1), m)
  {
    var q := WrapOf(Line(start, step, up, k), m);
    Distribute(k, 1, step);
    WrapSame(Line(start, step, up, k + 1), Line(At(start, step, up, m, k), step, up, 1), q, m);
  }

  lemma AtStart(start: int, step: int, up: bool, m: nat)
    requires IsWidth(m) && IsCounter(start, m)
    ensures At(start, step, up, m, 0) == start
  {
    WrapCounter(start, m);
  }

  /** After as many turns as there are counters, the loop is where it was. */
  lemma FullCycle(start: int, step: int, up: bool, m: nat)
    requires IsWidth(m) && IsCounter(start, m)
    ensures At(start, step, up, m, m) == start
  {
    WrapIs(Line(start, step, up, m), start, if up then step else -step, m);
  }

  ghost predicate Ends(start: int, end: int, step: int, up: bool, m: nat)
    requires IsWidth(m)
  {
    exists n: nat :: Past(At(start, step, up, m, n), end, up)
  }

  /** A loop that comes back to its start before it has passed its end never does. */
  lemma {:induction false} CycleNever(start: int, end: int, step: int, up: bool, m: nat, p: nat, n: nat)
    requires IsWidth(m) && IsCounter(start, m) && p > 0 && At(start, step, up, m, p) == start
    requires forall j: nat :: j < p ==> !Past(At(start, step, up, m, j), end, up)
    ensures !Past(At(start, step, up, m, n), end, up)
    decreases n
  {
    if n >= p {
      var q := WrapOf(Line(start, step, up, p), m);
      Distribute(n - p, p, step);
      WrapSame(Line(start, step, up, n), Line(start, step, up, n - p), q, m);
      CycleNever(start, end, step, up, m, p, n - p);
    }
  }

  lemma CycleForever(start: int, end: int, step: int, up: bool, m: nat, p: nat)
    requires IsWidth(m) && IsCounter(start, m) && p > 0 && At(start, step, up, m, p) == start
    requires forall j: nat :: j < p ==> !Past(At(start, step, up, m, j), end, up)
    ensures !Ends(start, end, step, up, m)
  {
    hide At;
    forall n: nat ensures !Past(At(start, step, up, m, n), end, up) {
      CycleNever(start, end, step, up, m, p, n);
    }
  }

  /** The first turn, from the `k`th on, at which the loop ends. */
  ghost function FirstEnd(start: int, end: int, step: int, up: bool, m: nat, k: nat, n: nat): (t: nat)
    requires IsWidth(m) && k <= n && Past(At(start, step, up, m, n), end, up)
    ensures Past(At(start, step, up, m, t), end, up)
    ensures forall j: nat :: k <= j < t ==> !Past(At(start, step, up, m, j), end, up)
    decreases n - k
  {
    if Past(At(start, step, up, m, k), end, up) then k else FirstEnd(start, end, step, up, m, k + 1, n)
  }

  ghost function Turns(start: int, end: int, step: int, up: bool, m: nat): (t: nat)
    requires IsWidth(m) && Ends(start, end, step, up, m)
    ensures Past(At(start, step, up, m, t), end, up)
    ensures forall j: nat :: j < t ==> !Past(At(start, step, up, m, j), end, up)
  {
    var n: nat :| Past(At(start, step, up, m, n), end, up);
    FirstEnd(start, end, step, up, m, 0, n)
  }

  datatype Walk = Forever | Walked(values: seq<int>)

  /** The values that a loop goes through. */
  ghost function WalkOf(start: int, end: int, step: int, up: bool, m: nat): Walk
    requires IsWidth(m)
  {
    if !Ends(start, end, step, up, m) then Forever
    else Walked(seq(Turns(start, end, step, up, m), k requires 0 <= k => At(start, step, up, m, k)))
  }

  lemma WalkIs(start: int, end: int, step: int, up: bool, m: nat, n: nat)
    requires IsWidth(m) && Past(At(start, step, up, m, n), end, up)
    requires forall j: nat :: j < n ==> !Past(At(start, step, up, m, j), end, up)
    ensures WalkOf(start, end, step, up, m) == Walked(seq(n, k requires 0 <= k => At(start, step, up, m, k)))
  {
    var t := Turns(start, end, step, up, m);
    assert t == n;
  }

  // ----- when a loop ends

  /** The largest power of two that divides both; `m` is a power of two. */
  function TwoPart(step: int, m: nat): (g: nat)
    ensures g > 0
    decreases m
  {
    if m < 2 || step % 2 == 1 then 1 else 2 * TwoPart(step / 2, m / 2)
  }

  lemma {:induction false} TwoPartDivides(step: int, w: nat) returns (s: int, v: nat)
    ensures var g := TwoPart(step, Pow2(w)); step == s * g && Pow2(w) == Pow2(v) * g
    ensures v == 0 || s % 2 == 1
    decreases w
  {
    if w == 0 || step % 2 == 1 {
      s, v := step, w;
    } else {
      s, v := TwoPartDivides(step / 2, w - 1);
      var g := TwoPart(step / 2, Pow2(w - 1));
      assert TwoPart(step, Pow2(w)) == 2 * g;
      hide TwoPart, Pow2;
      Doubled(s, g);
      Doubled(Pow2(v), g);
    }
  }

  lemma Doubled(a: int, g: int)
    ensures a * (2 * g) == 2 * (a * g)
  {
  }

  lemma Scaled(n: int, s: int, q: int, c: int, p: int, g: int)
    requires n * s == q + c * p
    ensures n * (s * g) == q * g + c * (p * g)
  {
    assert n * (s * g) == (q + c * p) * g;
    Distribute(q, c * p, g);
  }

  /** The multiples of an odd number reach everything modulo a power of two. */
  lemma {:induction false} OddReaches(s: int, q: int, v: nat) returns (n: nat, c: int)
    requires v == 0 || s % 2 == 1
    ensures n * s == q + c * Pow2(v)
    decreases v
  {
    if v == 0 {
      n, c := 0, -q;
    } else {
      var n0, c0 := OddReaches(s, q, v - 1);
      var p := Pow2(v - 1);
      if c0 % 2 == 0 {
        n, c := n0, c0 / 2;
        HalfAway(c0, p);
      } else {
        n, c := n0 + p, (c0 + s) / 2;
        Distribute(n0, p, s);
        Distribute(c0, s, p);
        HalfAway(c0 + s, p);
      }
    }
  }

  lemma HalfAway(c: int, p: nat)
    requires c % 2 == 0
    ensures c * p == (c / 2) * (2 * p)
  {
    assert c == 2 * (c / 2);
  }

  /** The largest counter that is congruent to `start` modulo `g`. */
  function Top(start: int, g: nat, m: nat): int
    requires g > 0
  {
    m / 2 - 1 - (m / 2 - 1 - start) % g
  }

  function Bottom(start: int, g: nat, m: nat): int
    requires g > 0
  {
    -(m / 2) + (start + m / 2) % g
  }

  lemma CongruentBelow(start: int, c: int, g: nat, m: nat)
    requires g > 0 && start + c * g < m / 2
    ensures start + c * g <= Top(start, g, m)
  {
    var d := m / 2 - 1 - start;
    var q := d / g;
    assert d == q * g + d % g;
    if c > q { MulGap(q, c, g); }
  }

  lemma Factored(n: int, s: int, q: int, h: int, g: int)
    ensures n * (s * g) - q * (h * g) == (n * s - q * h) * g
  {
    Distribute(n * s, q * h, g);
  }

  /** No counter of the loop is above the top one. */
  lemma BelowTop(start: int, step: int, m: nat, n: nat, g: nat, s: int, h: int)
    requires IsWidth(m) && g > 0 && step == s * g && m == h * g
    ensures At(start, step, true, m, n) <= Top(start, g, m)
  {
    hide Wrap, Top;
    var q := WrapOf(start + n * step, m);
    Factored(n, s, q, h, g);
    CongruentBelow(start, n * s - q * h, g, m);
  }

  lemma TopIs(start: int, g: nat, m: nat) returns (q: int)
    requires IsWidth(m) && IsCounter(start, m) && g > 0
    ensures Top(start, g, m) == start + q * g && IsCounter(Top(start, g, m), m)
  {
    var d := m / 2 - 1 - start;
    q := d / g;
    assert d == q * g + d % g;
    assert q * g >= 0;
  }

  lemma ReachesTop(start: int, step: int, m: nat, g: nat, s: int, v: nat) returns (n: nat)
    requires IsWidth(m) && IsCounter(start, m) && g > 0 && step == s * g && m == Pow2(v) * g
    requires v == 0 || s % 2 == 1
    ensures At(start, step, true, m, n) == Top(start, g, m)
  {
    hide Pow2, Wrap, Top, IsCounter;
    var q := TopIs(start, g, m);
    var c;
    n, c := OddReaches(s, q, v);
    Scaled(n, s, q, c, Pow2(v), g);
    WrapIs(start + n * step, Top(start, g, m), c, m);
  }

  lemma UpEnds(start: int, end: int, step: int, w: nat)
    requires IsWidth(Pow2(w)) && IsCounter(start, Pow2(w))
    ensures var m := Pow2(w); Ends(start, end, step, true, m) <==> Top(start, TwoPart(step, m), m) > end
  {
    var m := Pow2(w);
    var g := TwoPart(step, m);
    var s, v := TwoPartDivides(step, w);
    hide At, Top, TwoPart;
    if Ends(start, end, step, true, m) {
      BelowTop(start, step, m, Turns(start, end, step, true, m), g, s, Pow2(v));
    }
    var n := ReachesTop(start, step, m, g, s, v);
    if Top(start, g, m) > end { assert Past(At(start, step, true, m, n), end, true); }
  }

  /** Complementing the bits turns a loop that goes down into one that goes up. */
  lemma Mirror(start: int, step: int, m: nat, k: nat)
    requires IsWidth(m)
    ensures At(-1 - start, step, true, m, k) == -1 - At(start, step, false, m, k)
  {
    var q := WrapOf(start - k * step, m);
    WrapIs(-1 - start + k * step, -1 - At(start, step, false, m, k), -q, m);
  }

  lemma MirrorEnds(start: int, end: int, step: int, m: nat)
    requires IsWidth(m)
    ensures Ends(start, end, step, false, m) <==> Ends(-1 - start, -1 - end, step, true, m)
  {
    hide At;
    if Ends(start, end, step, false, m) {
      var n: nat :| Past(At(start, step, false, m, n), end, false);
      Mirror(start, step, m, n);
      assert Past(At(-1 - start, step, true, m, n), -1 - end, true);
    }
    if Ends(-1 - start, -1 - end, step, true, m) {
      var n: nat :| Past(At(-1 - start, step, true, m, n), -1 - end, true);
      Mirror(start, step, m, n);
      assert Past(At(start, step, false, m, n), end, false);
    }
  }

  /**
    A loop ends if and only if some counter congruent to its start, modulo the largest power of two in its step,
    is past its end: the largest one, or for a loop that goes down the smallest.
   */
  lemma LoopEnds(start: int, end: int, step: int, up: bool, w: nat)
    requires IsWidth(Pow2(w)) && IsCounter(start, Pow2(w))
    ensures var m := Pow2(w);
            var g := TwoPart(step, m);
            Ends(start, end, step, up, m) <==> if up then Top(start, g, m) > end else Bottom(start, g, m) < end
  {
    if up {
      UpEnds(start, end, step, w);
    } else {
      MirrorEnds(start, end, step, Pow2(w));
      UpEnds(-1 - start, -1 - end, step, w);
    }
  }

  // ----- when a loop is the progression it looks like

  /** The arithmetic progression from `start`, as far as `end`. */
  ghost predicate IsProgression(values: seq<int>, start: int, end: int, step: int, up: bool) {
    && (forall k: nat :: k < |values| ==> values[k] == Line(start, step, up, k) && !Past(values[k], end, up))
    && Past(Line(start, step, up, |values|), end, up)
  }

  function Gap(start: int, end: int): nat { if start <= end then end - start else start - end }

  /** How many values the progression has. */
  function Count(start: int, end: int, step: int): nat
    requires step > 0
  {
    Gap(start, end) / step + 1
  }

  lemma PastWhen(start: int, end: int, step: int, up: bool, k: nat)
    requires !Past(start, end, up) && step > 0
    ensures Past(Line(start, step, up, k), end, up) <==> k >= Count(start, end, step)
  {
    var a := Gap(start, end);
    var q := a / step;
    assert a == q * step + a % step;
    if k > q { MulGap(q, k, step); } else if k < q { MulGap(k, q, step); }
  }

  /** The step is positive, and the value after the last one, wrapped, is past the end. */
  predicate StaysInRange(start: int, end: int, step: int, up: bool, m: nat)
    requires IsWidth(m)
  {
    step > 0 && Past(At(start, step, up, m, Count(start, end, step)), end, up)
  }

  /** Values of the progression are no wrapped ones. */
  lemma LineIsAt(start: int, end: int, step: int, up: bool, m: nat, k: nat)
    requires IsWidth(m) && IsCounter(start, m) && IsCounter(end, m) && !Past(start, end, up) && step > 0
    requires k < Count(start, end, step)
    ensures At(start, step, up, m, k) == Line(start, step, up, k) && !Past(At(start, step, up, m, k), end, up)
  {
    PastWhen(start, end, step, up, k);
    assert k * step >= 0;
    WrapCounter(Line(start, step, up, k), m);
  }

  lemma ProgressionWalk(start: int, end: int, step: int, up: bool, m: nat)
    requires IsWidth(m) && IsCounter(start, m) && IsCounter(end, m) && !Past(start, end, up)
    requires StaysInRange(start, end, step, up, m)
    ensures var w := WalkOf(start, end, step, up, m);
            w.Walked? && |w.values| == Count(start, end, step) && IsProgression(w.values, start, end, step, up)
  {
    var n := Count(start, end, step);
    forall k: nat | k < n ensures At(start, step, up, m, k) == Line(start, step, up, k) && !Past(At(start, step, up, m, k), end, up) {
      LineIsAt(start, end, step, up, m, k);
    }
    PastWhen(start, end, step, up, n);
    hide At, Line, Count;
    WalkIs(start, end, step, up, m, n);
  }

  /** The values are the progression if and only if the step is positive and the value after the last is past the end. */
  lemma ProgressionExactly(start: int, end: int, step: int, up: bool, m: nat)
    requires IsWidth(m) && IsCounter(start, m) && IsCounter(end, m) && !Past(start, end, up)
    ensures var w := WalkOf(start, end, step, up, m);
            w.Walked? && IsProgression(w.values, start, end, step, up) <==> StaysInRange(start, end, step, up, m)
  {
    if StaysInRange(start, end, step, up, m) { ProgressionWalk(start, end, step, up, m); }
    var w := WalkOf(start, end, step, up, m);
    if w.Walked? && IsProgression(w.values, start, end, step, up) {
      var n := |w.values|;
      NotPast(start, end, step, up, n);
      PastWhen(start, end, step, up, n);
      if n > Count(start, end, step) {
        NotPastYet(w.values, start, end, step, up, Count(start, end, step));
        PastWhen(start, end, step, up, Count(start, end, step));
      }
    }
  }

  lemma NotPast(start: int, end: int, step: int, up: bool, n: nat)
    requires !Past(start, end, up)
    ensures Past(Line(start, step, up, n), end, up) ==> step > 0
  {
    if step <= 0 { assert n * step <= 0; }
  }

  lemma NotPastYet(values: seq<int>, start: int, end: int, step: int, up: bool, k: nat)
    requires IsProgression(values, start, end, step, up) && k < |values|
    ensures !Past(Line(start, step, up, k), end, up)
  {
    assert !Past(values[k], end, up);
  }

  /** For a step that is itself a counter: if and only if the value after the last one does not overflow. */
  lemma StaysWithoutOverflow(start: int, end: int, step: int, up: bool, m: nat)
    requires IsWidth(m) && IsCounter(start, m) && IsCounter(end, m) && !Past(start, end, up) && IsCounter(step, m)
    ensures StaysInRange(start, end, step, up, m) <==> step > 0 && IsCounter(Line(start, step, up, Count(start, end, step)), m)
  {
    if step > 0 {
      var n := Count(start, end, step);
      var v := Line(start, step, up, n);
      PastWhen(start, end, step, up, n);
      PastWhen(start, end, step, up, n - 1);
      Distribute(n - 1, 1, step);
      hide Count;
      if IsCounter(v, m) { WrapCounter(v, m); }
      else if up { WrapIs(v, v - m, 1, m); }
      else { WrapIs(v, v + m, -1, m); }
    }
  }

  /** Steps that differ by a multiple of `m` make the same loop. */
  lemma AtCongruent(start: int, a: int, b: int, q: int, up: bool, m: nat, k: nat)
    requires IsWidth(m) && a == b + q * m
    ensures At(start, a, up, m, k) == At(start, b, up, m, k)
  {
    assert k * a == k * b + (k * q) * m;
    var p := if up then k * q else -(k * q);
    WrapSame(Line(start, a, up, k), Line(start, b, up, k), p, m);
  }

  lemma WalkCongruent(start: int, end: int, a: int, b: int, q: int, up: bool, m: nat)
    requires IsWidth(m) && a == b + q * m
    ensures WalkOf(start, end, a, up, m) == WalkOf(start, end, b, up, m)
  {
    forall k: nat ensures At(start, a, up, m, k) == At(start, b, up, m, k) {
      AtCongruent(start, a, b, q, up, m, k);
    }
    hide At;
    if Ends(start, end, a, up, m) {
      assert Past(At(start, b, up, m, Turns(start, end, a, up, m)), end, up);
    }
    if Ends(start, end, b, up, m) {
      WalkIs(start, end, a, up, m, Turns(start, end, b, up, m));
    }
  }
}
