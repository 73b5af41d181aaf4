/**
  Ranges in braces: `1..9`, `01..10..3`, `a..e`.  The loops over numbers count in 64 bits and those over letters
  in 32, so a counter may wrap around before it passes the end of its range.
 */
module BraceRange {
  import C = Counter
  import opened Common

  // ----- numbers as text

  predicate IsDigit(c: char) { '0' <= c <= '9' }

  function DigitValue(c: char): nat
    requires IsDigit(c)
  {
    (c - '0') as nat
  }

  function Digits(s: string): Option<nat> {
    if s == "" then Some(0)
    else
      var front := Digits(s[..|s| - 1]);
      if front.None? || !IsDigit(s[|s| - 1]) then None else Some(front.value * 10 + DigitValue(s[|s| - 1]))
  }

  const MIN_INT := -0x8000_0000_0000_0000
  const MAX_INT := 0x7FFF_FFFF_FFFF_FFFF
  const MAX_RUNE := 0x7FFF_FFFF

  /** A decimal number with an optional sign, if it fits 64 bits. */
  function Atoi(s: string): (r: Option<int>)
    ensures r.Some? ==> MIN_INT <= r.value <= MAX_INT
  {
    var signed := s != "" && (s[0] == '-' || s[0] == '+');
    var digits := if signed then s[1..] else s;
    if digits == "" then None
    else
      var n := Digits(digits);
      if n.None? then None
      else
        var v: int := if signed && s[0] == '-' then -(n.value as int) else n.value;
        if MIN_INT <= v <= MAX_INT then Some(v) else None
  }

  function Digit(n: nat): char
    requires n < 10
  {
    '0' + n as char
  }

  function Decimal(n: nat): string {
    if n < 10 then [Digit(n)] else Decimal(n / 10) + [Digit(n % 10)]
  }

  function FormatInt(n: int): string { if n < 0 then "-" + Decimal(-n) else Decimal(n) }

  function Zeros(n: nat): string { if n == 0 then "" else "0" + Zeros(n - 1) }

  function PadInt(n: int, width: nat): string {
    var s := FormatInt(n);
    if width > 0 && |s| < width then Zeros(width - |s|) + s else s
  }

  /** Printing and reading a number are inverse to each other. */
  lemma {:induction false} DigitsOfDecimal(n: nat)
    ensures Decimal(n) != "" && Digits(Decimal(n)) == Some(n)
  {
    var s := Decimal(n);
    if n < 10 {
      assert s[..0] == "";
    } else {
      DigitsOfDecimal(n / 10);
      assert s[..|s| - 1] == Decimal(n / 10);
    }
  }

  lemma {:induction false} DigitsOfZeros(k: nat, s: string)
    requires s != "" && Digits(s).Some?
    ensures Digits(Zeros(k) + s) == Digits(s)
    decreases k, |s|
  {
    if k == 0 {
      assert Zeros(0) + s == s;
    } else {
      var t := Zeros(k) + s;
      assert t[..|t| - 1] == Zeros(k) + s[..|s| - 1];
      if |s| == 1 {
        assert s[..0] == "" && t[..|t| - 1] == Zeros(k);
        DigitsAllZero(k);
      } else {
        DigitsOfZeros(k, s[..|s| - 1]);
      }
    }
  }

  lemma {:induction false} ZerosLast(k: nat)
    requires k > 0
    ensures |Zeros(k)| == k && Zeros(k)[k - 1] == '0' && Zeros(k)[..k - 1] == Zeros(k - 1)
  {
    if k > 1 { ZerosLast(k - 1); }
  }

  lemma {:induction false} DigitsAllZero(k: nat)
    ensures Digits(Zeros(k)) == Some(0)
  {
    if k != 0 {
      ZerosLast(k);
      DigitsAllZero(k - 1);
    }
  }

  predicate Plain(s: string) { forall i :: 0 <= i < |s| ==> IsDigit(s[i]) || s[i] == '-' }

  lemma {:induction false} DecimalPlain(n: nat)
    ensures Plain(Decimal(n))
  {
    if n >= 10 { DecimalPlain(n / 10); }
  }

  lemma {:induction false} ZerosPlain(n: nat)
    ensures Plain(Zeros(n))
  {
    if n > 0 { ZerosPlain(n - 1); }
  }

  /** A padded number is digits and a sign, so it opens no brace. */
  lemma PadPlain(n: int, width: nat)
    ensures Plain(PadInt(n, width))
  {
    DecimalPlain(if n < 0 then -n else n);
    hide Decimal, Zeros;
    var s := FormatInt(n);
    if width > 0 && |s| < width { ZerosPlain(width - |s|); }
  }

  /** A padded number reads back as the number, unless the zeros are put before its sign. */
  lemma PadReads(n: int, width: nat)
    requires MIN_INT <= n <= MAX_INT
    ensures Atoi(PadInt(n, width)) == Some(n) <==> n >= 0 || |FormatInt(n)| >= width
  {
    var s := FormatInt(n);
    DigitsOfDecimal(if n < 0 then -n else n);
    if width > 0 && |s| < width {
      var z := Zeros(width - |s|);
      ZerosLast(width - |s|);
      if n >= 0 {
        DigitsOfZeros(width - |s|, s);
        DecimalPlain(n);
        ZerosPlain(width - |s|);
        assert (z + s)[0] == '0';
      } else {
        SignInside(z, s);
      }
    } else if n < 0 {
      assert s[1..] == Decimal(-n);
    } else {
      DecimalPlain(n);
      DecimalStart(n);
    }
  }

  lemma {:induction false} DecimalStart(n: nat)
    ensures Decimal(n) != "" && IsDigit(Decimal(n)[0])
  {
    if n >= 10 { DecimalStart(n / 10); }
  }

  lemma {:induction false} SignInside(z: string, s: string)
    requires z != "" && z[0] == '0' && s != "" && s[0] == '-'
    ensures Atoi(z + s) == None
  {
    assert (z + s)[0] == '0' && (z + s)[|z|] == '-';
    NotDigits(z + s, |z|);
  }

  lemma {:induction false} NotDigits(s: string, i: nat)
    requires i < |s| && !IsDigit(s[i])
    ensures Digits(s) == None
  {
    if i < |s| - 1 { NotDigits(s[..|s| - 1], i); }
  }

  // ----- what a range says

  /** The index of the first `..`, or the length. */
  function DotsAt(s: string): (i: nat)
    ensures i <= |s| && (i < |s| ==> i + 2 <= |s| && s[i] == '.' && s[i + 1] == '.')
  {
    if |s| < 2 then |s|
    else if s[0] == '.' && s[1] == '.' then 0
    else 1 + DotsAt(s[1..])
  }

  predicate IsLetter(c: char) { 'a' <= c <= 'z' || 'A' <= c <= 'Z' }

  predicate IsOneLetter(s: string) { |s| == 1 && IsLetter(s[0]) }

  datatype Spec = NotRange | IntRange(start: int, end: int, step: int, width: nat) | CharRange(first: char, last: char, step: int)

  /** The zero-padded width, which the text of the start gives. */
  function WidthOf(startText: string): nat {
    if |startText| > 1 && startText[0] == '0' then |startText| else 0
  }

  function EndsAndStep(startText: string, endText: string, step: int): Spec {
    var start, end := Atoi(startText), Atoi(endText);
    if start.Some? && end.Some? then IntRange(start.value, end.value, step, WidthOf(startText))
    else if IsOneLetter(startText) && IsOneLetter(endText) then CharRange(startText[0], endText[0], step)
    else NotRange
  }

  /** Numbers of 64 bits, and letters. */
  predicate Readable(spec: Spec) {
    match spec
    case NotRange => true
    case IntRange(start, end, step, _) => Int64(start) && Int64(end) && Int64(step)
    case CharRange(first, last, step) => IsLetter(first) && IsLetter(last) && Int64(step)
  }

  predicate Int64(n: int) { MIN_INT <= n <= MAX_INT }

  function ReadRange(content: string): (r: Spec)
    ensures Readable(r)
  {
    var i := DotsAt(content);
    if i == |content| then NotRange
    else
      var rest := content[i + 2..];
      var j := DotsAt(rest);
      if j == |rest| then EndsAndStep(content[..i], rest, 1)
      else
        var step := Atoi(rest[j + 2..]);
        if step.None? || step.value == 0 then NotRange else EndsAndStep(content[..i], rest[..j], step.value)
  }

  // ----- what a range expands to

  const INT_SPAN := 0x1_0000_0000_0000_0000
  const RUNE_SPAN := 0x1_0000_0000

  /** Conversion to a 32-bit rune. */
  function Rune(n: int): int { C.Wrap(n, RUNE_SPAN) }

  function RuneText(v: int): (s: string)
    ensures |s| == 1
  {
    if 0 <= v < 0xD800 || 0xE000 <= v < 0x11_0000 then [v as char] else ['\U{FFFD}']
  }

  datatype Ranged = NoRange | Endless | Values(words: seq<string>)

  function IntWords(w: C.Walk, width: nat): Ranged {
    if w.Forever? then Endless
    else Values(seq(|w.values|, k requires 0 <= k < |w.values| => PadInt(w.values[k], width)))
  }

  function CharWords(w: C.Walk): Ranged {
    if w.Forever? then Endless
    else Values(seq(|w.values|, k requires 0 <= k < |w.values| => RuneText(w.values[k])))
  }

  /** The loop of a range: it goes up or down, as its start and its end say, in 64 or in 32 bits. */
  datatype Loop = Loop(start: int, end: int, step: int, m: nat)
  {
    predicate Ok() { C.IsWidth(m) && C.IsCounter(start, m) && C.IsCounter(end, m) }

    predicate Up() { start <= end }

    ghost function Walk(): C.Walk
      requires Ok()
    {
      C.WalkOf(start, end, step, Up(), m)
    }

    /** Some counter that the loop can reach is past its end. */
    predicate Passes() {
      var g := C.TwoPart(step, m);
      if Up() then C.Top(start, g, m) > end else C.Bottom(start, g, m) < end
    }

    predicate Stays()
      requires Ok()
    {
      C.StaysInRange(start, end, step, Up(), m)
    }
  }

  function LoopOf(spec: Spec): (r: Loop)
    requires Readable(spec) && !spec.NotRange?
    ensures r.Ok()
  {
    match spec
    case IntRange(start, end, step, _) => Loop(start, end, step, INT_SPAN)
    case CharRange(first, last, step) => Loop(first as int, last as int, step, RUNE_SPAN)
  }

  ghost function Range(content: string): Ranged {
    match ReadRange(content)
    case NotRange => NoRange
    case IntRange(start, end, step, width) => IntWords(LoopOf(ReadRange(content)).Walk(), width)
    case CharRange(first, last, step) => CharWords(LoopOf(ReadRange(content)).Walk())
  }

  lemma Spans()
    ensures INT_SPAN == Pow2(64) && RUNE_SPAN == Pow2(32)
  {
    assert Pow2(4) == 0x10 && Pow2(8) == 0x100 && Pow2(12) == 0x1000 && Pow2(16) == 0x1_0000;
    assert Pow2(20) == 0x10_0000 && Pow2(24) == 0x100_0000 && Pow2(28) == 0x1000_0000 && Pow2(32) == RUNE_SPAN;
    assert Pow2(36) == 0x10_0000_0000 && Pow2(40) == 0x100_0000_0000 && Pow2(44) == 0x1000_0000_0000;
    assert Pow2(48) == 0x1_0000_0000_0000 && Pow2(52) == 0x10_0000_0000_0000 && Pow2(56) == 0x100_0000_0000_0000;
    assert Pow2(60) == 0x1000_0000_0000_0000;
  }

  /**
    Expanding a range ends if and only if some counter congruent to its start, modulo the largest power of two in
    its step, is past its end.
   */
  lemma RangeEndsExactly(content: string)
    ensures Range(content) == Endless <==> !ReadRange(content).NotRange? && !LoopOf(ReadRange(content)).Passes()
  {
    var spec := ReadRange(content);
    if !spec.NotRange? {
      var l := LoopOf(spec);
      Spans();
      hide C.Ends, C.Top, C.Bottom, C.TwoPart, Pow2, PadInt, RuneText, ReadRange;
      C.LoopEnds(l.start, l.end, l.step, l.Up(), if spec.IntRange? then 64 else 32);
    }
  }

  /** It goes through the progression from its start to its end if and only if its loop does not wrap on the way. */
  lemma RangeIsProgression(content: string)
    requires !ReadRange(content).NotRange?
    ensures var l := LoopOf(ReadRange(content));
            l.Walk().Walked? && C.IsProgression(l.Walk().values, l.start, l.end, l.step, l.Up()) <==> l.Stays()
  {
    var l := LoopOf(ReadRange(content));
    hide ReadRange, C.IsProgression, C.WalkOf;
    C.ProgressionExactly(l.start, l.end, l.step, l.Up(), l.m);
  }

  /** For numbers: if and only if the step is positive and the value after the last one does not overflow. */
  lemma IntsStay(content: string)
    requires ReadRange(content).IntRange?
    ensures var l := LoopOf(ReadRange(content));
            l.Stays() <==> l.step > 0 && C.IsCounter(C.Line(l.start, l.step, l.Up(), C.Count(l.start, l.end, l.step)), l.m)
  {
    var l := LoopOf(ReadRange(content));
    hide C.Line, C.Count, C.StaysInRange;
    C.StaysWithoutOverflow(l.start, l.end, l.step, l.Up(), l.m);
  }

  // ----- which ranges open a brace

  const BRACE := '{' as int

  /** Letters that go down by a negative step go up instead, and may come to the opening brace behind `z`. */
  predicate ComesToBrace(spec: Spec) {
    && spec.CharRange? && spec.first > spec.last && Rune(spec.step) < 0
    && (BRACE - spec.first as int) % -Rune(spec.step) == 0
  }

  /** Such a loop goes on to the last rune and ends when it wraps. */
  lemma RisingWalk(start: int, end: int, step: int, s: int) returns (n: nat)
    requires 0 <= end < start < MAX_RUNE && Rune(step) < 0 && s == -Rune(step)
    ensures var w := C.WalkOf(start, end, step, false, RUNE_SPAN);
            && w.Walked? && |w.values| == n
            && (forall k: nat :: k < n ==> w.values[k] == C.Line(start, s, true, k))
            && forall k: nat :: k < n <==> C.Line(start, s, true, k) <= MAX_RUNE
  {
    var t := Rune(step);
    n := C.Count(start, MAX_RUNE, s);
    forall k: nat ensures k < n <==> C.Line(start, s, true, k) <= MAX_RUNE {
      C.PastWhen(start, MAX_RUNE, s, true, k);
    }
    forall k: nat | k < n
      ensures C.At(start, t, false, RUNE_SPAN, k) == C.Line(start, s, true, k)
      ensures !C.Past(C.At(start, t, false, RUNE_SPAN, k), end, false)
    {
      RisingAt(start, end, s, k);
    }
    LastRising(start, n, s);
    var q := C.WrapOf(step, RUNE_SPAN);
    hide C.At, C.Count, C.Line, Rune;
    C.WalkCongruent(start, end, step, t, q, false, RUNE_SPAN);
    C.WalkIs(start, end, t, false, RUNE_SPAN, n);
  }

  lemma RisingAt(start: int, end: int, s: int, k: nat)
    requires 0 <= end < start && s > 0 && C.Line(start, s, true, k) <= MAX_RUNE
    ensures C.At(start, -s, false, RUNE_SPAN, k) == C.Line(start, s, true, k)
    ensures !C.Past(C.At(start, -s, false, RUNE_SPAN, k), end, false)
  {
    Negated(start, k, s);
    assert k * s >= 0;
    C.WrapCounter(start + k * s, RUNE_SPAN);
  }

  lemma Negated(start: int, k: int, s: int)
    ensures start - k * -s == start + k * s
  {
  }

  lemma LastRising(start: int, n: nat, s: int)
    requires 0 < s <= RUNE_SPAN / 2 && n > 0 && C.Line(start, s, true, n - 1) <= MAX_RUNE < C.Line(start, s, true, n)
    ensures C.At(start, -s, false, RUNE_SPAN, n) < 0
  {
    Distribute(n, 1, s);
    Negated(start, n, s);
    C.WrapIs(start + n * s, start + n * s - RUNE_SPAN, 1, RUNE_SPAN);
  }

  /** A positive step leads down to the end, and no further. */
  lemma FallingWalk(start: int, end: int, step: int)
    requires 0 <= end < start <= MAX_RUNE && Rune(step) > 0
    ensures var w := C.WalkOf(start, end, step, false, RUNE_SPAN);
            w.Walked? && forall k: nat :: k < |w.values| ==> w.values[k] <= start
  {
    var t := Rune(step);
    var n := C.Count(start, end, t);
    C.PastWhen(start, end, t, false, n);
    C.PastWhen(start, end, t, false, n - 1);
    Distribute(n - 1, 1, t);
    C.WrapCounter(start - n * t, RUNE_SPAN);
    C.ProgressionWalk(start, end, t, false, RUNE_SPAN);
    var w := C.WalkOf(start, end, t, false, RUNE_SPAN);
    forall k: nat | k < |w.values| ensures w.values[k] <= start {
      assert k * t >= 0;
    }
    hide C.WalkOf;
    var q := C.WrapOf(step, RUNE_SPAN);
    C.WalkCongruent(start, end, step, t, q, false, RUNE_SPAN);
  }

  lemma StandingWalk(start: int, end: int, step: int, up: bool)
    requires C.IsCounter(start, RUNE_SPAN) && !C.Past(start, end, up) && Rune(step) == 0
    ensures C.WalkOf(start, end, step, up, RUNE_SPAN).Forever?
  {
    var q := C.WrapOf(step, RUNE_SPAN);
    C.WalkCongruent(start, end, step, 0, q, up, RUNE_SPAN);
    C.WrapCounter(start, RUNE_SPAN);
    hide C.Wrap;
    assert !C.Ends(start, end, 0, up, RUNE_SPAN);
  }

  /** Some value of the walk is the brace if and only if the step leads there. */
  lemma BraceAmong(spec: Spec)
    requires Readable(spec) && spec.CharRange? && LoopOf(spec).Walk().Walked?
    ensures BRACE in LoopOf(spec).Walk().values <==> ComesToBrace(spec)
  {
    var l := LoopOf(spec);
    var values, t := l.Walk().values, Rune(spec.step);
    if l.Up() {
    } else if t > 0 {
      FallingWalk(l.start, l.end, l.step);
      hide C.WalkOf;
      assert forall k: nat :: k < |values| ==> values[k] <= l.start < BRACE;
    } else if t == 0 {
      StandingWalk(l.start, l.end, l.step, false);
    } else {
      var n := RisingWalk(l.start, l.end, l.step, -t);
      hide C.WalkOf;
      Divides(l.start, -t, n, values);
    }
  }

  lemma Divides(start: int, s: int, n: nat, values: seq<int>)
    requires s > 0 && start < BRACE && |values| == n
    requires forall k: nat :: k < n ==> values[k] == C.Line(start, s, true, k)
    requires forall k: nat :: k < n <==> C.Line(start, s, true, k) <= MAX_RUNE
    ensures BRACE in values <==> (BRACE - start) % s == 0
  {
    if BRACE in values {
      var k: nat :| k < n && values[k] == BRACE;
      C.DivMod(k, 0, s);
    }
    if (BRACE - start) % s == 0 {
      var k := (BRACE - start) / s;
      assert BRACE - start == k * s;
      assert C.Line(start, s, true, k) == BRACE;
      assert k < n && values[k] == BRACE;
    }
  }

  /** A word of a range is one character, or digits and a sign. */
  lemma RangeWords(content: string)
    requires Range(content).Values?
    ensures DotsAt(content) < |content|
    ensures forall w :: w in Range(content).words ==> |w| == 1 || Plain(w)
  {
    var spec, words := ReadRange(content), Range(content).words;
    hide C.WalkOf, PadInt, Atoi, DotsAt, Plain, RuneText;
    forall w | w in words ensures |w| == 1 || Plain(w) {
      var k :| 0 <= k < |words| && words[k] == w;
      if spec.IntRange? { PadPlain(LoopOf(spec).Walk().values[k], spec.width); }
    }
  }

  /** A word of a range is an opening brace, or has none in it; and when there is one. */
  lemma RangeOpens(content: string)
    requires Range(content).Values?
    ensures forall w :: w in Range(content).words ==> '{' !in w || w == "{"
    ensures "{" in Range(content).words <==> ComesToBrace(ReadRange(content))
  {
    var spec, words := ReadRange(content), Range(content).words;
    hide ReadRange, C.WalkOf, PadInt, Rune;
    if spec.IntRange? {
      forall w | w in words ensures '{' !in w {
        var k :| 0 <= k < |words| && words[k] == w;
        PadPlain(LoopOf(spec).Walk().values[k], spec.width);
      }
    } else {
      var values := LoopOf(spec).Walk().values;
      BraceAmong(spec);
      if "{" in words {
        var k :| 0 <= k < |words| && words[k] == "{";
        assert RuneText(values[k])[0] == '{';
        assert values[k] == BRACE;
      }
      if BRACE in values {
        var k :| 0 <= k < |values| && values[k] == BRACE;
        assert words[k] == ['{'];
      }
    }
  }

  // ----- some ranges

  lemma {:induction false} DotsBehind(a: string, rest: string)
    requires '.' !in a
    ensures DotsAt(a + (".." + rest)) == |a|
  {
    if a == "" {
      assert a + (".." + rest) == ".." + rest;
    } else {
      assert (a + (".." + rest))[1..] == a[1..] + (".." + rest);
      DotsBehind(a[1..], rest);
    }
  }

  lemma {:induction false} NoDots(a: string)
    requires '.' !in a
    ensures DotsAt(a) == |a|
  {
    if |a| >= 2 { NoDots(a[1..]); }
  }

  lemma ReadTwo(a: string, b: string)
    requires '.' !in a && '.' !in b
    ensures ReadRange(a + (".." + b)) == EndsAndStep(a, b, 1)
  {
    DotsBehind(a, b);
    NoDots(b);
    hide DotsAt, EndsAndStep, Atoi;
    var content := a + (".." + b);
    assert content[..|a|] == a && content[|a| + 2..] == b;
  }

  lemma ReadThree(a: string, b: string, d: string, step: int)
    requires '.' !in a && '.' !in b && Atoi(d) == Some(step) && step != 0
    ensures ReadRange(a + (".." + (b + (".." + d)))) == EndsAndStep(a, b, step)
  {
    var rest := b + (".." + d);
    DotsBehind(a, rest);
    DotsBehind(b, d);
    hide DotsAt, EndsAndStep, Atoi;
    var content := a + (".." + rest);
    assert content[..|a|] == a && content[|a| + 2..] == rest;
    assert rest[..|b|] == b && rest[|b| + 2..] == d;
  }

  lemma OneDigit(c: char)
    requires IsDigit(c)
    ensures Digits([c]) == Some(DigitValue(c))
  {
    assert [c][..0] == "";
  }

  lemma NotNumber(c: char)
    requires IsLetter(c)
    ensures Atoi([c]) == None
  {
    NotDigits([c], 0);
  }

  lemma AtoiDecimal(n: nat)
    requires n <= MAX_INT
    ensures Atoi(Decimal(n)) == Some(n)
  {
    DigitsOfDecimal(n);
    DecimalStart(n);
  }

  /** Letters with any step. */
  lemma ReadLetters(first: char, last: char, d: string, step: int)
    requires IsLetter(first) && IsLetter(last) && Atoi(d) == Some(step) && step != 0
    ensures ReadRange([first] + (".." + ([last] + (".." + d)))) == CharRange(first, last, step)
  {
    NotNumber(first);
    hide Atoi;
    ReadThree([first], [last], d, step);
  }

  /** A step that is a multiple of 2^32 makes a range of letters stand still. */
  lemma EndlessLetters(first: char, last: char, step: nat)
    requires IsLetter(first) && IsLetter(last) && 0 < step <= MAX_INT && step % RUNE_SPAN == 0
    ensures Range([first] + (".." + ([last] + (".." + Decimal(step))))) == Endless
  {
    AtoiDecimal(step);
    ReadLetters(first, last, Decimal(step), step);
    var l := LoopOf(CharRange(first, last, step));
    C.WrapIs(step, 0, step / RUNE_SPAN, RUNE_SPAN);
    StandingWalk(l.start, l.end, l.step, l.Up());
    hide C.WalkOf, ReadRange, Decimal;
  }

  lemma NextDigit(n: nat, d: nat)
    requires n > 0 && d < 10
    ensures Decimal(10 * n + d) == Decimal(n) + [Digit(d)]
  {
  }

  lemma WideStep()
    ensures Decimal(RUNE_SPAN) == "4294967296"
  {
    assert Decimal(4) == "4";
    hide Decimal;
    NextDigit(4, 2);
    NextDigit(42, 9);
    NextDigit(429, 4);
    NextDigit(4294, 9);
    NextDigit(42949, 6);
    NextDigit(429496, 7);
    NextDigit(4294967, 2);
    NextDigit(42949672, 9);
    NextDigit(429496729, 6);
  }

  lemma EndlessRange()
    ensures Range("a..c..4294967296") == Endless
  {
    assert IsLetter('a') && IsLetter('c');
    hide *;
    WideStep();
    EndlessLetters('a', 'c', RUNE_SPAN);
    WideText();
  }

  lemma WideText()
    ensures ['a'] + (".." + (['c'] + (".." + "4294967296"))) == "a..c..4294967296"
  {
    assert ".." + "4294967296" == "..4294967296";
    assert ['c'] + "..4294967296" == "c..4294967296";
    assert ".." + "c..4294967296" == "..c..4294967296";
  }

  /** A step that goes away from the end: the loop ends at the other end of the numbers. */
  lemma NegativeStep()
    ensures ReadRange("1..3..-1") == IntRange(1, 3, -1, 0)
    ensures Range("1..3..-1").Values? && !LoopOf(ReadRange("1..3..-1")).Stays()
  {
    NegativeRead();
    assert C.TwoPart(-1, INT_SPAN) == 1;
    var l := LoopOf(IntRange(1, 3, -1, 0));
    assert l.Passes() && !l.Stays();
    RangeEndsExactly("1..3..-1");
    hide ReadRange, Atoi, C.WalkOf, PadInt;
  }

  lemma NegativeRead()
    ensures ReadRange("1..3..-1") == IntRange(1, 3, -1, 0)
  {
    SmallNumbers();
    hide Atoi, ReadRange;
    ReadThree("1", "3", "-1", -1);
    assert "1" + (".." + ("3" + (".." + "-1"))) == "1..3..-1";
  }

  lemma SmallNumbers()
    ensures Atoi("-1") == Some(-1) && Atoi("1") == Some(1) && Atoi("3") == Some(3)
  {
    OneDigit('1');
    OneDigit('3');
    assert "-1"[1..] == ['1'] && "1" == ['1'] && "3" == ['3'];
  }

  /** Down from `c` by -24 is up to the opening brace. */
  lemma BraceRangeOut()
    ensures Range("c..a..-24").Values? && "{" in Range("c..a..-24").words
  {
    RisingRead();
    RisingWalks();
    hide ReadRange, Atoi, C.WalkOf, Rune, PadInt, RuneText, ComesToBrace;
    RangeOpens("c..a..-24");
  }

  lemma RisingWalks()
    ensures LoopOf(CharRange('c', 'a', -24)).Walk().Walked? && ComesToBrace(CharRange('c', 'a', -24))
  {
    C.WrapCounter(-24, RUNE_SPAN);
    var n := RisingWalk('c' as int, 'a' as int, -24, 24);
    hide C.WalkOf;
  }

  lemma RisingRead()
    ensures ReadRange("c..a..-24") == CharRange('c', 'a', -24)
  {
    TwoDigits('2', '4');
    assert "-24"[1..] == ['2', '4'];
    assert Atoi("-24") == Some(-24) && IsLetter('c') && IsLetter('a');
    hide *;
    ReadLetters('c', 'a', "-24", -24);
    RisingText();
  }

  lemma RisingText()
    ensures ['c'] + (".." + (['a'] + (".." + "-24"))) == "c..a..-24"
  {
    assert ".." + "-24" == "..-24";
    assert ['a'] + "..-24" == "a..-24";
    assert ".." + "a..-24" == "..a..-24";
  }

  lemma TwoDigits(c: char, d: char)
    requires IsDigit(c) && IsDigit(d)
    ensures Digits([c, d]) == Some(DigitValue(c) * 10 + DigitValue(d))
  {
    OneDigit(c);
    assert [c, d][..1] == [c];
  }

  /** Zeros go before the sign. */
  lemma PaddedSign()
    ensures Range("001..-1") == Values(["001", "000", "0-1"])
  {
    PaddedRead();
    hide ReadRange, Atoi;
    PadThree();
    DownToMinusOne();
    hide C.WalkOf, PadInt;
  }

  lemma PaddedRead()
    ensures ReadRange("001..-1") == IntRange(1, -1, 1, 3)
  {
    TwoDigits('0', '0');
    assert "001"[..2] == ['0', '0'];
    assert Atoi("001") == Some(1);
    SmallNumbers();
    hide ReadRange, Atoi;
    ReadTwo("001", "-1");
    assert "001" + (".." + "-1") == "001..-1";
  }

  lemma PadThree()
    ensures PadInt(1, 3) == "001" && PadInt(0, 3) == "000" && PadInt(-1, 3) == "0-1"
  {
    assert Zeros(2) == "00" && Zeros(1) == "0";
  }

  lemma DownToMinusOne()
    ensures C.WalkOf(1, -1, 1, false, INT_SPAN) == C.Walked([1, 0, -1])
  {
    C.WrapCounter(1, INT_SPAN);
    C.WrapCounter(0, INT_SPAN);
    C.WrapCounter(-1, INT_SPAN);
    C.WrapCounter(-2, INT_SPAN);
    hide C.Wrap;
    C.WalkIs(1, -1, 1, false, INT_SPAN, 3);
  }

  // ----- the expanders

  /** What an expander returns for the words of a range. */
  predicate Returned(r: Ranged, endless: bool, results: seq<string>) {
    endless == (r == Endless) && (!endless ==> r == Values(results))
  }

  /** A counter that is back at its start goes round for ever. */
  method IntsUp(start: int, end: int, step: int, padLen: nat) returns (endless: bool, results: seq<string>)
    requires C.IsCounter(start, INT_SPAN)
    ensures Returned(IntWords(C.WalkOf(start, end, step, true, INT_SPAN), padLen), endless, results)
  {
    hide PadInt, C.At, C.Wrap, C.IsCounter;
    results := [];
    var i := start;
    ghost var k: nat := 0;
    C.AtStart(start, step, true, INT_SPAN);
    C.FullCycle(start, step, true, INT_SPAN);
    while i <= end
      invariant i == C.At(start, step, true, INT_SPAN, k) && k < INT_SPAN && |results| == k
      invariant forall j: nat :: j < k ==>
        !C.Past(C.At(start, step, true, INT_SPAN, j), end, true) && results[j] == PadInt(C.At(start, step, true, INT_SPAN, j), padLen)
      decreases INT_SPAN - k
    {
      C.AtNext(start, step, true, INT_SPAN, k);
      results := results + [PadInt(i, padLen)];
      i, k := C.Wrap(i + step, INT_SPAN), k + 1;
      if i == start {
        C.CycleForever(start, end, step, true, INT_SPAN, k);
        return true, [];
      }
    }
    C.WalkIs(start, end, step, true, INT_SPAN, k);
    endless := false;
  }

  method IntsDown(start: int, end: int, step: int, padLen: nat) returns (endless: bool, results: seq<string>)
    requires C.IsCounter(start, INT_SPAN)
    ensures Returned(IntWords(C.WalkOf(start, end, step, false, INT_SPAN), padLen), endless, results)
  {
    hide PadInt, C.At, C.Wrap, C.IsCounter;
    results := [];
    var i := start;
    ghost var k: nat := 0;
    C.AtStart(start, step, false, INT_SPAN);
    C.FullCycle(start, step, false, INT_SPAN);
    while i >= end
      invariant i == C.At(start, step, false, INT_SPAN, k) && k < INT_SPAN && |results| == k
      invariant forall j: nat :: j < k ==>
        !C.Past(C.At(start, step, false, INT_SPAN, j), end, false) && results[j] == PadInt(C.At(start, step, false, INT_SPAN, j), padLen)
      decreases INT_SPAN - k
    {
      C.AtNext(start, step, false, INT_SPAN, k);
      results := results + [PadInt(i, padLen)];
      i, k := C.Wrap(i - step, INT_SPAN), k + 1;
      if i == start {
        C.CycleForever(start, end, step, false, INT_SPAN, k);
        return true, [];
      }
    }
    C.WalkIs(start, end, step, false, INT_SPAN, k);
    endless := false;
  }

  method ExpandIntRange(start: int, end: int, step: int, startText: string) returns (endless: bool, results: seq<string>)
    requires C.IsCounter(start, INT_SPAN) && C.IsCounter(end, INT_SPAN)
    ensures Returned(IntWords(Loop(start, end, step, INT_SPAN).Walk(), WidthOf(startText)), endless, results)
  {
    hide C.WalkOf, IntWords;
    var padLen := WidthOf(startText);
    if start <= end {
      endless, results := IntsUp(start, end, step, padLen);
    } else {
      endless, results := IntsDown(start, end, step, padLen);
    }
  }

  /** The rune of one turn: the product is taken in 64 bits and cut to 32. */
  function RuneUp(base: int, i: int, step: int): int { Rune(base + Rune(C.Wrap(i * step, INT_SPAN))) }

  function RuneDown(base: int, i: int, step: int): int { Rune(base - Rune(C.Wrap(i * step, INT_SPAN))) }

  lemma RuneIsAt(base: int, i: nat, step: int)
    ensures RuneUp(base, i, step) == C.At(base, step, true, RUNE_SPAN, i)
    ensures RuneDown(base, i, step) == C.At(base, step, false, RUNE_SPAN, i)
  {
    var q := C.WrapOf(i * step, INT_SPAN);
    var p := C.WrapOf(C.Wrap(i * step, INT_SPAN), RUNE_SPAN);
    var c := p + q * RUNE_SPAN;
    hide C.Wrap;
    assert i * step == Rune(C.Wrap(i * step, INT_SPAN)) + c * RUNE_SPAN;
    C.WrapSame(base + i * step, base + Rune(C.Wrap(i * step, INT_SPAN)), c, RUNE_SPAN);
    C.WrapSame(base - i * step, base - Rune(C.Wrap(i * step, INT_SPAN)), -c, RUNE_SPAN);
  }

  method CharsUp(base: int, end: int, step: int) returns (endless: bool, results: seq<string>)
    requires C.IsCounter(base, RUNE_SPAN)
    ensures Returned(CharWords(C.WalkOf(base, end, step, true, RUNE_SPAN)), endless, results)
  {
    hide RuneText, RuneUp, C.At, C.IsCounter;
    results := [];
    var i: nat := 0;
    C.AtStart(base, step, true, RUNE_SPAN);
    C.FullCycle(base, step, true, RUNE_SPAN);
    RuneIsAt(base, 0, step);
    while RuneUp(base, i, step) <= end
      invariant RuneUp(base, i, step) == C.At(base, step, true, RUNE_SPAN, i) && i < RUNE_SPAN && |results| == i
      invariant forall j: nat :: j < i ==>
        !C.Past(C.At(base, step, true, RUNE_SPAN, j), end, true) && results[j] == RuneText(C.At(base, step, true, RUNE_SPAN, j))
      decreases RUNE_SPAN - i
    {
      results := results + [RuneText(RuneUp(base, i, step))];
      i := i + 1;
      RuneIsAt(base, i, step);
      if RuneUp(base, i, step) == base {
        C.CycleForever(base, end, step, true, RUNE_SPAN, i);
        return true, [];
      }
    }
    C.WalkIs(base, end, step, true, RUNE_SPAN, i);
    endless := false;
  }

  method CharsDown(base: int, end: int, step: int) returns (endless: bool, results: seq<string>)
    requires C.IsCounter(base, RUNE_SPAN)
    ensures Returned(CharWords(C.WalkOf(base, end, step, false, RUNE_SPAN)), endless, results)
  {
    hide RuneText, RuneDown, C.At, C.IsCounter;
    results := [];
    var i: nat := 0;
    C.AtStart(base, step, false, RUNE_SPAN);
    C.FullCycle(base, step, false, RUNE_SPAN);
    RuneIsAt(base, 0, step);
    while RuneDown(base, i, step) >= end
      invariant RuneDown(base, i, step) == C.At(base, step, false, RUNE_SPAN, i) && i < RUNE_SPAN && |results| == i
      invariant forall j: nat :: j < i ==>
        !C.Past(C.At(base, step, false, RUNE_SPAN, j), end, false) && results[j] == RuneText(C.At(base, step, false, RUNE_SPAN, j))
      decreases RUNE_SPAN - i
    {
      results := results + [RuneText(RuneDown(base, i, step))];
      i := i + 1;
      RuneIsAt(base, i, step);
      if RuneDown(base, i, step) == base {
        C.CycleForever(base, end, step, false, RUNE_SPAN, i);
        return true, [];
      }
    }
    C.WalkIs(base, end, step, false, RUNE_SPAN, i);
    endless := false;
  }

  method ExpandCharRange(first: char, last: char, step: int) returns (endless: bool, results: seq<string>)
    requires IsLetter(first) && IsLetter(last)
    ensures Returned(CharWords(Loop(first as int, last as int, step, RUNE_SPAN).Walk()), endless, results)
  {
    hide C.WalkOf, CharWords;
    if first <= last {
      endless, results := CharsUp(first as int, last as int, step);
    } else {
      endless, results := CharsDown(first as int, last as int, step);
    }
  }

  /** What the source returns for the content of a brace; nil is `isRange` false. */
  method ExpandRange(content: string) returns (isRange: bool, endless: bool, results: seq<string>)
    ensures isRange == (Range(content) != NoRange)
    ensures if isRange then Returned(Range(content), endless, results) else !endless
  {
    hide DotsAt, Atoi, C.WalkOf;
    isRange, endless, results := false, false, [];
    var i := DotsAt(content);
    if i == |content| { return; }
    var rest := content[i + 2..];
    var step := 1;
    var j := DotsAt(rest);
    if j < |rest| {
      var given := Atoi(rest[j + 2..]);
      if given.None? || given.value == 0 { return; }
      step := given.value;
      rest := rest[..j];
    }
    var startText, endText := content[..i], rest;
    var start, end := Atoi(startText), Atoi(endText);
    if start.Some? && end.Some? {
      isRange := true;
      endless, results := ExpandIntRange(start.value, end.value, step, startText);
    } else if IsOneLetter(startText) && IsOneLetter(endText) {
      isRange := true;
      endless, results := ExpandCharRange(startText[0], endText[0], step);
    }
  }
}
