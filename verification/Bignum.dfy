/**
  Big integers: an array of 64-bit words, least significant first, with a word count.  The array
  has 64 words in the source; here its length is any capacity.  Words are numbers below 2^64, and
  the 128-bit intermediates are shown to fit.
 */
module Bignum {
  import opened BignumLadder
  import opened Common

  const BASE := 0x1_0000_0000_0000_0000
  const HALF := 0x8000_0000_0000_0000

  type Word = x: nat | x < BASE

  function Pow(k: nat): (r: nat)
    ensures r > 0
  {
    if k == 0 then 1 else BASE * Pow(k - 1)
  }

  function Digit(s: seq<Word>, i: nat): Word {
    if i < |s| then s[i] else 0
  }

  /** The value of the lowest `i` words. */
  function Sum(s: seq<Word>, i: nat): nat {
    if i == 0 then 0 else Sum(s, i - 1) + Digit(s, i - 1) * Pow(i - 1)
  }

  function Value(s: seq<Word>): nat {
    Sum(s, |s|)
  }

  lemma {:induction false} SumSame(s: seq<Word>, t: seq<Word>, i: nat)
    requires forall k :: 0 <= k < i ==> Digit(s, k) == Digit(t, k)
    ensures Sum(s, i) == Sum(t, i)
  {
    if i > 0 { SumSame(s, t, i - 1); }
  }

  lemma {:induction false} SumBound(s: seq<Word>, i: nat)
    ensures Sum(s, i) < Pow(i)
  {
    hide Digit;
    if i > 0 {
      SumBound(s, i - 1);
      Below(Sum(s, i - 1), Digit(s, i - 1), BASE, Pow(i - 1));
    }
  }

  lemma {:induction false} SumBeyond(s: seq<Word>, i: nat)
    requires i >= |s|
    ensures Sum(s, i) == Value(s)
  {
    if i > |s| { SumBeyond(s, i - 1); }
  }

  lemma {:induction false} PowMonotone(i: nat, j: nat)
    requires i <= j
    ensures Pow(i) <= Pow(j)
    decreases j
  {
    if i < j {
      PowMonotone(i, j - 1);
      assert Pow(j) == BASE * Pow(j - 1);
    }
  }

  lemma {:induction false} PowAdd(i: nat, j: nat)
    ensures Pow(i + j) == Pow(i) * Pow(j)
  {
    if i > 0 {
      PowAdd(i - 1, j);
      assert BASE * (Pow(i - 1) * Pow(j)) == (BASE * Pow(i - 1)) * Pow(j);
    }
  }

  /** One column of an addition, subtraction or multiplication. */
  lemma Column(low: int, carry: int, total: int, p: nat)
    requires low + carry * BASE == total
    ensures low * p + carry * (BASE * p) == total * p
  {
    calc {
      low * p + carry * (BASE * p);
      low * p + (carry * BASE) * p;
      (low + carry * BASE) * p;
      total * p;
    }
  }

  // Small facts about products, so that no proof below needs more than one of them at a time.

  lemma MulLe(a: int, b: int, p: nat)
    requires a <= b
    ensures a * p <= b * p
  {
  }

  lemma MulPlus(a: int, b: int, p: int)
    ensures (a + b) * p == a * p + b * p
  {
  }

  lemma MulPlus3(a: int, b: int, c: int, p: int)
    ensures (a + b + c) * p == a * p + b * p + c * p
  {
    MulPlus(a + b, c, p);
    MulPlus(a, b, p);
  }

  /** A part below `p` and `d` times `p` stay below any larger multiple. */
  lemma Below(x: nat, d: nat, e: nat, p: nat)
    requires x < p && d < e
    ensures x + d * p < e * p
  {
    MulLe(d + 1, e, p);
    MulPlus(d, 1, p);
  }

  class BN {
    const w: array<Word>
    var n: nat

    predicate Valid()
      reads this
    {
      1 <= n <= w.Length
    }

    function Words(): (s: seq<Word>)
      requires Valid()
      reads this, w
      ensures |s| == n
    {
      w[..n]
    }

    function Val(): nat
      requires Valid()
      reads this, w
    {
      Value(Words())
    }

    constructor Zero(capacity: nat)
      requires capacity > 0
      ensures Valid() && fresh(w) && w.Length == capacity && Val() == 0 && n == 1
    {
      w := new Word[capacity](_ => 0);
      n := 1;
      new;
      assert Words() == [0];
      assert Value([0]) == 0 by { assert Sum([0], 1) == 0 + 0 * Pow(0); }
    }
  }

  /** Two numbers are the same object or share no words. */
  ghost predicate Apart(a: BN, b: BN)
    reads a, b
  {
    a == b || a.w != b.w
  }

  method Cmp(a: BN, b: BN) returns (r: int)
    requires a.Valid() && b.Valid()
    ensures r == if a.Val() > b.Val() then 1 else if a.Val() < b.Val() then -1 else 0
  {
    var n := if a.n > b.n then a.n else b.n;
    ghost var s, t := a.Words(), b.Words();
    SumBeyond(s, n);
    SumBeyond(t, n);
    var i := n - 1;
    while i >= 0
      invariant -1 <= i < n
      invariant forall k :: i < k < n ==> Digit(s, k) == Digit(t, k)
    {
      var av: Word, bv: Word := if i < a.n then a.w[i] else 0, if i < b.n then b.w[i] else 0;
      if av != bv {
        if av > bv { TopDigit(t, s, i, n); } else { TopDigit(s, t, i, n); }
        return if av > bv then 1 else -1;
      }
      i := i - 1;
    }
    SumSame(s, t, n);
    return 0;
  }

  /** The highest word that differs decides. */
  lemma {:induction false} TopDigit(s: seq<Word>, t: seq<Word>, i: nat, n: nat)
    requires i < n && Digit(s, i) < Digit(t, i)
    requires forall k :: i < k < n ==> Digit(s, k) == Digit(t, k)
    ensures Sum(s, n) < Sum(t, n)
    decreases n
  {
    hide Pow, Digit;
    if n == i + 1 {
      SumBound(s, i);
      Below(Sum(s, i), Digit(s, i), Digit(t, i), Pow(i));
    } else {
      TopDigit(s, t, i, n - 1);
    }
  }

  method Copy(a: BN, b: BN)
    requires a.Valid() && b.Valid() && Apart(a, b) && b.n <= a.w.Length
    modifies a, a.w
    ensures a.Valid() && a.Words() == old(b.Words())
  {
    a.n := b.n;
    for i := 0 to b.n
      invariant a.Valid() && a.n == b.n == old(b.n)
      invariant forall k :: 0 <= k < i ==> a.w[k] == old(b.w[k])
      invariant forall k :: 0 <= k < b.n ==> b.w[k] == old(b.w[k])
    {
      a.w[i] := b.w[i];
    }
  }

  /** One step of an addition with carry, on values. */
  lemma AddStep(x: nat, c: nat, u: nat, v: nat, av: nat, bv: nat, p: nat)
    requires x + c * p == u + v
    ensures var sum := av + bv + c;
            x + (sum % BASE) * p + (sum / BASE) * (BASE * p) == (u + av * p) + (v + bv * p)
  {
    var sum := av + bv + c;
    Column(sum % BASE, sum / BASE, sum, p);
    MulPlus3(av, bv, c, p);
  }

  /** The sum is exact, also when the result is one of the operands. */
  method Add(r: BN, a: BN, b: BN)
    requires r.Valid() && a.Valid() && b.Valid() && Apart(r, a) && Apart(r, b)
    requires a.n <= r.w.Length && b.n <= r.w.Length && a.Val() + b.Val() < Pow(r.w.Length)
    modifies r, r.w
    ensures r.Valid() && r.Val() == old(a.Val()) + old(b.Val())
  {
    hide Pow, Sum;
    var c: Word := 0;
    var n := if a.n > b.n then a.n else b.n;
    ghost var s, t := a.Words(), b.Words();
    SumNone(s);
    SumNone(t);
    SumNone(r.w[..]);
    for i := 0 to n
      invariant a.n == |s| && b.n == |t|
      invariant c <= 1 && Sum(r.w[..], i) + c * Pow(i) == Sum(s, i) + Sum(t, i)
      invariant forall k :: i <= k < |s| ==> a.w[k] == s[k]
      invariant forall k :: i <= k < |t| ==> b.w[k] == t[k]
    {
      var av: Word, bv: Word := if i < a.n then a.w[i] else 0, if i < b.n then b.w[i] else 0;
      var sum := av + bv + c;
      assert sum < BASE * BASE;
      AddStep(Sum(r.w[..], i), c, Sum(s, i), Sum(t, i), av, bv, Pow(i));
      ghost var before := r.w[..];
      r.w[i] := sum % BASE;
      SumNext(before, r.w[..], i);
      SumNext(s, s, i);
      SumNext(t, t, i);
      c := sum / BASE;
    }
    SumBeyond(s, n);
    SumBeyond(t, n);
    if c != 0 {
      NoRoomLeft(Sum(r.w[..], n), n, Value(s) + Value(t), r.w.Length);
      ghost var before := r.w[..];
      r.w[n] := c;
      SumNext(before, r.w[..], n);
      n := n + 1;
    }
    r.n := n;
    SumSame(r.w[..], r.Words(), n);
  }

  lemma SumNone(s: seq<Word>)
    ensures Sum(s, 0) == 0 && Pow(0) == 1
  {
  }

  /** The next word joins the value; what was written above it does not matter. */
  lemma SumNext(s: seq<Word>, t: seq<Word>, i: nat)
    requires forall k :: 0 <= k < i ==> Digit(s, k) == Digit(t, k)
    ensures Sum(t, i + 1) == Sum(s, i) + Digit(t, i) * Pow(i) && Pow(i + 1) == BASE * Pow(i)
  {
    SumSame(s, t, i);
  }

  lemma NoRoomLeft(x: nat, n: nat, total: nat, capacity: nat)
    requires n <= capacity && x + Pow(n) == total < Pow(capacity)
    ensures n < capacity
  {
  }

  // ----- subtraction

  ghost predicate Normal(s: seq<Word>) {
    |s| == 1 || (|s| > 1 && s[|s| - 1] != 0)
  }

  /** Leading zero words are dropped; the value stays. */
  method Trim(r: BN, size: nat)
    requires 1 <= size <= r.w.Length
    modifies r`n
    ensures r.Valid() && r.n <= size && Normal(r.Words()) && r.Val() == Sum(r.w[..], size)
  {
    hide Pow, Sum;
    var n := size;
    ghost var s := r.w[..];
    while n > 1 && r.w[n - 1] == 0
      invariant 1 <= n <= size && Sum(s, size) == Sum(s, n)
    {
      SumNext(s, s, n - 1);
      n := n - 1;
    }
    r.n := n;
    SumSame(s, r.Words(), n);
  }

  lemma SubStep(x: nat, c: nat, u: nat, v: nat, av: nat, bv: nat, p: nat)
    requires x - c * p == u - v && c <= 1 && av < BASE && bv < BASE
    ensures var d := av - bv - c;
            var c' := if d < 0 then 1 else 0;
            0 <= d + c' * BASE < BASE && x + (d + c' * BASE) * p - c' * (BASE * p) == (u + av * p) - (v + bv * p)
  {
    var d := av - bv - c;
    var c' := if d < 0 then 1 else 0;
    Column(d + c' * BASE, 0 - c', d, p);
    assert (0 - c') * (BASE * p) == -(c' * (BASE * p));
    MulPlus3(av, 0 - bv, 0 - c, p);
    assert (0 - bv) * p == -(bv * p) && (0 - c) * p == -(c * p);
  }

  /**
    The difference, exact when it is not negative, also when the result is one of the operands;
    otherwise it wraps at the size of the left operand.
   */
  method Sub(r: BN, a: BN, b: BN)
    requires r.Valid() && a.Valid() && b.Valid() && Apart(r, a) && Apart(r, b) && a.n <= r.w.Length
    modifies r, r.w
    ensures r.Valid() && Normal(r.Words())
    ensures old(a.Val()) >= old(b.Val()) ==> r.Val() == old(a.Val()) - old(b.Val())
    ensures old(a.Val()) < old(b.Val()) < Pow(old(a.n)) ==> r.Val() == old(a.Val()) - old(b.Val()) + Pow(old(a.n))
  {
    hide Pow, Sum;
    var c, n := 0, a.n;
    ghost var s, t := a.Words(), b.Words();
    SumNone(s);
    SumNone(t);
    SumNone(r.w[..]);
    for i := 0 to n
      invariant a.n == |s| && b.n == |t|
      invariant 0 <= c <= 1 && Sum(r.w[..], i) - c * Pow(i) == Sum(s, i) - Sum(t, i)
      invariant forall k :: i <= k < |s| ==> a.w[k] == s[k]
      invariant forall k :: i <= k < |t| ==> b.w[k] == t[k]
    {
      var av: Word, bv: Word := a.w[i], if i < b.n then b.w[i] else 0;
      var d := av - bv - c;
      SubStep(Sum(r.w[..], i), c, Sum(s, i), Sum(t, i), av, bv, Pow(i));
      ghost var before := r.w[..];
      r.w[i] := if d < 0 then d + BASE else d;
      SumNext(before, r.w[..], i);
      SumNext(s, s, i);
      SumNext(t, t, i);
      c := if d < 0 then 1 else 0;
    }
    SumBound(r.w[..], n);
    if Value(t) < Pow(n) || Value(s) >= Value(t) { SubEnd(s, t, n); }
    Trim(r, n);
  }

  /** Words of the right operand beyond the left one are zero when the difference is not negative. */
  lemma SubEnd(s: seq<Word>, t: seq<Word>, n: nat)
    requires n == |s| && (Value(t) < Pow(n) || Value(s) >= Value(t))
    ensures Value(s) == Sum(s, n) < Pow(n) && Value(t) == Sum(t, n)
  {
    SumBound(s, n);
    if |t| <= n { SumBeyond(t, n); } else { HighZero(t, n, |t|); }
  }

  lemma {:induction false} HighZero(t: seq<Word>, n: nat, m: nat)
    requires n <= m && Sum(t, m) < Pow(n)
    ensures Sum(t, m) == Sum(t, n)
    decreases m
  {
    hide Pow, Sum;
    if n < m {
      SumNext(t, t, m - 1);
      PowMonotone(n, m - 1);
      if Digit(t, m - 1) > 0 { MulLe(1, Digit(t, m - 1), Pow(m - 1)); }
      HighZero(t, n, m - 1);
    }
  }

  // ----- multiplication

  lemma {:induction false} SumUpdate(s: seq<Word>, k: nat, v: Word, m: nat)
    requires k < m <= |s|
    ensures Sum(s[k := v], m) == Sum(s, m) + (v - s[k]) * Pow(k)
    decreases m
  {
    hide Pow;
    var t := s[k := v];
    if k == m - 1 {
      SumSame(s, t, k);
      MulPlus(s[k], v - s[k], Pow(k));
    } else {
      SumUpdate(s, k, v, m - 1);
    }
  }

  lemma {:induction false} SumZero(s: seq<Word>, i: nat)
    requires forall k :: 0 <= k < i ==> Digit(s, k) == 0
    ensures Sum(s, i) == 0
  {
    if i > 0 { SumZero(s, i - 1); }
  }

  /** One product of words with what its column and the carry already hold fits twice a word. */
  lemma ProductFits(x: Word, y: Word, r: Word, c: Word)
    ensures x * y + r + c < BASE * BASE
  {
    MulLe(x, BASE - 1, y);
    assert (BASE - 1) * y <= (BASE - 1) * (BASE - 1);
  }

  lemma CarryFits(p: nat)
    requires p < BASE * BASE
    ensures p / BASE < BASE
  {
  }

  lemma RowStep(x: int, c: nat, s0: int, ai: nat, u: nat, bj: nat, pi: nat, pj: nat)
    requires x + c * (pi * pj) == s0 + (ai * pi) * u
    ensures x + (ai * bj + c) * (pi * pj) == s0 + (ai * pi) * (u + bj * pj)
  {
    MulPlus(ai * bj, c, pi * pj);
    Regroup(ai, bj, pi, pj);
    assert (ai * pi) * (u + bj * pj) == (ai * pi) * u + (ai * pi) * (bj * pj);
  }

  lemma Regroup(a: int, b: int, c: int, d: int)
    ensures (a * b) * (c * d) == (a * c) * (b * d)
  {
    calc {
      (a * b) * (c * d);
      a * (b * (c * d));
      a * (c * (b * d));
      (a * c) * (b * d);
    }
  }

  /** One column of one row, with its carry. */
  method MulCell(r: BN, k: nat, x: Word, y: Word, c: Word, ghost rn: nat) returns (c': Word)
    requires k < rn <= r.w.Length
    modifies r.w
    ensures Sum(r.w[..], rn) + c' * Pow(k + 1) == old(Sum(r.w[..], rn)) + (x * y + c) * Pow(k)
    ensures forall m :: 0 <= m < r.w.Length && m != k ==> r.w[m] == old(r.w[m])
  {
    hide Pow, Sum;
    ghost var before := r.w[..];
    ProductFits(x, y, r.w[k], c);
    var p := x * y + r.w[k] + c;
    CarryFits(p);
    var low: Word := p % BASE;
    SumUpdate(before, k, low, rn);
    Column(low - before[k], p / BASE, p - before[k], Pow(k));
    SumNext(before, before, k);
    r.w[k] := low;
    assert r.w[..] == before[k := low];
    c' := p / BASE;
  }

  /** One row: the value grows by the left word, in its place, times the right operand. */
  method MulRow(r: BN, ai: Word, b: BN, i: nat, ghost rn: nat)
    requires b.Valid() && r.w != b.w && i + b.n < rn <= r.w.Length
    requires forall k :: i + b.n <= k < rn ==> r.w[k] == 0
    modifies r.w
    ensures Sum(r.w[..], rn) == old(Sum(r.w[..], rn)) + (ai * Pow(i)) * b.Val()
    ensures forall k :: i + b.n < k < rn ==> r.w[k] == 0
  {
    hide Pow, Sum;
    var c: Word := 0;
    ghost var t, s0 := b.Words(), Sum(r.w[..], rn);
    SumNone(t);
    for j := 0 to b.n
      invariant b.Words() == t
      invariant Sum(r.w[..], rn) + c * Pow(i + j) == s0 + (ai * Pow(i)) * Sum(t, j)
      invariant forall k :: i + b.n <= k < rn ==> r.w[k] == 0
    {
      PowAdd(i, j);
      RowStep(Sum(r.w[..], rn), c, s0, ai, Sum(t, j), t[j], Pow(i), Pow(j));
      SumNext(t, t, j);
      c := MulCell(r, i + j, ai, b.w[j], c, rn);
    }
    if c != 0 {
      SumUpdate(r.w[..], i + b.n, c, rn);
      ghost var before := r.w[..];
      r.w[i + b.n] := r.w[i + b.n] + c;
      assert r.w[..] == before[i + b.n := c];
    }
  }

  /** The full product. */
  method Mul(r: BN, a: BN, b: BN)
    requires a.Valid() && b.Valid() && r.w != a.w && r.w != b.w && r != a && r != b
    requires a.n + b.n <= r.w.Length
    modifies r, r.w
    ensures r.Valid() && Normal(r.Words()) && r.Val() == a.Val() * b.Val()
  {
    hide Pow, Sum;
    var rn := a.n + b.n;
    for i := 0 to rn
      invariant forall k :: 0 <= k < i ==> r.w[k] == 0
    {
      r.w[i] := 0;
    }
    ghost var s, t := a.Words(), b.Words();
    SumZero(r.w[..], rn);
    SumNone(s);
    for i := 0 to a.n
      invariant a.Valid() && b.Valid() && a.Words() == s && b.Words() == t
      invariant forall k :: i + b.n <= k < rn ==> r.w[k] == 0
      invariant Sum(r.w[..], rn) == Sum(s, i) * Value(t)
    {
      MulRow(r, a.w[i], b, i, rn);
      SumNext(s, s, i);
      MulPlus(Sum(s, i), s[i] * Pow(i), Value(t));
    }
    Trim(r, rn);
  }

  // ----- modular operations

  /** One turn of the reduction loop, which starts from the same number every time. */
  method ReduceTurn(q: BN, r: BN, m: BN)
    requires q.Valid() && r.Valid() && m.Valid() && q != r && q != m && q.w != r.w && q.w != m.w
    requires r.n <= q.w.Length && r.Val() >= m.Val() && 2 * r.Val() < Pow(q.w.Length)
    modifies q, q.w
    ensures q.Valid() && Normal(q.Words()) && q.Val() == 2 * r.Val() - m.Val()
  {
    hide Pow, Value, BN.Words;
    Add(q, r, r);
    var c := Cmp(q, m);
    if c >= 0 { Sub(q, q, m); }
  }

  method Mod(r: BN, a: BN, m: BN)
    requires r.Valid() && a.Valid() && m.Valid() && r != a && r.w != a.w && r != m && r.w != m.w
    requires a.n <= r.w.Length && (a.Val() >= m.Val() ==> 2 * a.Val() < Pow(r.w.Length))
    modifies r, r.w
    ensures r.Valid() && r.Val() == CodeMod(a.Val(), m.Val())
    ensures Normal(a.Words()) || a.Val() >= m.Val() ==> Normal(r.Words())
  {
    hide Pow, Sum;
    var c := Cmp(a, m);
    if c < 0 {
      Copy(r, a);
      return;
    }
    var q := new BN.Zero(r.w.Length);
    Copy(r, a);
    ghost var av, mv := a.Val(), m.Val();
    var i := a.n - 1;
    while i >= 0
      invariant -1 <= i < a.n && a.Valid() && q.Valid() && r.Valid() && m.Valid() && fresh(q) && fresh(q.w)
      invariant r.Words() == a.Words() && a.Val() == av && m.Val() == mv
      invariant i < a.n - 1 ==> q.Val() == 2 * av - mv && Normal(q.Words())
    {
      var j := 63;
      while j >= 0
        invariant -1 <= j <= 63 && a.Valid() && q.Valid() && r.Valid() && m.Valid() && fresh(q) && fresh(q.w)
        invariant r.Words() == a.Words() && a.Val() == av && m.Val() == mv
        invariant j < 63 ==> q.Val() == 2 * av - mv && Normal(q.Words())
      {
        ReduceTurn(q, r, m);
        j := j - 1;
      }
      i := i - 1;
    }
    Copy(r, q);
  }

  /** The reduction of a modular product: the one in the code, or any other, given by its values. */
  datatype Reduction = AsCoded | Given(f: (nat, nat) -> nat)

  function Reducer(red: Reduction): (nat, nat) -> nat {
    match red
    case AsCoded => CodeMod
    case Given(f) => f
  }

  /** There are words enough for a reduction: the one in the code doubles whatever it does not leave alone. */
  ghost predicate Room(red: Reduction, x: nat, m: nat, cap: nat) {
    match red
    case AsCoded => x < m || 2 * x < Pow(cap)
    case Given(f) => f(x, m) < Pow(cap)
  }

  lemma StoreStep(x: nat, rest: nat, p: nat)
    ensures x + (rest % BASE) * p + (rest / BASE) * (BASE * p) == x + rest * p
  {
    Column(rest % BASE, rest / BASE, rest, p);
  }

  lemma NothingLeft(x: nat, rest: nat, p: nat)
    requires x + rest * p < p
    ensures rest == 0
  {
    if rest > 0 { MulLe(1, rest, p); }
  }

  /** The words of a number. */
  method Store(r: BN, v: nat)
    requires r.w.Length > 0 && v < Pow(r.w.Length)
    modifies r, r.w
    ensures r.Valid() && Normal(r.Words()) && r.Val() == v
  {
    hide Pow, Sum;
    var rest: nat := v;
    SumNone(r.w[..]);
    for i := 0 to r.w.Length
      invariant Sum(r.w[..], i) + rest * Pow(i) == v
    {
      StoreStep(Sum(r.w[..], i), rest, Pow(i));
      ghost var before := r.w[..];
      r.w[i] := rest % BASE;
      rest := rest / BASE;
      SumNext(before, r.w[..], i);
    }
    NothingLeft(Sum(r.w[..], r.w.Length), rest, Pow(r.w.Length));
    Trim(r, r.w.Length);
  }

  method Reduce(red: Reduction, r: BN, a: BN, m: BN)
    requires r.Valid() && a.Valid() && m.Valid() && r != a && r.w != a.w && r != m && r.w != m.w
    requires Normal(a.Words()) && a.n <= r.w.Length && Room(red, a.Val(), m.Val(), r.w.Length)
    modifies r, r.w
    ensures r.Valid() && Normal(r.Words()) && r.Val() == Reducer(red)(a.Val(), m.Val())
  {
    match red
    case AsCoded => Mod(r, a, m);
    case Given(f) => Store(r, f(a.Val(), m.Val()));
  }

  /** `r` may be one of the operands: the product goes to a number of its own. */
  method MulMod(red: Reduction, r: BN, a: BN, b: BN, m: BN)
    requires r.Valid() && a.Valid() && b.Valid() && m.Valid() && r != m && r.w != m.w
    requires a.n + b.n <= r.w.Length && Room(red, a.Val() * b.Val(), m.Val(), r.w.Length)
    modifies r, r.w
    ensures r.Valid() && Normal(r.Words()) && r.Val() == Reducer(red)(old(a.Val() * b.Val()), old(m.Val()))
  {
    hide Pow, Value, Room, Reducer;
    var t := new BN.Zero(r.w.Length);
    Mul(t, a, b);
    Reduce(red, r, t, m);
  }

  // ----- the right shift of the ladder

  lemma ShiftStep(x: nat, bit: nat, u: nat, d: nat, next: nat, p: nat)
    requires 2 * x + bit == u + (d % 2) * p
    ensures 2 * (x + (d / 2 + (next % 2) * HALF) * p) + bit == (u + d * p) + (next % 2) * (BASE * p)
  {
    MulPlus(d / 2, (next % 2) * HALF, p);
    assert 2 * ((next % 2) * HALF * p) == (next % 2) * (BASE * p);
    MulPlus(2 * (d / 2), d % 2, p);
    assert 2 * (d / 2 * p) == (2 * (d / 2)) * p;
  }

  /** A right shift by one bit, word by word in place: the value is halved. */
  method ShiftRight(e: BN)
    requires e.Valid()
    modifies e, e.w
    ensures e.Valid() && Normal(e.Words()) && e.Val() == old(e.Val()) / 2 && e.n <= old(e.n)
  {
    hide Pow, Sum;
    ghost var s := e.Words();
    var n := e.n;
    SumNone(s);
    SumNone(e.w[..]);
    for i := 0 to n - 1
      invariant e.n == n
      invariant 2 * Sum(e.w[..], i) + s[0] % 2 == Sum(s, i) + (s[i] % 2) * Pow(i)
      invariant forall k :: i <= k < n ==> e.w[k] == s[k]
    {
      ShiftStep(Sum(e.w[..], i), s[0] % 2, Sum(s, i), s[i], s[i + 1], Pow(i));
      ghost var before := e.w[..];
      e.w[i] := e.w[i] / 2 + (e.w[i + 1] % 2) * HALF;
      SumNext(before, e.w[..], i);
      SumNext(s, s, i);
    }
    ShiftStep(Sum(e.w[..], n - 1), s[0] % 2, Sum(s, n - 1), s[n - 1], 0, Pow(n - 1));
    ghost var before := e.w[..];
    e.w[n - 1] := e.w[n - 1] / 2;
    SumNext(before, e.w[..], n - 1);
    SumNext(s, s, n - 1);
    Trim(e, n);
  }

  // ----- the ladder

  /** Along the whole ladder the numbers stay below `Pow(limit)`, and there is room to reduce their products. */
  ghost predicate Fits(red: Reduction, limit: nat, cap: nat, res: nat, b: nat, e: nat, m: nat)
    decreases e
  {
    e > 0 ==>
      && res < Pow(limit) && b < Pow(limit)
      && (e % 2 == 1 ==> Room(red, res * b, m, cap)) && Room(red, b * b, m, cap)
      && Fits(red, limit, cap, if e % 2 == 1 then Reducer(red)(res * b, m) else res, Reducer(red)(b * b, m), e / 2, m)
  }

  /** With remainders they do, once the modulus does. */
  lemma {:induction false} FitsWhenReduced(f: (nat, nat) -> nat, limit: nat, cap: nat, res: nat, b: nat, e: nat, m: nat)
    requires Reduces(f, m) && m <= Pow(limit) && limit <= cap && res < Pow(limit) && b < Pow(limit)
    ensures Fits(Given(f), limit, cap, res, b, e, m)
    decreases e
  {
    hide Pow;
    PowMonotone(limit, cap);
    if e > 0 {
      RemainderLess(res * b, m);
      RemainderLess(b * b, m);
      FitsWhenReduced(f, limit, cap, if e % 2 == 1 then f(res * b, m) else res, f(b * b, m), e / 2, m);
    }
  }

  /** With the code's reduction they do while the power is below the modulus, and the square of it has room. */
  lemma {:induction false} FitsWhenSmall(limit: nat, cap: nat, res: nat, b: nat, e: nat, m: nat)
    requires 0 < res < Pow(limit) && res * Power(b, e) < m <= Pow(limit) && HasSquare(res * Power(b, e), cap)
    ensures Fits(AsCoded, limit, cap, res, b, e, m)
    decreases e
  {
    hide Pow, HasSquare;
    if b == 0 {
      FitsAtZero(limit, cap, res, e, m);
    } else if e == 1 {
      assert Power(b, 1) == b * Power(b, 0);
      FactorsBelow(res, b, m);
      SmallerSquare(b, res * b, cap);
    } else if e > 1 {
      SmallTurn(res, b, e, m);
      PowerTurn(res, b, e);
      SquareBelow(b, m);
      MulPositive(res, b);
      FitsWhenSmall(limit, cap, if e % 2 == 1 then res * b else res, b * b, e / 2, m);
    }
  }

  /** The last turn squares once more than it needs to. */
  ghost predicate HasSquare(p: nat, cap: nat) { 2 * (p * p) < Pow(cap) }

  lemma SmallerSquare(b: nat, p: nat, cap: nat)
    requires HasSquare(p, cap) && b <= p
    ensures 2 * (b * b) < Pow(cap)
  {
    MulMonotone(b, p, b, p);
  }

  lemma {:induction false} FitsAtZero(limit: nat, cap: nat, res: nat, e: nat, m: nat)
    requires res < Pow(limit) && m > 0
    ensures Fits(AsCoded, limit, cap, res, 0, e, m)
    decreases e
  {
    hide Pow;
    if e > 0 { FitsAtZero(limit, cap, if e % 2 == 1 then 0 else res, e / 2, m); }
  }

  lemma FactorsBelow(x: nat, y: nat, m: nat)
    requires x * y < m && x > 0 && m > 0
    ensures y < m && y <= x * y && (y > 0 ==> x < m)
  {
    MulMonotone(1, x, y, y);
    if y > 0 { MulMonotone(x, x, 1, y); }
  }

  lemma SquareBelow(b: nat, m: nat)
    requires b * b < m
    ensures b < m
  {
    if b > 0 { MulMonotone(1, b, b, b); }
  }

  /** For all numbers they do when there is room: one turn makes a number three times as long at most. */
  lemma {:induction false} FitsWhenRoom(limit: nat, cap: nat, size: nat, bits: nat, res: nat, b: nat, e: nat, m: nat)
    requires 0 < size && e < Pow2(bits) && size * Pow3(bits) <= limit <= cap
    requires res < Pow(size) && b < Pow(size)
    ensures Fits(AsCoded, limit, cap, res, b, e, m)
    decreases bits
  {
    hide Pow;
    Pow3Positive(bits);
    MulMonotone(size, size, 1, Pow3(bits));
    PowMonotone(size, limit);
    if e > 0 {
      assert size * Pow3(bits) == (3 * size) * Pow3(bits - 1);
      Pow3Positive(bits - 1);
      MulMonotone(3 * size, 3 * size, 1, Pow3(bits - 1));
      TurnSize(size, cap, res, b, m);
      TurnSize(size, cap, b, b, m);
      PowMonotone(size, 3 * size);
      FitsWhenRoom(limit, cap, 3 * size, bits - 1, if e % 2 == 1 then CodeMod(res * b, m) else res, CodeMod(b * b, m), e / 2, m);
    }
  }

  function Pow3(n: nat): nat { if n == 0 then 1 else 3 * Pow3(n - 1) }

  lemma {:induction false} Pow3Positive(n: nat)
    ensures Pow3(n) >= 1
  {
    if n > 0 { Pow3Positive(n - 1); }
  }

  lemma TurnSize(size: nat, cap: nat, x: nat, y: nat, m: nat)
    requires 0 < size && 3 * size <= cap && x < Pow(size) && y < Pow(size)
    ensures CodeMod(x * y, m) < Pow(3 * size) && 2 * (x * y) < Pow(cap)
  {
    ProductSmall(x, y, size, 2 * size + 1);
    hide Pow;
    PowMonotone(2 * size + 1, 3 * size);
    PowMonotone(3 * size, cap);
  }

  lemma ProductSmall(x: nat, y: nat, limit: nat, capacity: nat)
    requires x < Pow(limit) && y < Pow(limit) && 2 * limit < capacity
    ensures 2 * (x * y) < Pow(capacity)
  {
    hide Pow;
    PowAdd(limit, limit);
    MulMonotone(x, Pow(limit), y, Pow(limit));
    SumNext([], [], 2 * limit);
    PowMonotone(2 * limit + 1, capacity);
  }

  /** The word count of a trimmed number follows from its value. */
  lemma NormalSize(s: seq<Word>, k: nat)
    requires Normal(s) && Value(s) < Pow(k) && k > 0
    ensures |s| <= k
  {
    hide Pow, Sum;
    if |s| > k {
      var top := |s| - 1;
      SumNext(s, s, top);
      MulLe(1, s[top], Pow(top));
      PowMonotone(k, top);
    }
  }

  lemma NormalZero(s: seq<Word>)
    requires Normal(s)
    ensures Value(s) == 0 <==> |s| == 1 && s[0] == 0
  {
    hide Pow, Sum;
    var top := |s| - 1;
    SumNone(s);
    SumNext(s, s, top);
    if s[top] > 0 { MulLe(1, s[top], Pow(top)); }
  }

  lemma EvenProduct(d: nat, p: nat)
    ensures d * (BASE * p) % 2 == 0
  {
    calc {
      d * (BASE * p);
      (d * BASE) * p;
      (2 * (d * HALF)) * p;
      2 * ((d * HALF) * p);
    }
  }

  lemma EvenAdd(x: nat, y: nat)
    requires y % 2 == 0
    ensures (x + y) % 2 == x % 2
  {
  }

  lemma {:induction false} Parity(s: seq<Word>, i: nat)
    requires 0 < i <= |s|
    ensures Sum(s, i) % 2 == s[0] % 2
  {
    hide Pow, Sum;
    SumNext(s, s, i - 1);
    if i == 1 {
      SumNone(s);
    } else {
      Parity(s, i - 1);
      SumNext(s, s, i - 2);
      EvenProduct(s[i - 1], Pow(i - 2));
      EvenAdd(Sum(s, i - 1), s[i - 1] * Pow(i - 1));
    }
  }

  /** The code's test, which leading zero words defeat. */
  method IsZero(a: BN) returns (z: bool)
    requires a.Valid()
    ensures z ==> a.Val() == 0
    ensures Normal(a.Words()) && a.Val() == 0 ==> z
  {
    if a.n == 1 && a.w[0] == 0 {
      assert Normal(a.Words());
      NormalZero(a.Words());
      return true;
    }
    if Normal(a.Words()) { NormalZero(a.Words()); }
    return false;
  }

  method One(capacity: nat) returns (a: BN)
    requires capacity > 0
    ensures fresh(a) && fresh(a.w) && a.w.Length == capacity && a.Valid() && a.n == 1 && Normal(a.Words()) && a.Val() == 1
  {
    a := new BN.Zero(capacity);
    a.w[0] := 1;
    assert a.Words() == [1];
    SumNone([1]);
    SumNext([1], [1], 0);
  }

  /** The ladder's numbers share nothing with one another. */
  ghost predicate Separate(res: BN, cur: BN, b: BN, e: BN, m: BN) {
    && res != cur && res != b && res != e && res != m && cur != b && cur != e && cur != m && b != e && b != m && e != m
    && res.w != cur.w && res.w != b.w && res.w != e.w && res.w != m.w && cur.w != b.w && cur.w != e.w && cur.w != m.w
    && b.w != e.w && b.w != m.w && e.w != m.w
  }

  ghost predicate Ready(a: BN, capacity: nat)
    reads a, a.w
  {
    a.Valid() && a.w.Length == capacity && Normal(a.Words())
  }

  /** A number as the ladder keeps it. */
  ghost predicate Sized(a: BN, cap: nat, limit: nat)
    reads a
  {
    a.Valid() && a.w.Length == cap && a.n <= limit
  }

  method LadderTurn(red: Reduction, res: BN, cur: BN, b: BN, e: BN, m: BN, ghost limit: nat, ghost cap: nat)
    requires Separate(res, cur, b, e, m) && Sized(res, cap, limit) && Ready(res, cap) && Ready(cur, cap) && Sized(b, cap, limit)
    requires e.Valid() && e.w.Length == cap && m.Valid() && 0 < limit && 2 * limit <= cap
    requires e.Val() % 2 == 1 ==> Room(red, res.Val() * b.Val(), m.Val(), cap)
    requires Room(red, b.Val() * b.Val(), m.Val(), cap)
    modifies res, res.w, cur, cur.w, b, b.w, e, e.w
    ensures Ready(res, cap) && Ready(cur, cap) && Ready(b, cap) && Ready(e, cap)
    ensures res.Val() == if old(e.Val()) % 2 == 1 then Reducer(red)(old(res.Val() * b.Val()), m.Val()) else old(res.Val())
    ensures b.Val() == Reducer(red)(old(b.Val() * b.Val()), m.Val())
    ensures e.Val() == old(e.Val()) / 2
  {
    hide Pow, Sum, Normal, Room, Reducer;
    Parity(e.Words(), e.n);
    hide Value, BN.Words;
    if e.w[0] % 2 == 1 {
      MulMod(red, res, res, b, m);
      Copy(res, res);
    }
    MulMod(red, cur, b, b, m);
    Copy(b, cur);
    ShiftRight(e);
  }

  /** Numbers that fit the ladder, and are trimmed, have few words. */
  lemma ReadyIsSized(red: Reduction, a: BN, b: BN, e: nat, m: nat, cap: nat, limit: nat)
    requires Ready(a, cap) && Ready(b, cap) && limit > 0 && Fits(red, limit, cap, a.Val(), b.Val(), e, m)
    ensures e > 0 ==> Sized(a, cap, limit) && Sized(b, cap, limit)
  {
    if e > 0 {
      NormalSize(a.Words(), limit);
      NormalSize(b.Words(), limit);
    }
  }

  /** The loop over words and bits is the square-and-multiply ladder, whatever the reduction. */
  method LadderLoop(red: Reduction, res: BN, cur: BN, b: BN, e: BN, m: BN, ghost limit: nat, ghost cap: nat)
    requires Separate(res, cur, b, e, m) && Sized(res, cap, limit) && Ready(res, cap) && Ready(cur, cap) && Sized(b, cap, limit)
    requires e.Valid() && e.w.Length == cap && m.Valid() && 0 < limit && 2 * limit <= cap
    requires Fits(red, limit, cap, res.Val(), b.Val(), e.Val(), m.Val())
    requires e.Val() == 0 && !Normal(e.Words()) ==> Room(red, b.Val() * b.Val(), m.Val(), cap)
    modifies res, res.w, cur, cur.w, b, b.w, e, e.w
    ensures Ready(res, cap) && res.Val() == Ladder(Reducer(red), old(res.Val()), old(b.Val()), old(e.Val()), old(m.Val()))
  {
    hide Pow, Sum, Normal, Value, BN.Words, Room, Reducer;
    ghost var mv, reduce := m.Val(), Reducer(red);
    ghost var want := Ladder(reduce, res.Val(), b.Val(), e.Val(), mv);
    var zero := IsZero(e);
    while !zero
      invariant Ready(res, cap) && Ready(cur, cap) && b.Valid() && b.w.Length == cap && e.Valid() && e.w.Length == cap
      invariant m.Valid() && m.Val() == mv && (zero ==> e.Val() == 0)
      invariant !zero ==> Sized(res, cap, limit) && Sized(b, cap, limit) && (Normal(e.Words()) ==> e.Val() > 0)
      invariant !zero && e.Val() == 0 ==> Room(red, b.Val() * b.Val(), mv, cap)
      invariant want == Ladder(reduce, res.Val(), b.Val(), e.Val(), mv) && Fits(red, limit, cap, res.Val(), b.Val(), e.Val(), mv)
      decreases e.Val(), if Normal(e.Words()) then 0 else 1
    {
      LadderTurn(red, res, cur, b, e, m, limit, cap);
      ReadyIsSized(red, res, b, e.Val(), mv, cap, limit);
      zero := IsZero(e);
    }
  }

  method Clone(a: BN, cap: nat) returns (c: BN)
    requires a.Valid() && a.n <= cap
    ensures fresh(c) && fresh(c.w) && c.Valid() && c.w.Length == cap && c.Words() == a.Words()
  {
    hide Sum, Pow;
    c := new BN.Zero(cap);
    Copy(c, a);
  }

  /** The ladder from one, on copies of base and exponent, which may have leading zero words. */
  method PowMod(red: Reduction, r: BN, base: BN, exp: BN, m: BN, ghost limit: nat)
    requires r.Valid() && base.Valid() && exp.Valid() && m.Valid() && Apart(r, base) && Apart(r, exp) && Apart(r, m)
    requires base.n <= limit && exp.n <= r.w.Length && 2 * limit <= r.w.Length
    requires Fits(red, limit, r.w.Length, 1, base.Val(), exp.Val(), m.Val())
    requires exp.Val() == 0 && !Normal(exp.Words()) ==> Room(red, base.Val() * base.Val(), m.Val(), r.w.Length)
    modifies r, r.w
    ensures r.Valid() && Normal(r.Words())
    ensures r.Val() == Ladder(Reducer(red), 1, old(base.Val()), old(exp.Val()), old(m.Val()))
  {
    hide Pow, Sum, Normal, Value, BN.Words, Ladder, Fits, Reducer;
    var cap := r.w.Length;
    var b := Clone(base, cap);
    var e := Clone(exp, cap);
    var res := One(cap);
    var cur := One(cap);
    LadderLoop(red, res, cur, b, e, m, limit, cap);
    Copy(r, res);
  }

  /** The modulus and the base have room, as a caller can see from their word counts. */
  ghost predicate HaveRoom(r: BN, base: BN, exp: BN, m: BN, limit: nat)
    reads r, base, exp, m
  {
    && r.Valid() && base.Valid() && exp.Valid() && m.Valid() && Apart(r, base) && Apart(r, exp) && Apart(r, m)
    && base.n <= limit && m.n <= limit && exp.n <= r.w.Length && 2 * limit <= r.w.Length
  }

  lemma RoomBounds(r: BN, base: BN, exp: BN, m: BN, limit: nat)
    requires HaveRoom(r, base, exp, m, limit)
    ensures base.Val() < Pow(limit) && m.Val() < Pow(limit) && 1 < Pow(limit)
  {
    SumBound(base.Words(), base.n);
    PowMonotone(base.n, limit);
    SumBound(m.Words(), m.n);
    PowMonotone(m.n, limit);
    PowMonotone(1, limit);
    assert Pow(1) == BASE * Pow(0);
  }

  lemma RoomWhenReduced(f: (nat, nat) -> nat, x: nat, m: nat, limit: nat, cap: nat)
    requires Reduces(f, m) && m <= Pow(limit) && limit <= cap
    ensures Room(Given(f), x, m, cap)
  {
    hide Pow;
    PowMonotone(limit, cap);
    RemainderLess(x, m);
  }

  /** Given a correct reduction, the words of the result are `base^exp mod m`, except for the power 0 modulo 1. */
  method PowModReduced(f: (nat, nat) -> nat, r: BN, base: BN, exp: BN, m: BN, ghost limit: nat)
    requires HaveRoom(r, base, exp, m, limit) && Reduces(f, m.Val())
    modifies r, r.w
    ensures r.Valid() && Normal(r.Words())
    ensures r.Val() == Power(old(base.Val()), old(exp.Val())) % old(m.Val()) <==> old(exp.Val()) > 0 || old(m.Val()) > 1
  {
    hide Pow, Sum, Normal, Value, BN.Words, Ladder, Fits, Power, Reduces;
    RoomBounds(r, base, exp, m, limit);
    FitsWhenReduced(f, limit, r.w.Length, 1, base.Val(), exp.Val(), m.Val());
    RoomWhenReduced(f, base.Val() * base.Val(), m.Val(), limit, r.w.Length);
    LadderIsPower(f, base.Val(), exp.Val(), m.Val());
    PowMod(Given(f), r, base, exp, m, limit);
  }

  const MAX_WORDS := 64
  const KEY_WORDS := 32

  /** The public operation of a key of 2048 bits: its numbers take half of the words, so their products fit. */
  method RsaPublic(f: (nat, nat) -> nat, out: BN, input: BN, e: BN, n: BN)
    requires out.Valid() && input.Valid() && e.Valid() && n.Valid() && Apart(out, input) && Apart(out, e) && Apart(out, n)
    requires out.w.Length == MAX_WORDS && input.n <= KEY_WORDS && n.n <= KEY_WORDS && e.n <= MAX_WORDS
    requires Reduces(f, n.Val()) && n.Val() > 1
    modifies out, out.w
    ensures out.Valid() && out.Val() == Power(old(input.Val()), old(e.Val())) % old(n.Val())
  {
    hide Reduces, Power;
    PowModReduced(f, out, input, e, n, KEY_WORDS);
  }

  /**
    As coded, it is `base^exp mod m` if and only if that power is below the modulus.  There is room for the run
    when it is, and its square can be doubled, and for any numbers when there are three times as many words for
    every bit of the exponent.
   */
  method PowModAsCoded(r: BN, base: BN, exp: BN, m: BN, ghost limit: nat, ghost bits: nat)
    requires HaveRoom(r, base, exp, m, limit) && m.Val() > 0
    requires exp.Val() == 0 ==> Normal(exp.Words()) || Room(AsCoded, base.Val() * base.Val(), m.Val(), r.w.Length)
    requires var p := Power(base.Val(), exp.Val());
             (p < m.Val() && HasSquare(p, r.w.Length)) || (exp.Val() < Pow2(bits) && base.n * Pow3(bits) <= limit)
    modifies r, r.w
    ensures r.Valid() && Normal(r.Words())
    ensures r.Val() == Power(old(base.Val()), old(exp.Val())) % old(m.Val()) <==>
      Power(old(base.Val()), old(exp.Val())) < old(m.Val())
  {
    hide Pow, Sum, Normal, Value, BN.Words, Ladder, Fits, Power, Pow3, Pow2, HasSquare;
    RoomBounds(r, base, exp, m, limit);
    var cap := r.w.Length;
    if exp.Val() < Pow2(bits) && base.n * Pow3(bits) <= limit {
      RoomForAny(base, exp.Val(), m.Val(), limit, cap, bits);
    } else {
      FitsWhenSmall(limit, cap, 1, base.Val(), exp.Val(), m.Val());
    }
    CodePowerExactly(base.Val(), exp.Val(), m.Val());
    PowMod(AsCoded, r, base, exp, m, limit);
  }

  lemma RoomForAny(base: BN, e: nat, m: nat, limit: nat, cap: nat, bits: nat)
    requires base.Valid() && e < Pow2(bits) && base.n * Pow3(bits) <= limit <= cap
    ensures Fits(AsCoded, limit, cap, 1, base.Val(), e, m)
  {
    hide Pow, Pow2, Pow3;
    SumBound(base.Words(), base.n);
    OneBelowPow(base.n);
    FitsWhenRoom(limit, cap, base.n, bits, 1, base.Val(), e, m);
  }

  lemma OneBelowPow(n: nat)
    requires n > 0
    ensures 1 < Pow(n)
  {
    assert Pow(n) == BASE * Pow(n - 1);
  }
}
