/**
  What the modular operations of the big integers compute, on values.  The reduction never
  updates the number it works on, so it gives `2a - m` instead of a remainder; the ladder is
  stated for any reduction and then for this one.
 */
module BignumLadder {
  function Power(b: nat, e: nat): nat {
    if e == 0 then 1 else b * Power(b, e - 1)
  }

  /** The reduction as the loop leaves it. */
  function CodeMod(a: nat, m: nat): nat {
    if a < m then a else 2 * a - m
  }

  /** It is the remainder exactly when there is nothing to reduce. */
  lemma CodeModIsRemainder(a: nat, m: nat)
    requires m > 0
    ensures CodeMod(a, m) == a % m <==> a < m
  {
    if a < m { assert a % m == a by { SmallMod(a, m); } }
  }

  lemma SmallMod(a: nat, m: nat)
    requires a < m
    ensures a % m == a
  {
  }

  /** Square and multiply, for any reduction. */
  function Ladder(reduce: (nat, nat) -> nat, res: nat, b: nat, e: nat, m: nat): nat
    decreases e
  {
    if e == 0 then res
    else Ladder(reduce, if e % 2 == 1 then reduce(res * b, m) else res, reduce(b * b, m), e / 2, m)
  }

  // ----- powers

  lemma PowerNone(b: nat)
    ensures Power(b, 0) == 1
  {
  }

  lemma {:induction false} PowerSquare(b: nat, e: nat)
    ensures Power(b * b, e) == Power(b, 2 * e)
  {
    if e > 0 {
      PowerSquare(b, e - 1);
      var p := Power(b, 2 * e - 2);
      assert Power(b, 2 * e) == b * Power(b, 2 * e - 1) && Power(b, 2 * e - 1) == b * p;
      assert (b * b) * p == b * (b * p);
    }
  }

  /** The value the loop preserves: one turn moves a factor from the power to the result. */
  lemma PowerTurn(res: nat, b: nat, e: nat)
    requires e > 0
    ensures (if e % 2 == 1 then res * b else res) * Power(b * b, e / 2) == res * Power(b, e)
  {
    PowerSquare(b, e / 2);
    if e % 2 == 1 {
      assert e == 2 * (e / 2) + 1;
      var p := Power(b, e - 1);
      assert Power(b, e) == b * p;
      assert (res * b) * p == res * (b * p);
    }
  }

  lemma {:induction false} PowerPositive(b: nat, e: nat)
    requires b > 0
    ensures Power(b, e) > 0
  {
    if e > 0 {
      PowerPositive(b, e - 1);
      MulPositive(b, Power(b, e - 1));
    }
  }

  lemma MulPositive(a: nat, b: nat)
    requires a > 0 && b > 0
    ensures a * b > 0 && a * b >= a && a * b >= b
  {
  }

  lemma {:induction false} PowerMonotone(b: nat, c: nat, e: nat)
    requires b <= c
    ensures Power(b, e) <= Power(c, e)
  {
    if e > 0 {
      PowerMonotone(b, c, e - 1);
      MulMonotone(b, c, Power(b, e - 1), Power(c, e - 1));
    }
  }

  lemma MulMonotone(a: nat, b: nat, x: nat, y: nat)
    requires a <= b && x <= y
    ensures a * x <= b * y
  {
    assert a * x <= b * x;
    assert b * x <= b * y;
  }

  // ----- with a correct reduction

  lemma ModMul(x: nat, y: nat, m: nat)
    requires m > 0
    ensures (x % m) * y % m == x * y % m
  {
    var q, r := x / m, x % m;
    assert x == q * m + r;
    assert x * y == (q * y) * m + r * y by {
      assert (q * m) * y == (q * y) * m;
    }
    AddMultiple(r * y, q * y, m);
  }

  lemma ModUnique(x: nat, q: nat, r: nat, m: nat)
    requires r < m && x == q * m + r
    ensures x % m == r
  {
    var k, d := x / m, x % m;
    assert x == k * m + d;
    if k < q { MulMonotone(k + 1, q, m, m); }
    else if k > q { MulMonotone(q + 1, k, m, m); }
  }

  lemma AddMultiple(a: nat, k: nat, m: nat)
    requires m > 0
    ensures (a + k * m) % m == a % m
  {
    assert (a / m + k) * m == (a / m) * m + k * m;
    ModUnique(a + k * m, a / m + k, a % m, m);
  }

  lemma MulCongruent(x: nat, x': nat, y: nat, y': nat, m: nat)
    requires m > 0 && x % m == x' % m && y % m == y' % m
    ensures x * y % m == x' * y' % m
  {
    ModMul(x, y, m);
    ModMul(x', y, m);
    ModMul(y, x', m);
    ModMul(y', x', m);
    assert x' * y == y * x' && x' * y' == y' * x';
  }

  lemma {:induction false} PowerMod(b: nat, e: nat, m: nat)
    requires m > 0
    ensures Power(b % m, e) % m == Power(b, e) % m
  {
    if e > 0 {
      PowerMod(b, e - 1, m);
      SmallMod(b % m, m);
      MulCongruent(b % m, b, Power(b % m, e - 1), Power(b, e - 1), m);
    }
  }

  ghost predicate Reduces(reduce: (nat, nat) -> nat, m: nat) {
    m > 0 && forall x: nat :: reduce(x, m) == x % m
  }

  /** With a remainder for a reduction, the ladder keeps the power modulo `m`. */
  lemma {:induction false} LadderKeeps(reduce: (nat, nat) -> nat, res: nat, b: nat, e: nat, m: nat)
    requires Reduces(reduce, m)
    ensures Ladder(reduce, res, b, e, m) % m == res * Power(b, e) % m
    ensures e > 0 || res < m ==> Ladder(reduce, res, b, e, m) < m
    decreases e
  {
    hide Power;
    if e == 0 {
      assert Power(b, 0) == 1 by { PowerNone(b); }
    } else {
      var res', b' := if e % 2 == 1 then res * b % m else res, b * b % m;
      var full := if e % 2 == 1 then res * b else res;
      LadderKeeps(reduce, res', b', e / 2, m);
      PowerMod(b * b, e / 2, m);
      PowerTurn(res, b, e);
      SmallMod(res * b % m, m);
      MulCongruent(res', full, Power(b', e / 2), Power(b * b, e / 2), m);
    }
  }

  /** So `base^exp mod m` comes out, except for the zeroth power modulo one, which the ladder does not reduce. */
  lemma LadderIsPower(reduce: (nat, nat) -> nat, base: nat, exp: nat, m: nat)
    requires Reduces(reduce, m)
    ensures Ladder(reduce, 1, base, exp, m) == Power(base, exp) % m <==> exp > 0 || m > 1
  {
    LadderKeeps(reduce, 1, base, exp, m);
    if exp > 0 || m > 1 {
      SmallMod(Ladder(reduce, 1, base, exp, m), m);
    } else {
      ModOne(Power(base, exp));
    }
  }

  lemma ModOne(x: nat)
    ensures x % 1 == 0
  {
  }

  // ----- with the code's reduction

  /** Nothing the code's reduction does makes a number smaller. */
  lemma {:induction false} CodeLadderGrows(res: nat, b: nat, e: nat, m: nat)
    ensures Ladder(CodeMod, res, b, e, m) >= res * Power(b, e)
    decreases e
  {
    if e > 0 {
      var res', b' := if e % 2 == 1 then CodeMod(res * b, m) else res, CodeMod(b * b, m);
      CodeLadderGrows(res', b', e / 2, m);
      PowerTurn(res, b, e);
      PowerMonotone(b * b, b', e / 2);
      MulMonotone(if e % 2 == 1 then res * b else res, res', Power(b * b, e / 2), Power(b', e / 2));
    }
  }

  lemma {:induction false} CodeLadderZero(b: nat, e: nat, m: nat)
    requires m > 0
    ensures Ladder(CodeMod, 0, b, e, m) == 0
    decreases e
  {
    if e > 0 { CodeLadderZero(CodeMod(b * b, m), e / 2, m); }
  }

  /** As long as the power itself stays below the modulus, no reduction has anything to do. */
  lemma {:induction false} CodeLadderSmall(res: nat, b: nat, e: nat, m: nat)
    requires res * Power(b, e) < m
    ensures Ladder(CodeMod, res, b, e, m) == res * Power(b, e)
    decreases e
  {
    if res == 0 {
      CodeLadderZero(b, e, m);
    } else if e == 1 {
      assert Power(b, 1) == b * Power(b, 0);
    } else if e > 1 {
      var res' := if e % 2 == 1 then res * b else res;
      PowerTurn(res, b, e);
      SmallTurn(res, b, e, m);
      CodeLadderSmall(res', b * b, e / 2, m);
    }
  }

  /** Both products of a turn are at most what the ladder is after. */
  lemma SmallTurn(res: nat, b: nat, e: nat, m: nat)
    requires res > 0 && e > 1 && res * Power(b, e) < m
    ensures b * b < m && res * b < m
  {
    if b == 0 { return; }
    var p := Power(b, e - 2);
    PowerPositive(b, e - 2);
    assert Power(b, e) == (b * b) * p by {
      assert Power(b, e) == b * Power(b, e - 1) && Power(b, e - 1) == b * p;
      assert b * (b * p) == (b * b) * p;
    }
    hide Power;
    MulPositive(b, b);
    MulPositive(b * b, p);
    MulPositive(res, (b * b) * p);
    MulMonotone(res, res, b, (b * b) * p);
  }

  /** The code's modular power is right exactly when the power needs no reduction at all. */
  lemma CodePowerExactly(base: nat, exp: nat, m: nat)
    requires m > 0
    ensures Ladder(CodeMod, 1, base, exp, m) == Power(base, exp) % m <==> Power(base, exp) < m
  {
    var p := Power(base, exp);
    CodeLadderGrows(1, base, exp, m);
    if p < m {
      CodeLadderSmall(1, base, exp, m);
      SmallMod(p, m);
    }
  }

  /** Three squared modulo five: the code gives 21. */
  lemma WrongPower()
    ensures Ladder(CodeMod, 1, 3, 2, 5) == 21 && Power(3, 2) % 5 == 4
  {
    assert CodeMod(3 * 3, 5) == 13 && CodeMod(1 * 13, 5) == 21;
    assert Ladder(CodeMod, 1, 13, 1, 5) == Ladder(CodeMod, 21, CodeMod(13 * 13, 5), 0, 5);
    assert Power(3, 1) == 3 * Power(3, 0);
  }

  lemma RemainderLess(x: nat, m: nat)
    requires m > 0
    ensures x % m <= x && x % m < m
  {
    if x < m { SmallMod(x, m); }
  }
}
