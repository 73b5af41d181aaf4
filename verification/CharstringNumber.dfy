/**
  The numbers of Type 2 charstrings, encoded as section 3.2 of Adobe Technical Note 5177 lays them out.
  A number is counted in 65536ths, the unit of its 16.16 form.
 */
module CharstringNumber {
  import opened Common
  import opened CharstringSpec

  const ONE := 0x1_0000

  datatype Form = OneByte | TwoBytes | Word | Fixed

  /** The numbers that a charstring can hold at all. */
  predicate Fits(d: int) { -0x8000_0000 <= d < 0x8000_0000 }

  /** Which numbers a form can hold. */
  predicate Suits(form: Form, d: int) {
    Fits(d) && (form.Fixed? || (d % ONE == 0 && var v := d / ONE;
    match form
    case OneByte => -107 <= v <= 107
    case TwoBytes => 108 <= v <= 1131 || -1131 <= v <= -108
    case _ => true))
  }

  /** The last `n` bytes of a number, the highest first. */
  function Bytes(u: nat, n: nat): (s: seq<Byte>)
    ensures |s| == n
  {
    if n == 0 then [] else Bytes(u / 256, n - 1) + [u % 256]
  }

  function Coded(form: Form, d: int): (s: seq<Byte>)
    requires Suits(form, d)
    ensures s != []
  {
    var v := d / ONE;
    match form
    case OneByte => [v + 139]
    case TwoBytes =>
      if v > 0 then [247 + (v - 108) / 256, (v - 108) % 256] else [251 + (-v - 108) / 256, (-v - 108) % 256]
    case Word => [28] + Bytes(v % 0x1_0000, 2)
    case Fixed => [255] + Bytes(d % 0x1_0000_0000, 4)
  }

  function Units(d: int): real { d as real / 65536.0 }

  // ----- code in a buffer

  predicate Has(b: Buf, code: seq<Byte>) {
    b.cursor + |code| <= |b.data| && b.data[b.cursor..b.cursor + |code|] == code
  }

  function Advance(b: Buf, n: nat): Buf { b.(cursor := b.cursor + n) }

  lemma HasAt(b: Buf, code: seq<Byte>, k: nat)
    requires Has(b, code) && k < |code|
    ensures b.data[b.cursor + k] == code[k]
  {
    assert code[k] == b.data[b.cursor..b.cursor + |code|][k];
  }

  lemma HasSplit(b: Buf, x: seq<Byte>, y: seq<Byte>)
    requires Has(b, x + y)
    ensures Has(b, x) && Has(Advance(b, |x|), y)
  {
    assert b.data[b.cursor..b.cursor + |x|] == (x + y)[..|x|] == x;
    assert b.data[b.cursor + |x|..b.cursor + |x| + |y|] == (x + y)[|x|..] == y;
  }

  /** What `n` bytes can hold. */
  function Bound(n: nat): (r: nat)
    ensures r > 0
  {
    if n == 0 then 1 else 256 * Bound(n - 1)
  }

  lemma Shorter(u: nat, m: nat)
    requires u < 256 * m
    ensures u / 256 < m && u / 256 * 256 + u % 256 == u
  {
  }

  lemma GetNext(b: Buf, n: nat, u: nat, c: Byte)
    requires b.Ok() && Get(b, n) == (u, Advance(b, n)) && Has(Advance(b, n), [c])
    ensures Get(b, n + 1) == (u * 256 + c, Advance(b, n + 1))
  {
    HasAt(Advance(b, n), [c], 0);
  }

  lemma {:induction false} GetBytes(u: nat, n: nat, b: Buf)
    requires u < Bound(n) && Has(b, Bytes(u, n))
    ensures b.Ok() && Get(b, n) == (u, Advance(b, n))
  {
    if n == 0 {
    } else {
      Shorter(u, Bound(n - 1));
      HasSplit(b, Bytes(u / 256, n - 1), [u % 256]);
      hide Get, Has;
      GetBytes(u / 256, n - 1, b);
      GetNext(b, n - 1, u / 256, u % 256);
    }
  }

  lemma HasLast(b: Buf, code: seq<Byte>)
    requires Has(b, code) && b.cursor + |code| < |b.data|
    ensures Has(b, code + [b.data[b.cursor + |code|]])
  {
    var n := b.cursor + |code|;
    assert b.data[b.cursor..n + 1] == b.data[b.cursor..n] + [b.data[n]];
  }

  lemma LastByte(u: nat, c: Byte)
    ensures (u * 256 + c) / 256 == u && (u * 256 + c) % 256 == c
  {
  }

  lemma {:induction false} GotBytes(n: nat, b: Buf)
    requires b.cursor + n <= |b.data|
    ensures Get(b, n).0 < Bound(n) && Has(b, Bytes(Get(b, n).0, n)) && Get(b, n).1 == Advance(b, n)
  {
    if n == 0 {
    } else {
      GotBytes(n - 1, b);
      var u, c := Get(b, n - 1).0, b.data[b.cursor + n - 1];
      LastByte(u, c);
      assert Get(b, n) == (u * 256 + c, Advance(b, n));
      assert Bytes(u * 256 + c, n) == Bytes(u, n - 1) + [c];
      hide Bytes, Get;
      HasLast(b, Bytes(u, n - 1));
    }
  }

  lemma Bounds()
    ensures Bound(2) == 0x1_0000 && Bound(4) == 0x1_0000_0000
  {
    assert Bound(1) == 256 && Bound(3) == 0x100_0000;
  }

  lemma SignedUndoes(v: int, half: nat)
    requires 0 <= v + half < 2 * half
    ensures 0 <= v % (2 * half) < 2 * half && Signed(v % (2 * half), half) == v
  {
    if v < 0 { Remainder(v + 2 * half, 2 * half); } else { Remainder(v, 2 * half); }
  }

  lemma Remainder(r: nat, m: nat)
    requires r < m
    ensures r % m == r && (r - m) % m == r
  {
    assert (r - m) / m == -1 by { assert (r - m) - (-1) * m == r; }
  }

  lemma Whole(v: int)
    ensures v * ONE % ONE == 0 && v * ONE / ONE == v && Units(v * ONE) == v as real
  {
  }

  // ----- reading each form

  lemma ReadsOne(v: int, b: Buf)
    requires -107 <= v <= 107 && Has(b, [v + 139])
    ensures Number(v + 139, Advance(b, 1)) == (v as real, Advance(b, 1))
  {
  }

  /** The value of two bytes. */
  function Further(b0: int, b1: int): int {
    if b0 <= 250 then (b0 - 247) * 256 + b1 + 108 else -(b0 - 251) * 256 - b1 - 108
  }

  lemma ReadsTwo(code: seq<Byte>, b: Buf)
    requires |code| == 2 && 247 <= code[0] <= 254 && Has(b, code)
    ensures Number(code[0], Advance(b, 1)) == (Further(code[0], code[1]) as real, Advance(b, 2))
  {
    HasAt(b, code, 1);
  }

  lemma ReadsWord(v: int, b: Buf)
    requires IsShort(v) && Has(b, [28] + Bytes(v % 0x1_0000, 2))
    ensures Number(28, Advance(b, 1)) == (v as real, Advance(b, 3))
  {
    hide Bytes, Bound, Get;
    Bounds();
    HasSplit(b, [28], Bytes(v % 0x1_0000, 2));
    GetBytes(v % 0x1_0000, 2, Advance(b, 1));
    SignedUndoes(v, 0x8000);
  }

  lemma ReadsFixed(d: int, b: Buf)
    requires Fits(d) && Has(b, [255] + Bytes(d % 0x1_0000_0000, 4))
    ensures Number(255, Advance(b, 1)) == (Units(d), Advance(b, 5))
  {
    hide Bytes, Bound, Get;
    Bounds();
    HasSplit(b, [255], Bytes(d % 0x1_0000_0000, 4));
    GetBytes(d % 0x1_0000_0000, 4, Advance(b, 1));
    SignedUndoes(d, 0x8000_0000);
  }

  /** Reading an encoded number gives it back and stops right behind it. */
  lemma NumberReads(form: Form, d: int, b: Buf)
    requires Suits(form, d) && Has(b, Coded(form, d))
    ensures var code := Coded(form, d);
            && b.data[b.cursor] == code[0] && (code[0] == 28 || code[0] >= 32)
            && Number(code[0], Advance(b, 1)) == (Units(d), Advance(b, |code|))
  {
    var code := Coded(form, d);
    HasAt(b, code, 0);
    hide Bytes, Number, Has;
    var v := d / ONE;
    if !form.Fixed? { Whole(v); }
    match form
    case OneByte => ReadsOne(v, b);
    case TwoBytes => ReadsTwo(code, b);
    case Word => ReadsWord(v, b);
    case Fixed => ReadsFixed(d, b);
  }

  // ----- what can be read

  function FormOf(b0: Byte): Form {
    if b0 == 255 then Fixed else if b0 == 28 then Word else if b0 <= 246 then OneByte else TwoBytes
  }

  function Length(form: Form): nat {
    match form
    case OneByte => 1
    case TwoBytes => 2
    case Word => 3
    case Fixed => 5
  }

  /** The number that starts at the buffer's place, in 65536ths. */
  function Meant(b: Buf): (d: int)
    requires b.Ok() && b.Left() > 0
    requires var b0 := b.data[b.cursor]; (b0 == 28 || b0 >= 32) && b.Left() >= Length(FormOf(b0))
  {
    var b0 := b.data[b.cursor];
    match FormOf(b0)
    case OneByte => (b0 as int - 139) * ONE
    case TwoBytes => Further(b0, b.data[b.cursor + 1]) * ONE
    case Word => Signed(Get(Advance(b, 1), 2).0, 0x8000) * ONE
    case Fixed => Signed(Get(Advance(b, 1), 4).0, 0x8000_0000)
  }

  lemma HasNext(b: Buf, b0: Byte, code: seq<Byte>)
    requires b.cursor < |b.data| && b.data[b.cursor] == b0 && Has(Advance(b, 1), code)
    ensures Has(b, [b0] + code)
  {
    assert b.data[b.cursor..b.cursor + 1 + |code|] == [b0] + b.data[b.cursor + 1..b.cursor + 1 + |code|];
  }

  lemma CodedTwo(b: Buf)
    requires b.cursor + 2 <= |b.data| && 247 <= b.data[b.cursor] <= 254
    ensures Suits(TwoBytes, Meant(b)) && Has(b, Coded(TwoBytes, Meant(b)))
  {
    var b0, c := b.data[b.cursor], b.data[b.cursor + 1];
    Whole(Further(b0, c));
    if b0 <= 250 { LastByte(b0 - 247, c); } else { LastByte(b0 - 251, c); }
    assert Coded(TwoBytes, Meant(b)) == [b0, c] == b.data[b.cursor..b.cursor + 2];
  }

  lemma CodedWord(b: Buf)
    requires b.cursor + 3 <= |b.data| && b.data[b.cursor] == 28
    ensures Suits(Word, Meant(b)) && Has(b, Coded(Word, Meant(b)))
  {
    hide Bytes, Bound, Get, Has;
    Bounds();
    GotBytes(2, Advance(b, 1));
    var u := Get(Advance(b, 1), 2).0;
    Whole(Signed(u, 0x8000));
    Remainder(u, 0x1_0000);
    HasNext(b, 28, Bytes(u, 2));
  }

  lemma CodedFixed(b: Buf)
    requires b.cursor + 5 <= |b.data| && b.data[b.cursor] == 255
    ensures Suits(Fixed, Meant(b)) && Has(b, Coded(Fixed, Meant(b)))
  {
    hide Bytes, Bound, Get, Has;
    Bounds();
    GotBytes(4, Advance(b, 1));
    var u := Get(Advance(b, 1), 4).0;
    Remainder(u, 0x1_0000_0000);
    HasNext(b, 255, Bytes(u, 4));
  }

  /** Every number that a program holds in full is the encoding of what is read. */
  lemma NumberIsCoded(b: Buf)
    requires b.Ok() && b.Left() > 0
    requires var b0 := b.data[b.cursor]; (b0 == 28 || b0 >= 32) && b.Left() >= Length(FormOf(b0))
    ensures var b0, d := b.data[b.cursor], Meant(b);
            && Suits(FormOf(b0), d) && Has(b, Coded(FormOf(b0), d))
            && Number(b0, Advance(b, 1)) == (Units(d), Advance(b, Length(FormOf(b0))))
  {
    var b0 := b.data[b.cursor];
    match FormOf(b0) {
      case OneByte =>
        Whole(b0 as int - 139);
        HasNext(b, b0, []);
      case TwoBytes => CodedTwo(b);
      case Word => CodedWord(b);
      case Fixed => CodedFixed(b);
    }
    hide Number, Has, Bytes, Meant;
    NumberReads(FormOf(b0), Meant(b), b);
  }
}
