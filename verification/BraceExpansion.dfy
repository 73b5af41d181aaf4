/**
  Brace expansion of a shell word.  A word is a sequence of runes; the scanners work on what is
  left of it.  A backslash outside quotes skips two bytes, so in front of a rune of more than one
  byte it ends the scan: the next byte does not decode.
 */
module BraceExpansion {
  import R = BraceRange

  const RUNE_ERROR := '\U{FFFD}'

  predicate IsWide(c: char) {
    c >= '\U{0080}'
  }

  predicate IsEscapable(c: char) {
    c in {'"', '\\', '$', '`'}
  }

  datatype Quote = Plain | Single | Double

  /** What the quoting rules make of the rune ahead: nothing further to read, skipped, or live. */
  datatype Scan = Bad | Quoted(next: string, quote: Quote) | Live

  function Look(s: string, q: Quote): (r: Scan)
    requires s != ""
    ensures r.Quoted? ==> |r.next| < |s| && r.next == s[|s| - |r.next|..]
  {
    if s[0] == RUNE_ERROR then Bad
    else
      match q
      case Single => Quoted(s[1..], if s[0] == '\'' then Plain else Single)
      case Double =>
        if s[0] == '"' then Quoted(s[1..], Plain)
        else if s[0] == '\\' && |s| > 1 && IsEscapable(s[1]) then Quoted(s[2..], Double)
        else Quoted(s[1..], Double)
      case Plain =>
        if s[0] == '\'' then Quoted(s[1..], Single)
        else if s[0] == '"' then Quoted(s[1..], Double)
        else if s[0] == '\\' && |s| > 1 then if IsWide(s[1]) then Bad else Quoted(s[2..], Plain)
        else Live
  }

  /** The closing brace, as the rest of the word from it on. */
  datatype Close = NoClose | Close(at: string, comma: bool, range: bool)

  ghost predicate IsSuffix(t: string, s: string) {
    |t| <= |s| && t == s[|s| - |t|..]
  }

  function TryBrace(s: string, q: Quote, depth: int, comma: bool, range: bool): (r: Close)
    ensures r.Close? ==> r.at != "" && r.at[0] == '}' && IsSuffix(r.at, s) && (r.comma || r.range)
    decreases |s|
  {
    if s == "" then NoClose
    else
      match Look(s, q)
      case Bad => NoClose
      case Quoted(next, q') => TryBrace(next, q', depth, comma, range)
      case Live =>
        assert IsSuffix(s[1..], s);
        if s[0] == '{' then TryBrace(s[1..], Plain, depth + 1, comma, range)
        else if s[0] == '}' then
          if depth == 1 then if comma || range then Close(s, comma, range) else NoClose
          else TryBrace(s[1..], Plain, depth - 1, comma, range)
        else
          TryBrace(s[1..], Plain, depth,
                   comma || (s[0] == ',' && depth == 1),
                   range || (s[0] == '.' && depth == 1 && |s| > 1 && s[1] == '.'))
  }

  /** The first brace that has a matching close with a comma or a range in it. */
  datatype Brace = NoBrace | Brace(open: string, close: string, comma: bool, range: bool)

  function FindBrace(s: string, q: Quote): (r: Brace)
    ensures r.Brace? ==>
      && r.open != "" && r.open[0] == '{' && IsSuffix(r.open, s)
      && r.close != "" && r.close[0] == '}' && |r.close| < |r.open| && IsSuffix(r.close, r.open) && (r.comma || r.range)
    decreases |s|
  {
    if s == "" then NoBrace
    else
      match Look(s, q)
      case Bad => NoBrace
      case Quoted(next, q') => FindBrace(next, q')
      case Live =>
        var c := if s[0] == '{' then TryBrace(s, Plain, 0, false, false) else NoClose;
        if c.Close? then Brace(s, c.at, c.comma, c.range) else FindBrace(s[1..], Plain)
  }

  /** One turn of the splitting loop: runes for the current element, or the end of it. */
  datatype Turn = Cut(next: string) | Keep(text: string, next: string, quote: Quote, depth: int)

  function SplitTurn(s: string, q: Quote, depth: int): (r: Turn)
    requires s != ""
    ensures |r.next| < |s|
  {
    if s[0] == RUNE_ERROR then Keep([s[0]], s[1..], q, depth)
    else
      match q
      case Single => Keep([s[0]], s[1..], if s[0] == '\'' then Plain else Single, depth)
      case Double =>
        if s[0] == '"' then Keep([s[0]], s[1..], Plain, depth)
        else if s[0] == '\\' && |s| > 1 && IsEscapable(s[1]) then
          Keep([s[0], s[0], s[1]], s[2..], Double, depth)  // the backslash is written twice
        else Keep([s[0]], s[1..], Double, depth)
      case Plain =>
        if s[0] == '\'' then Keep([s[0]], s[1..], Single, depth)
        else if s[0] == '"' then Keep([s[0]], s[1..], Double, depth)
        else if s[0] == '\\' && |s| > 1 then Keep([s[0], s[1]], s[2..], Plain, depth)
        else if s[0] == '{' then Keep([s[0]], s[1..], Plain, depth + 1)
        else if s[0] == '}' then Keep([s[0]], s[1..], Plain, depth - 1)
        else if s[0] == ',' && depth == 0 then Cut(s[1..])
        else Keep([s[0]], s[1..], Plain, depth)
  }

  /** The elements between commas outside quotes and inner braces. */
  function SplitElements(s: string, q: Quote, depth: int, current: string): (r: seq<string>)
    ensures r != []
    decreases |s|
  {
    if s == "" then [current]
    else
      match SplitTurn(s, q, depth)
      case Cut(next) => [current] + SplitElements(next, Plain, depth, "")
      case Keep(text, next, q', depth') => SplitElements(next, q', depth', current + text)
  }

  // ----- expansion, which ends because every alternative has fewer opening braces and dots

  predicate IsMark(c: char) { c == '{' || c == '.' }

  /** A range has two dots, and a word of it may be one opening brace or one dot. */
  function Marks(s: string): nat {
    if s == "" then 0 else (if IsMark(s[0]) then 1 else 0) + Marks(s[1..])
  }

  lemma {:induction false} MarksAppend(a: string, b: string)
    ensures Marks(a + b) == Marks(a) + Marks(b)
  {
    if a == "" { assert a + b == b; } else {
      assert (a + b)[1..] == a[1..] + b;
      MarksAppend(a[1..], b);
    }
  }

  lemma TurnMarks(s: string, q: Quote, depth: int)
    requires s != ""
    ensures var r := SplitTurn(s, q, depth); (if r.Keep? then Marks(r.text) else 0) + Marks(r.next) == Marks(s)
  {
    var r := SplitTurn(s, q, depth);
    if r.Keep? {
      assert [s[0]][1..] == "";
      if |r.text| > 1 {
        assert s[2..] == s[1..][1..];
        assert [s[0], s[1]][1..] == [s[1]] && [s[1]][1..] == "";
        assert [s[0], s[0], s[1]][1..] == [s[0], s[1]];
        assert Marks(s) == Marks([s[1]]) + Marks(s[2..]);
        assert Marks([s[0], s[1]]) == Marks([s[1]]) && Marks([s[0], s[0], s[1]]) == Marks([s[0], s[1]]);
      }
    }
  }

  /** Splitting adds no opening brace or dot to any element. */
  lemma {:induction false} SplitMarks(s: string, q: Quote, depth: int, current: string)
    ensures forall e :: e in SplitElements(s, q, depth, current) ==> Marks(e) <= Marks(current) + Marks(s)
    decreases |s|
  {
    hide SplitTurn;
    if s != "" {
      TurnMarks(s, q, depth);
      match SplitTurn(s, q, depth)
      case Cut(next) =>
        SplitMarks(next, Plain, depth, "");
      case Keep(text, next, q', depth') =>
        MarksAppend(current, text);
        SplitMarks(next, q', depth', current + text);
    }
  }

  /** What a brace stands for: no expansion, an expansion that does not end, or words. */
  ghost function Alternatives(content: string, comma: bool, range: bool): R.Ranged {
    if range then R.Range(content)
    else if comma then R.Values(SplitElements(content, Plain, 0, ""))
    else R.NoRange
  }

  lemma {:induction false} NoneMarks(s: string)
    requires forall i :: 0 <= i < |s| ==> !IsMark(s[i])
    ensures Marks(s) == 0
  {
    if s != "" { NoneMarks(s[1..]); }
  }

  lemma {:induction false} DotsAreMarks(s: string)
    requires R.DotsAt(s) < |s|
    ensures Marks(s) >= 2
  {
    if !(s[0] == '.' && s[1] == '.') { DotsAreMarks(s[1..]); }
  }

  /** A word of a range has at most one mark, and what is in its braces has two. */
  lemma RangeMarks(content: string)
    requires R.Range(content).Values?
    ensures forall a :: a in R.Range(content).words ==> Marks(a) <= 1 < Marks(content)
  {
    R.RangeWords(content);
    DotsAreMarks(content);
    hide R.Range, R.DotsAt;
    forall a | a in R.Range(content).words ensures Marks(a) <= 1 {
      if |a| == 1 { assert a[1..] == ""; } else { NoneMarks(a); }
    }
  }

  lemma AlternativeMarks(content: string, comma: bool, range: bool)
    requires Alternatives(content, comma, range).Values?
    ensures forall a :: a in Alternatives(content, comma, range).words ==> Marks(a) <= Marks(content)
  {
    hide SplitElements, R.Range;
    if range {
      RangeMarks(content);
    } else {
      SplitMarks(content, Plain, 0, "");
    }
  }

  /** The word around a brace, and what is in it. */
  function Prefix(token: string, b: Brace): string
    requires b.Brace? && |b.open| <= |token|
  {
    token[..|token| - |b.open|]
  }

  function Suffix(b: Brace): string
    requires b.Brace? && b.close != ""
  {
    b.close[1..]
  }

  function Content(b: Brace): string
    requires b.Brace? && 0 < |b.close| < |b.open|
  {
    b.open[1..|b.open| - |b.close|]
  }

  lemma TokenParts(token: string, b: Brace)
    requires b.Brace? && b.open != "" && IsSuffix(b.open, token)
    requires b.close != "" && |b.close| < |b.open| && IsSuffix(b.close, b.open)
    ensures token == Prefix(token, b) + ([b.open[0]] + (Content(b) + ([b.close[0]] + Suffix(b))))
  {
    assert b.close == [b.close[0]] + Suffix(b);
    assert b.open == [b.open[0]] + (Content(b) + b.close);
    assert token == Prefix(token, b) + b.open;
  }

  lemma MarksInside(p: string, o: char, c: string, z: char, t: string)
    ensures Marks(p + ([o] + (c + ([z] + t)))) >= Marks(p) + (if IsMark(o) then 1 else 0) + Marks(c) + Marks(t)
  {
    MarksAppend(p, [o] + (c + ([z] + t)));
    MarksAppend([o], c + ([z] + t));
    MarksAppend(c, [z] + t);
    MarksAppend([z], t);
    assert [o][1..] == "";
  }

  lemma FewerMarks(token: string, b: Brace, alt: string)
    requires b == FindBrace(token, Plain) && b.Brace? && Marks(alt) <= Marks(Content(b))
    ensures Marks(Prefix(token, b) + alt + Suffix(b)) < Marks(token)
  {
    TokenParts(token, b);
    assert IsMark(b.open[0]);
    hide FindBrace, Marks, Prefix, Content, Suffix;
    var p, t := Prefix(token, b), Suffix(b);
    MarksInside(p, b.open[0], Content(b), b.close[0], t);
    MarksAppend(p + alt, t);
    MarksAppend(p, alt);
  }

  lemma AlternativesMarks(token: string)
    ensures var b := FindBrace(token, Plain);
            b.Brace? ==>
            var alts := Alternatives(Content(b), b.comma, b.range);
            alts.Values? ==> forall a :: a in alts.words ==> Marks(Prefix(token, b) + a + Suffix(b)) < Marks(token)
  {
    hide FindBrace, Prefix, Suffix, Alternatives;
    var b := FindBrace(token, Plain);
    if b.Brace? {
      var alts := Alternatives(Content(b), b.comma, b.range);
      if alts.Values? {
        AlternativeMarks(Content(b), b.comma, b.range);
        forall a | a in alts.words ensures Marks(Prefix(token, b) + a + Suffix(b)) < Marks(token) {
          FewerMarks(token, b, a);
        }
      }
    }
  }

  /** The words, or an expansion that does not end. */
  datatype Expansion = Never | Expanded(words: seq<string>)

  function Both(a: Expansion, b: Expansion): Expansion {
    if a.Never? || b.Never? then Never else Expanded(a.words + b.words)
  }

  ghost function Expand(token: string): Expansion
    decreases Marks(token), 1, 0
  {
    var b := FindBrace(token, Plain);
    if b.NoBrace? then Expanded([token])
    else
      match Alternatives(Content(b), b.comma, b.range)
      case NoRange => Expanded([token])
      case Endless => Never
      case Values(words) =>
        AlternativesMarks(token);
        ExpandAll(Prefix(token, b), words, Suffix(b), Marks(token))
  }

  ghost function ExpandAll(prefix: string, alts: seq<string>, suffix: string, bound: nat): Expansion
    requires forall a :: a in alts ==> Marks(prefix + a + suffix) < bound
    decreases bound, 0, |alts|
  {
    if alts == [] then Expanded([])
    else
      assert alts[0] in alts;
      Both(Expand(prefix + alts[0] + suffix), ExpandAll(prefix, alts[1..], suffix, bound))
  }

  // ----- words as trees

  /** A quoted text, or an escaped rune. */
  datatype Quotation = SingleQuoted(text: string) | DoubleQuoted(text: string) | Escaped(c: char)

  /** A word is a row of literals, quotations and braces; a brace holds at least two words. */
  datatype Part = Literal(text: string) | Protected(q: Quotation) | Alt(words: Words)
  datatype Word = End | Cons(part: Part, rest: Word)
  datatype Words = One(word: Word) | More(word: Word, others: Words)

  function PrintQuotation(q: Quotation): string {
    match q
    case SingleQuoted(text) => "'" + (text + "'")
    case DoubleQuoted(text) => "\"" + (text + "\"")
    case Escaped(c) => ['\\', c]
  }

  function PrintPart(p: Part): string {
    match p
    case Literal(text) => text
    case Protected(q) => PrintQuotation(q)
    case Alt(words) => "{" + PrintWords(words) + "}"
  }

  function PrintWord(w: Word): string {
    match w
    case End => ""
    case Cons(part, rest) => PrintPart(part) + PrintWord(rest)
  }

  /** Words with commas between them. */
  function PrintWords(ws: Words): string {
    match ws
    case One(word) => PrintWord(word)
    case More(word, others) => PrintWord(word) + "," + PrintWords(others)
  }

  function Attach(x: string, b: seq<string>): seq<string> {
    if b == [] then [] else [x + b[0]] + Attach(x, b[1..])
  }

  /** Every way of taking one element from each, the left one varying slowest. */
  function Product(a: seq<string>, b: seq<string>): seq<string> {
    if a == [] then [] else Attach(a[0], b) + Product(a[1..], b)
  }

  function DenotePart(p: Part): seq<string> {
    match p
    case Literal(text) => [text]
    case Protected(q) => [PrintQuotation(q)]
    case Alt(words) => DenoteWords(words)
  }

  function DenoteWord(w: Word): seq<string> {
    match w
    case End => [""]
    case Cons(part, rest) => Product(DenotePart(part), DenoteWord(rest))
  }

  function DenoteWords(ws: Words): seq<string> {
    match ws
    case One(word) => DenoteWord(word)
    case More(word, others) => DenoteWord(word) + DenoteWords(others)
  }

  // Literals: no rune with a meaning of its own, and inside a brace no "..".

  predicate PlainRune(c: char) {
    c !in {'{', '}', ',', '\'', '"', '\\', RUNE_ERROR}
  }

  predicate PlainText(s: string) {
    forall i :: 0 <= i < |s| ==> PlainRune(s[i])
  }

  predicate NoDots(s: string) {
    forall i :: 0 <= i < |s| - 1 ==> s[i] != '.' || s[i + 1] != '.'
  }

  predicate InSingle(s: string) { forall i :: 0 <= i < |s| ==> s[i] != '\'' && s[i] != RUNE_ERROR }

  /** Text of a double quotation, in which a backslash may escape a rune that has a meaning there, or not. */
  predicate InDouble(s: string, escapes: bool) {
    s == "" ||
    if s[0] == '\\' then
      |s| > 1 && if IsEscapable(s[1]) then escapes && InDouble(s[2..], escapes) else InDouble(s[1..], escapes)
    else s[0] != '"' && s[0] != RUNE_ERROR && InDouble(s[1..], escapes)
  }

  predicate QuotationOk(q: Quotation, escapes: bool) {
    match q
    case SingleQuoted(text) => InSingle(text)
    case DoubleQuoted(text) => InDouble(text, escapes)
    case Escaped(c) => !IsWide(c)
  }

  predicate InnerPart(p: Part) {
    match p
    case Literal(text) => PlainText(text) && NoDots(text)
    case Protected(q) => QuotationOk(q, false)
    case Alt(words) => words.More? && InnerWords(words)
  }

  /** No two literals in a row, so that ".." cannot come about between them. */
  predicate InnerWord(w: Word) {
    w.Cons? ==> InnerPart(w.part) && InnerWord(w.rest) && (w.part.Literal? && w.rest.Cons? ==> !w.rest.part.Literal?)
  }

  predicate InnerWords(ws: Words) {
    match ws
    case One(word) => InnerWord(word)
    case More(word, others) => InnerWord(word) && InnerWords(others)
  }

  predicate TopPart(p: Part) {
    match p
    case Literal(text) => PlainText(text)
    case Protected(q) => QuotationOk(q, true)
    case Alt(_) => InnerPart(p)
  }

  predicate TopWord(w: Word) { w.Cons? ==> TopPart(w.part) && TopWord(w.rest) }

  // ----- quotations are passed over

  /** Both scanners go on behind quoted runes. */
  lemma QuotedStep(s: string, q: Quote, next: string, q': Quote, depth: int, comma: bool, range: bool)
    requires s != "" && Look(s, q) == Quoted(next, q')
    ensures TryBrace(s, q, depth, comma, range) == TryBrace(next, q', depth, comma, range)
    ensures FindBrace(s, q) == FindBrace(next, q')
  {
    hide Look;
  }

  lemma {:induction false} PassSingle(text: string, rest: string, depth: int, comma: bool, range: bool)
    requires InSingle(text)
    ensures var s := text + ("'" + rest);
            && TryBrace(s, Single, depth, comma, range) == TryBrace(rest, Plain, depth, comma, range)
            && FindBrace(s, Single) == FindBrace(rest, Plain)
  {
    hide TryBrace, FindBrace;
    var s := text + ("'" + rest);
    if text == "" {
      assert s == "'" + rest && s[1..] == rest;
      QuotedStep(s, Single, rest, Plain, depth, comma, range);
    } else {
      assert s[0] == text[0] && s[1..] == text[1..] + ("'" + rest);
      QuotedStep(s, Single, s[1..], Single, depth, comma, range);
      PassSingle(text[1..], rest, depth, comma, range);
    }
  }

  lemma {:induction false} PassDouble(text: string, escapes: bool, rest: string, depth: int, comma: bool, range: bool)
    requires InDouble(text, escapes)
    ensures var s := text + ("\"" + rest);
            && TryBrace(s, Double, depth, comma, range) == TryBrace(rest, Plain, depth, comma, range)
            && FindBrace(s, Double) == FindBrace(rest, Plain)
    decreases |text|
  {
    hide TryBrace, FindBrace;
    var s := text + ("\"" + rest);
    if text == "" {
      assert s == "\"" + rest && s[1..] == rest;
      QuotedStep(s, Double, rest, Plain, depth, comma, range);
    } else {
      var n := if text[0] == '\\' && IsEscapable(text[1]) then 2 else 1;
      assert s[0] == text[0] && (|text| > 1 ==> s[1] == text[1]) && s[n..] == text[n..] + ("\"" + rest);
      QuotedStep(s, Double, s[n..], Double, depth, comma, range);
      PassDouble(text[n..], escapes, rest, depth, comma, range);
    }
  }

  lemma PassQuotation(q: Quotation, rest: string, depth: int, comma: bool, range: bool)
    requires QuotationOk(q, true)
    ensures var s := PrintQuotation(q) + rest;
            && TryBrace(s, Plain, depth, comma, range) == TryBrace(rest, Plain, depth, comma, range)
            && FindBrace(s, Plain) == FindBrace(rest, Plain)
  {
    hide TryBrace, FindBrace, InSingle, InDouble;
    var s := PrintQuotation(q) + rest;
    match q
    case SingleQuoted(text) =>
      assert s[1..] == text + ("'" + rest);
      QuotedStep(s, Plain, s[1..], Single, depth, comma, range);
      PassSingle(text, rest, depth, comma, range);
    case DoubleQuoted(text) =>
      assert s[1..] == text + ("\"" + rest);
      QuotedStep(s, Plain, s[1..], Double, depth, comma, range);
      PassDouble(text, true, rest, depth, comma, range);
    case Escaped(c) =>
      assert s[2..] == rest;
      QuotedStep(s, Plain, rest, Plain, depth, comma, range);
  }

  lemma {:induction false} EscapesAllowed(text: string)
    requires InDouble(text, false)
    ensures InDouble(text, true)
  {
    if text != "" { EscapesAllowed(text[1..]); }
  }

  // ----- scanning a printed word

  /** One plain rune. */
  lemma TryRune(c: char, rest: string, depth: int, comma: bool, range: bool)
    requires PlainRune(c) && depth >= 1 && (c == '.' ==> rest == "" || rest[0] != '.')
    ensures TryBrace([c] + rest, Plain, depth, comma, range) == TryBrace(rest, Plain, depth, comma, range)
  {
    assert ([c] + rest)[1..] == rest;
  }

  lemma {:induction false} TryText(s: string, rest: string, depth: int, comma: bool, range: bool)
    requires PlainText(s) && depth >= 1 && NoDots(s) && (rest != "" ==> rest[0] != '.')
    ensures TryBrace(s + rest, Plain, depth, comma, range) == TryBrace(rest, Plain, depth, comma, range)
  {
    hide TryBrace;
    if s == "" { assert s + rest == rest; } else {
      assert s + rest == [s[0]] + (s[1..] + rest);
      TryRune(s[0], s[1..] + rest, depth, comma, range);
      TryText(s[1..], rest, depth, comma, range);
    }
  }

  // The three runes that structure a brace.

  lemma TryOpen(rest: string, depth: int, comma: bool, range: bool)
    ensures TryBrace("{" + rest, Plain, depth, comma, range) == TryBrace(rest, Plain, depth + 1, comma, range)
  {
    assert ("{" + rest)[1..] == rest;
  }

  lemma TryInnerClose(rest: string, depth: int, comma: bool, range: bool)
    requires depth > 1
    ensures TryBrace("}" + rest, Plain, depth, comma, range) == TryBrace(rest, Plain, depth - 1, comma, range)
  {
    assert ("}" + rest)[1..] == rest;
  }

  lemma TryComma(rest: string, depth: int, comma: bool, range: bool)
    ensures TryBrace("," + rest, Plain, depth, comma, range) == TryBrace(rest, Plain, depth, comma || depth == 1, range)
  {
    assert ("," + rest)[1..] == rest;
  }

  lemma {:induction false} TryPart(p: Part, rest: string, depth: int, comma: bool, range: bool)
    requires InnerPart(p) && depth >= 1 && (p.Literal? && rest != "" ==> rest[0] != '.')
    ensures TryBrace(PrintPart(p) + rest, Plain, depth, comma, range) == TryBrace(rest, Plain, depth, comma, range)
    decreases p
  {
    hide TryBrace;
    match p
    case Literal(text) => TryText(text, rest, depth, comma, range);
    case Protected(q) =>
      if q.DoubleQuoted? { EscapesAllowed(q.text); }
      PassQuotation(q, rest, depth, comma, range);
    case Alt(words) =>
      var close := "}" + rest;
      assert PrintPart(p) + rest == "{" + (PrintWords(words) + close);
      TryOpen(PrintWords(words) + close, depth, comma, range);
      TryWords(words, rest, depth + 1, comma, range);
      TryInnerClose(rest, depth + 1, comma, range);
  }

  lemma {:induction false} TryWord(w: Word, rest: string, depth: int, comma: bool, range: bool)
    requires InnerWord(w) && depth >= 1 && rest != "" && rest[0] != '.'
    ensures TryBrace(PrintWord(w) + rest, Plain, depth, comma, range) == TryBrace(rest, Plain, depth, comma, range)
    decreases w
  {
    hide TryBrace;
    match w
    case End => assert PrintWord(w) + rest == rest;
    case Cons(part, tail) =>
      var more := PrintWord(tail) + rest;
      assert PrintWord(w) + rest == PrintPart(part) + more;
      TryWord(tail, rest, depth, comma, range);
      TryPart(part, more, depth, comma, range);
  }

  /** Words at the first level set the comma flag, deeper ones leave no trace. */
  lemma {:induction false} TryWords(ws: Words, rest: string, depth: int, comma: bool, range: bool)
    requires InnerWords(ws) && depth >= 1
    ensures TryBrace(PrintWords(ws) + ("}" + rest), Plain, depth, comma, range)
            == TryBrace("}" + rest, Plain, depth, comma || (depth == 1 && ws.More?), range)
    decreases ws
  {
    hide TryBrace;
    var close := "}" + rest;
    match ws
    case One(word) => TryWord(word, close, depth, comma, range);
    case More(word, others) =>
      var more := PrintWords(others) + close;
      assert PrintWords(ws) + close == PrintWord(word) + ("," + more);
      TryWord(word, "," + more, depth, comma, range);
      TryComma(more, depth, comma, range);
      TryWords(others, rest, depth, comma || depth == 1, range);
  }

  /** A printed brace is found from its opening rune, with a comma and without a range. */
  lemma TryAlt(ws: Words, rest: string)
    requires InnerWords(ws) && ws.More?
    ensures TryBrace("{" + PrintWords(ws) + "}" + rest, Plain, 0, false, false) == Close("}" + rest, true, false)
  {
    var close := "}" + rest;
    assert TryBrace(close, Plain, 1, true, false) == Close(close, true, false);
    hide TryBrace;
    assert "{" + PrintWords(ws) + "}" + rest == "{" + (PrintWords(ws) + close);
    TryOpen(PrintWords(ws) + close, 0, false, false);
    TryWords(ws, rest, 1, false, false);
  }

  lemma {:induction false} FindText(s: string, rest: string)
    requires PlainText(s)
    ensures FindBrace(s + rest, Plain) == FindBrace(rest, Plain)
  {
    hide TryBrace;
    if s == "" { assert s + rest == rest; } else {
      assert (s + rest)[1..] == s[1..] + rest;
      FindText(s[1..], rest);
    }
  }

  // ----- splitting printed words

  lemma {:induction false} SplitText(s: string, rest: string, depth: int, current: string)
    requires PlainText(s)
    ensures SplitElements(s + rest, Plain, depth, current) == SplitElements(rest, Plain, depth, current + s)
    decreases |s|
  {
    if s == "" { assert s + rest == rest && current + s == current; } else {
      assert (s + rest)[1..] == s[1..] + rest;
      SplitText(s[1..], rest, depth, current + [s[0]]);
      assert current + [s[0]] + s[1..] == current + s;
    }
  }

  lemma SplitKeeps(s: string, q: Quote, depth: int, current: string, text: string, next: string, q': Quote)
    requires s != "" && SplitTurn(s, q, depth) == Keep(text, next, q', depth)
    ensures SplitElements(s, q, depth, current) == SplitElements(next, q', depth, current + text)
  {
    hide SplitTurn;
  }

  lemma {:induction false} SplitSingle(text: string, rest: string, depth: int, current: string)
    requires InSingle(text)
    ensures SplitElements(text + ("'" + rest), Single, depth, current) == SplitElements(rest, Plain, depth, current + (text + "'"))
    decreases |text|
  {
    hide SplitElements;
    var s := text + ("'" + rest);
    if text == "" {
      assert s == "'" + rest && s[1..] == rest && text + "'" == "'";
      SplitKeeps(s, Single, depth, current, "'", rest, Plain);
    } else {
      assert s[0] == text[0] && s[1..] == text[1..] + ("'" + rest);
      SplitKeeps(s, Single, depth, current, [s[0]], s[1..], Single);
      SplitSingle(text[1..], rest, depth, current + [s[0]]);
      assert current + [s[0]] + (text[1..] + "'") == current + (text + "'");
    }
  }

  lemma {:induction false} SplitDouble(text: string, rest: string, depth: int, current: string)
    requires InDouble(text, false)
    ensures SplitElements(text + ("\"" + rest), Double, depth, current) == SplitElements(rest, Plain, depth, current + (text + "\""))
    decreases |text|
  {
    hide SplitElements;
    var s := text + ("\"" + rest);
    if text == "" {
      assert s == "\"" + rest && s[1..] == rest && text + "\"" == "\"";
      SplitKeeps(s, Double, depth, current, "\"", rest, Plain);
    } else {
      assert s[0] == text[0] && (|text| > 1 ==> s[1] == text[1]) && s[1..] == text[1..] + ("\"" + rest);
      SplitKeeps(s, Double, depth, current, [s[0]], s[1..], Double);
      SplitDouble(text[1..], rest, depth, current + [s[0]]);
      assert current + [s[0]] + (text[1..] + "\"") == current + (text + "\"");
    }
  }

  lemma SplitSingleQuoted(text: string, rest: string, depth: int, current: string)
    requires InSingle(text)
    ensures SplitElements("'" + (text + "'") + rest, Plain, depth, current) == SplitElements(rest, Plain, depth, current + ("'" + (text + "'")))
  {
    hide SplitElements, InSingle;
    var s := "'" + (text + "'") + rest;
    assert s[1..] == text + ("'" + rest);
    SplitKeeps(s, Plain, depth, current, "'", s[1..], Single);
    SplitSingle(text, rest, depth, current + "'");
    assert current + "'" + (text + "'") == current + ("'" + (text + "'"));
  }

  lemma SplitDoubleQuoted(text: string, rest: string, depth: int, current: string)
    requires InDouble(text, false)
    ensures SplitElements("\"" + (text + "\"") + rest, Plain, depth, current) == SplitElements(rest, Plain, depth, current + ("\"" + (text + "\"")))
  {
    hide SplitElements, InDouble;
    var s := "\"" + (text + "\"") + rest;
    assert s[1..] == text + ("\"" + rest);
    SplitKeeps(s, Plain, depth, current, "\"", s[1..], Double);
    SplitDouble(text, rest, depth, current + "\"");
    assert current + "\"" + (text + "\"") == current + ("\"" + (text + "\""));
  }

  lemma SplitEscaped(c: char, rest: string, depth: int, current: string)
    ensures SplitElements(['\\', c] + rest, Plain, depth, current) == SplitElements(rest, Plain, depth, current + ['\\', c])
  {
    hide SplitElements;
    var s := ['\\', c] + rest;
    assert s[0] == '\\' && s[1] == c && s[2..] == rest;
    SplitKeeps(s, Plain, depth, current, ['\\', c], rest, Plain);
  }

  /** A quotation without escapes goes into the current element as it is. */
  lemma SplitQuotation(q: Quotation, rest: string, depth: int, current: string)
    requires QuotationOk(q, false)
    ensures SplitElements(PrintQuotation(q) + rest, Plain, depth, current) == SplitElements(rest, Plain, depth, current + PrintQuotation(q))
  {
    hide SplitElements, InSingle, InDouble;
    match q
    case SingleQuoted(text) => SplitSingleQuoted(text, rest, depth, current);
    case DoubleQuoted(text) => SplitDoubleQuoted(text, rest, depth, current);
    case Escaped(c) => SplitEscaped(c, rest, depth, current);
  }

  lemma SplitRune(c: char, rest: string, depth: int, current: string)
    requires c == '{' || c == '}' || (c == ',' && depth != 0)
    ensures SplitElements([c] + rest, Plain, depth, current)
            == SplitElements(rest, Plain, if c == '{' then depth + 1 else if c == '}' then depth - 1 else depth, current + [c])
  {
    assert ([c] + rest)[1..] == rest;
  }

  lemma {:induction false} SplitPart(p: Part, rest: string, depth: int, current: string)
    requires InnerPart(p) && depth >= 0
    ensures SplitElements(PrintPart(p) + rest, Plain, depth, current) == SplitElements(rest, Plain, depth, current + PrintPart(p))
    decreases p
  {
    hide SplitElements;
    match p
    case Literal(text) => SplitText(text, rest, depth, current);
    case Protected(q) => SplitQuotation(q, rest, depth, current);
    case Alt(words) =>
      var close := "}" + rest;
      assert PrintPart(p) + rest == "{" + (PrintWords(words) + close);
      SplitRune('{', PrintWords(words) + close, depth, current);
      SplitDeep(words, close, depth + 1, current + "{");
      SplitRune('}', rest, depth + 1, current + "{" + PrintWords(words));
      assert current + "{" + PrintWords(words) + "}" == current + PrintPart(p);
  }

  lemma {:induction false} SplitWord(w: Word, rest: string, depth: int, current: string)
    requires InnerWord(w) && depth >= 0
    ensures SplitElements(PrintWord(w) + rest, Plain, depth, current) == SplitElements(rest, Plain, depth, current + PrintWord(w))
    decreases w
  {
    hide SplitElements;
    match w
    case End => assert PrintWord(w) + rest == rest && current + PrintWord(w) == current;
    case Cons(part, tail) =>
      var more := PrintWord(tail) + rest;
      assert PrintWord(w) + rest == PrintPart(part) + more;
      SplitPart(part, more, depth, current);
      SplitWord(tail, rest, depth, current + PrintPart(part));
      assert current + PrintPart(part) + PrintWord(tail) == current + PrintWord(w);
  }

  /** Inside an inner brace commas do not split. */
  lemma {:induction false} SplitDeep(ws: Words, rest: string, depth: int, current: string)
    requires InnerWords(ws) && depth >= 1
    ensures SplitElements(PrintWords(ws) + rest, Plain, depth, current) == SplitElements(rest, Plain, depth, current + PrintWords(ws))
    decreases ws
  {
    hide SplitElements;
    match ws
    case One(word) => SplitWord(word, rest, depth, current);
    case More(word, others) =>
      var more, now := PrintWords(others) + rest, current + PrintWord(word);
      assert PrintWords(ws) + rest == PrintWord(word) + ("," + more);
      SplitWord(word, "," + more, depth, current);
      SplitRune(',', more, depth, now);
      SplitDeep(others, rest, depth, now + ",");
      assert now + "," + PrintWords(others) == current + PrintWords(ws);
  }

  function PrintEach(ws: Words): seq<string> {
    match ws
    case One(word) => [PrintWord(word)]
    case More(word, others) => [PrintWord(word)] + PrintEach(others)
  }

  /** Splitting undoes joining with commas. */
  lemma {:induction false} SplitJoined(ws: Words)
    requires InnerWords(ws)
    ensures SplitElements(PrintWords(ws), Plain, 0, "") == PrintEach(ws)
    decreases ws
  {
    match ws
    case One(word) =>
      SplitWord(word, "", 0, "");
      assert PrintWord(word) + "" == PrintWord(word) && "" + PrintWord(word) == PrintWord(word);
    case More(word, others) =>
      var more := "," + PrintWords(others);
      assert PrintWords(ws) == PrintWord(word) + more;
      SplitWord(word, more, 0, "");
      assert "" + PrintWord(word) == PrintWord(word);
      assert more[1..] == PrintWords(others);
      SplitJoined(others);
  }

  // ----- the algebra of ordered products

  lemma {:induction false} AttachAppend(x: string, a: seq<string>, b: seq<string>)
    ensures Attach(x, a + b) == Attach(x, a) + Attach(x, b)
  {
    if a == [] { assert a + b == b; } else {
      assert (a + b)[1..] == a[1..] + b;
      AttachAppend(x, a[1..], b);
    }
  }

  lemma {:induction false} AttachAttach(x: string, y: string, b: seq<string>)
    ensures Attach(x, Attach(y, b)) == Attach(x + y, b)
  {
    if b != [] {
      AttachAttach(x, y, b[1..]);
      assert Attach(y, b)[1..] == Attach(y, b[1..]);
      assert x + (y + b[0]) == x + y + b[0];
    }
  }

  lemma {:induction false} AttachEmpty(b: seq<string>)
    ensures Attach("", b) == b
  {
    if b != [] {
      AttachEmpty(b[1..]);
      assert "" + b[0] == b[0];
    }
  }

  lemma {:induction false} ProductAppend(a: seq<string>, b: seq<string>, c: seq<string>)
    ensures Product(a + b, c) == Product(a, c) + Product(b, c)
  {
    if a == [] { assert a + b == b; } else {
      assert (a + b)[1..] == a[1..] + b;
      ProductAppend(a[1..], b, c);
    }
  }

  lemma {:induction false} AttachProduct(x: string, a: seq<string>, b: seq<string>)
    ensures Attach(x, Product(a, b)) == Product(Attach(x, a), b)
  {
    if a != [] {
      AttachProduct(x, a[1..], b);
      AttachAppend(x, Attach(a[0], b), Product(a[1..], b));
      AttachAttach(x, a[0], b);
      assert Attach(x, a)[1..] == Attach(x, a[1..]);
    }
  }

  lemma {:induction false} ProductAssoc(a: seq<string>, b: seq<string>, c: seq<string>)
    ensures Product(Product(a, b), c) == Product(a, Product(b, c))
  {
    if a != [] {
      ProductAssoc(a[1..], b, c);
      ProductAppend(Attach(a[0], b), Product(a[1..], b), c);
      AttachProduct(a[0], b, c);
    }
  }

  lemma ProductOne(x: string, b: seq<string>)
    ensures Product([x], b) == Attach(x, b)
  {
    assert [x][1..] == [];
  }

  // ----- joining words

  function Append(a: Word, b: Word): Word {
    match a
    case End => b
    case Cons(part, rest) => Cons(part, Append(rest, b))
  }

  lemma {:induction false} DenoteAppend(a: Word, b: Word)
    ensures DenoteWord(Append(a, b)) == Product(DenoteWord(a), DenoteWord(b))
  {
    match a
    case End =>
      ProductOne("", DenoteWord(b));
      AttachEmpty(DenoteWord(b));
    case Cons(part, rest) =>
      DenoteAppend(rest, b);
      ProductAssoc(DenotePart(part), DenoteWord(rest), DenoteWord(b));
  }

  lemma {:induction false} PrintAppend(a: Word, b: Word)
    ensures PrintWord(Append(a, b)) == PrintWord(a) + PrintWord(b)
  {
    match a
    case End => assert "" + PrintWord(b) == PrintWord(b);
    case Cons(part, rest) =>
      PrintAppend(rest, b);
      assert PrintPart(part) + (PrintWord(rest) + PrintWord(b)) == PrintPart(part) + PrintWord(rest) + PrintWord(b);
  }

  lemma {:induction false} TopAppend(a: Word, b: Word)
    requires InnerWord(a) && TopWord(b)
    ensures TopWord(Append(a, b))
  {
    if a.Cons? {
      if a.part.Protected? && a.part.q.DoubleQuoted? { EscapesAllowed(a.part.q.text); }
      TopAppend(a.rest, b);
    }
  }

  // The number of braces in a tree.

  function PartAlts(p: Part): nat { if p.Alt? then 1 + WordsAlts(p.words) else 0 }
  function WordAlts(w: Word): nat { if w.End? then 0 else PartAlts(w.part) + WordAlts(w.rest) }
  function WordsAlts(ws: Words): nat { if ws.One? then WordAlts(ws.word) else WordAlts(ws.word) + WordsAlts(ws.others) }

  lemma {:induction false} AltsAppend(a: Word, b: Word)
    ensures WordAlts(Append(a, b)) == WordAlts(a) + WordAlts(b)
  {
    if a.Cons? { AltsAppend(a.rest, b); }
  }

  // ----- the theorem

  /** Text behind which the scan for a brace begins anew. */
  ghost predicate Inert(p: string) {
    forall rest: string :: FindBrace(p + rest, Plain) == FindBrace(rest, Plain)
  }

  lemma NothingInert()
    ensures Inert("")
  {
    forall rest: string ensures FindBrace("" + rest, Plain) == FindBrace(rest, Plain) {
      assert "" + rest == rest;
    }
  }

  lemma PlainInert(s: string)
    requires PlainText(s)
    ensures Inert(s)
  {
    hide FindBrace;
    forall rest: string ensures FindBrace(s + rest, Plain) == FindBrace(rest, Plain) {
      FindText(s, rest);
    }
  }

  lemma QuotationInert(q: Quotation)
    requires QuotationOk(q, true)
    ensures Inert(PrintQuotation(q))
  {
    hide FindBrace, TryBrace, QuotationOk, PrintQuotation;
    forall rest: string ensures FindBrace(PrintQuotation(q) + rest, Plain) == FindBrace(rest, Plain) {
      PassQuotation(q, rest, 0, false, false);
    }
  }

  lemma InertJoin(p: string, s: string)
    requires Inert(p) && Inert(s)
    ensures Inert(p + s)
  {
    hide FindBrace;
    forall rest: string ensures FindBrace(p + s + rest, Plain) == FindBrace(rest, Plain) {
      assert p + s + rest == p + (s + rest);
    }
  }

  lemma FindNone(p: string)
    requires Inert(p)
    ensures FindBrace(p, Plain) == NoBrace
  {
    assert p + "" == p;
    assert FindBrace(p + "", Plain) == FindBrace("", Plain);
  }

  lemma FindOpen(ws: Words, rest: string)
    requires InnerWords(ws) && ws.More?
    ensures var open := "{" + PrintWords(ws) + "}" + rest;
            FindBrace(open, Plain) == Brace(open, "}" + rest, true, false)
  {
    hide TryBrace, PrintWords;
    TryAlt(ws, rest);
  }

  /** The first brace of a word, behind text without one. */
  lemma FindAlt(p: string, ws: Words, rest: string)
    requires Inert(p) && InnerWords(ws) && ws.More?
    ensures var token := p + ("{" + PrintWords(ws) + "}" + rest);
            var b := FindBrace(token, Plain);
            && b.Brace? && b.comma && !b.range
            && Prefix(token, b) == p && Content(b) == PrintWords(ws) && Suffix(b) == rest
  {
    var open := "{" + PrintWords(ws) + "}" + rest;
    var token, close := p + open, "}" + rest;
    hide TryBrace, FindBrace;
    FindOpen(ws, rest);
    assert token[..|token| - |open|] == p;
    assert open[1..|open| - |close|] == PrintWords(ws);
    assert close[1..] == rest;
  }

  /** Expansion of a printed word behind text without a brace. */
  lemma {:induction false} ExpandWord(p: string, w: Word)
    requires Inert(p) && TopWord(w)
    ensures Expand(p + PrintWord(w)) == Expanded(Attach(p, DenoteWord(w)))
    decreases WordAlts(w), 2, w
  {
    hide FindBrace, Prefix, Content, Suffix, SplitElements, Inert;
    match w
    case End =>
      assert p + PrintWord(w) == p && p + "" == p;
      FindNone(p);
    case Cons(Literal(text), rest) =>
      PlainInert(text);
      ExpandBehind(p, text, w, rest);
    case Cons(Protected(q), rest) =>
      QuotationInert(q);
      ExpandBehind(p, PrintQuotation(q), w, rest);
    case Cons(Alt(ws), rest) =>
      var suffix := PrintWord(rest);
      var token := p + PrintWord(w);
      assert PrintWord(w) == PrintPart(w.part) + suffix && PrintPart(w.part) == "{" + PrintWords(ws) + "}";
      assert token == p + ("{" + PrintWords(ws) + "}" + suffix);
      FindAlt(p, ws, suffix);
      SplitJoined(ws);
      assert PartAlts(w.part) == 1 + WordsAlts(ws);
      AlternativesMarks(token);
      assert Expand(token) == ExpandAll(p, PrintEach(ws), suffix, Marks(token));
      ExpandWords(p, ws, rest, Marks(token), WordAlts(w));
  }

  /** A part without braces joins the text in front. */
  lemma {:induction false} ExpandBehind(p: string, text: string, w: Word, rest: Word)
    requires Inert(p) && Inert(text) && w.Cons? && w.rest == rest && !w.part.Alt? && PrintPart(w.part) == text && TopWord(rest)
    ensures Expand(p + PrintWord(w)) == Expanded(Attach(p, DenoteWord(w)))
    decreases WordAlts(w), 2, w, 0
  {
    hide Expand, Inert, Attach, Product, TopWord;
    assert DenotePart(w.part) == [text];
    assert p + PrintWord(w) == p + text + PrintWord(rest);
    InertJoin(p, text);
    ExpandWord(p + text, rest);
    ProductOne(text, DenoteWord(rest));
    AttachAttach(p, text, DenoteWord(rest));
  }

  lemma {:induction false} ExpandWords(p: string, ws: Words, rest: Word, bound: nat, n: nat)
    requires Inert(p) && InnerWords(ws) && TopWord(rest)
    requires WordsAlts(ws) + WordAlts(rest) < n
    requires forall a :: a in PrintEach(ws) ==> Marks(p + a + PrintWord(rest)) < bound
    ensures ExpandAll(p, PrintEach(ws), PrintWord(rest), bound) == Expanded(Attach(p, Product(DenoteWords(ws), DenoteWord(rest))))
    decreases n, 1, ws
  {
    hide Expand, Marks, Product, Attach, DenoteWord, PrintWord;
    var alts, suffix := PrintEach(ws), PrintWord(rest);
    assert alts[0] == PrintWord(ws.word);
    ExpandFirst(p, ws.word, rest, n);
    match ws
    case One(word) =>
      assert alts[1..] == [];
    case More(word, others) =>
      assert alts[1..] == PrintEach(others);
      ExpandWords(p, others, rest, bound, n);
      ProductAppend(DenoteWord(word), DenoteWords(others), DenoteWord(rest));
      AttachAppend(p, Product(DenoteWord(word), DenoteWord(rest)), Product(DenoteWords(others), DenoteWord(rest)));
  }

  /** One alternative in place of its brace. */
  lemma {:induction false} ExpandFirst(p: string, w: Word, rest: Word, n: nat)
    requires Inert(p) && InnerWord(w) && TopWord(rest)
    requires WordAlts(w) + WordAlts(rest) < n
    ensures Expand(p + PrintWord(w) + PrintWord(rest)) == Expanded(Attach(p, Product(DenoteWord(w), DenoteWord(rest))))
    decreases n, 0
  {
    hide Expand, Product, Attach, DenoteWord, PrintWord, Inert, InnerWord, TopWord;
    var joined := Append(w, rest);
    TopAppend(w, rest);
    AltsAppend(w, rest);
    PrintAppend(w, rest);
    DenoteAppend(w, rest);
    ExpandWord(p, joined);
    assert p + PrintWord(w) + PrintWord(rest) == p + PrintWord(joined);
  }

  /** Brace expansion means what the tree means: the ordered product of its alternatives. */
  lemma ExpandIsDenotation(w: Word)
    requires TopWord(w)
    ensures Expand(PrintWord(w)) == Expanded(DenoteWord(w))
  {
    hide Expand;
    NothingInert();
    ExpandWord("", w);
    assert "" + PrintWord(w) == PrintWord(w);
    AttachEmpty(DenoteWord(w));
  }

  lemma {:induction false} NothingToChoose(w: Word)
    requires WordAlts(w) == 0
    ensures DenoteWord(w) == [PrintWord(w)]
  {
    if w.Cons? {
      NothingToChoose(w.rest);
      ProductOne(PrintPart(w.part), DenoteWord(w.rest));
    }
  }

  /** A word whose braces are all quoted or escaped is left as it is. */
  lemma QuotedStays(w: Word)
    requires TopWord(w) && WordAlts(w) == 0
    ensures Expand(PrintWord(w)) == Expanded([PrintWord(w)])
  {
    hide Expand, TopWord;
    ExpandIsDenotation(w);
    NothingToChoose(w);
  }

  // ----- what splitting does to quoted text

  function Join(es: seq<string>): string
    requires es != []
  {
    if |es| == 1 then es[0] else es[0] + "," + Join(es[1..])
  }

  /** Quoting alone: how many runes belong together, the state after them, and whether they are an escape. */
  function QuoteTurn(s: string, q: Quote): (r: (nat, Quote, bool))
    requires s != ""
    ensures 0 < r.0 <= |s|
  {
    if s[0] == RUNE_ERROR then (1, q, false)
    else
      match q
      case Single => (1, if s[0] == '\'' then Plain else Single, false)
      case Double =>
        if s[0] == '"' then (1, Plain, false)
        else if s[0] == '\\' && |s| > 1 && IsEscapable(s[1]) then (2, Double, true)
        else (1, Double, false)
      case Plain =>
        if s[0] == '\'' then (1, Single, false)
        else if s[0] == '"' then (1, Double, false)
        else if s[0] == '\\' && |s| > 1 then (2, Plain, false)
        else (1, Plain, false)
  }

  /** The number of backslash escapes inside double quotes. */
  function Escapes(s: string, q: Quote): nat
    decreases |s|
  {
    if s == "" then 0
    else var (n, q', escape) := QuoteTurn(s, q); (if escape then 1 else 0) + Escapes(s[n..], q')
  }

  lemma TurnText(s: string, q: Quote, depth: int)
    requires s != ""
    ensures match SplitTurn(s, q, depth)
            case Cut(next) => s == "," + next
            case Keep(text, next, _, _) => text + next == s || |text| + |next| == |s| + 1
  {
    assert s == [s[0]] + s[1..];
    if |s| > 1 { assert s == [s[0], s[1]] + s[2..]; }
  }

  lemma TurnsAgree(s: string, q: Quote, depth: int)
    requires s != ""
    ensures var t, u := SplitTurn(s, q, depth), QuoteTurn(s, q);
            && t.next == s[u.0..]
            && (t.Cut? ==> u.1 == Plain && !u.2)
            && (t.Keep? ==> t.quote == u.1 && |t.text| + |t.next| - |s| == if u.2 then 1 else 0)
  {
  }

  lemma TurnEscapes(s: string, q: Quote, depth: int)
    requires s != ""
    ensures match SplitTurn(s, q, depth)
            case Cut(next) => Escapes(s, q) == Escapes(next, Plain)
            case Keep(text, next, q', _) => Escapes(s, q) == Escapes(next, q') + (|text| + |next| - |s|)
  {
    hide SplitTurn, QuoteTurn;
    TurnsAgree(s, q, depth);
  }

  lemma {:induction false} JoinSplit(s: string, q: Quote, depth: int, current: string)
    ensures var j := Join(SplitElements(s, q, depth, current));
            |j| == |current| + |s| + Escapes(s, q) && (Escapes(s, q) == 0 ==> j == current + s)
    decreases |s|
  {
    hide SplitTurn, Escapes;
    if s == "" {
      assert Escapes(s, q) == 0 by { EscapesNone(q); }
      assert current + s == current;
    } else {
      TurnText(s, q, depth);
      TurnEscapes(s, q, depth);
      match SplitTurn(s, q, depth)
      case Cut(next) =>
        var more := SplitElements(next, Plain, depth, "");
        JoinSplit(next, Plain, depth, "");
        assert ([current] + more)[1..] == more;
        assert "" + next == next && current + "," + next == current + ("," + next);
      case Keep(text, next, q', depth') =>
        JoinSplit(next, q', depth', current + text);
        assert current + text + next == current + (text + next);
    }
  }

  lemma EscapesNone(q: Quote)
    ensures Escapes("", q) == 0
  {
  }

  /** Joining the elements gives the text back, unless there is an escape inside double quotes. */
  lemma SplitKeepsText(content: string)
    ensures Join(SplitElements(content, Plain, 0, "")) == content <==> Escapes(content, Plain) == 0
  {
    hide SplitElements, Escapes, Join;
    JoinSplit(content, Plain, 0, "");
    assert "" + content == content;
  }

  /** An element with such an escape comes out with its backslash doubled. */
  lemma EscapeDoubled()
    ensures Expand("{\"\\$\",a}") == Expanded(["\"\\\\$\"", "a"])
  {
    QuotedAndPlain();
    SplitQuoted();
    hide FindBrace, SplitElements, TryBrace, ExpandAll, Around, Marks;
    var token, content := "{\"\\$\",a}", "\"\\$\",a";
    var b := FindBrace(token, Plain);
    assert b.open[1..|b.open| - |b.close|] == content;
    assert token[..0] == "" && "}"[1..] == "";
    var alts := ["\"\\\\$\"", "a"];
    AlternativesMarks(token);
    assert Prefix(token, b) == "" && Suffix(b) == "" && Alternatives(Content(b), b.comma, b.range) == R.Values(alts);
    forall w | w in alts ensures Expand("" + w + "") == Expanded(["" + w + ""]) {
      ExpandPlain("" + w + "");
    }
    ExpandAround("", alts, "", Marks(token));
    AroundNothing(alts);
  }

  lemma AroundNothing(words: seq<string>)
    ensures Around("", words, "") == words
  {
    forall k | 0 <= k < |words| ensures Around("", words, "")[k] == words[k] {
      assert "" + words[k] + "" == words[k];
    }
  }

  lemma QuotedAndPlain()
    ensures FindBrace("{\"\\$\",a}", Plain) == Brace("{\"\\$\",a}", "}", true, false)
  {
    var s, tail := "{\"\\$\",a}", "\",a}";
    hide TryBrace;
    QuotedTail();
    TryQuotedEscape('$', tail, 1);
    TryQuote(['\\', '$'] + tail, 1);
    assert s[1..] == ['"'] + (['\\', '$'] + tail);
    TryOpenComma(s);
  }

  lemma TryQuote(rest: string, depth: int)
    ensures TryBrace(['"'] + rest, Plain, depth, false, false) == TryBrace(rest, Double, depth, false, false)
  {
    assert (['"'] + rest)[1..] == rest;
  }

  lemma TryQuotedEscape(c: char, rest: string, depth: int)
    requires IsEscapable(c)
    ensures TryBrace(['\\', c] + rest, Double, depth, false, false) == TryBrace(rest, Double, depth, false, false)
  {
    assert (['\\', c] + rest)[2..] == rest;
  }

  lemma TryOpenComma(s: string)
    requires s != "" && s[0] == '{' && TryBrace(s[1..], Plain, 1, false, false) == Close("}", true, false)
    ensures TryBrace(s, Plain, 0, false, false) == Close("}", true, false)
  {
  }

  lemma QuotedTail()
    ensures TryBrace("\",a}", Double, 1, false, false) == Close("}", true, false)
  {
    assert PlainRune('a');
    hide *;
    TryEndQuote(",a}", 1);
    TryComma("a}", 1, false, false);
    TryRune('a', "}", 1, true, false);
    TryLast(true, false);
    QuotedTailText();
  }

  lemma QuotedTailText()
    ensures "\",a}" == ['"'] + ",a}" && ",a}" == "," + "a}" && "a}" == ['a'] + "}"
  {
  }

  lemma TryEndQuote(rest: string, depth: int)
    ensures TryBrace(['"'] + rest, Double, depth, false, false) == TryBrace(rest, Plain, depth, false, false)
  {
    assert (['"'] + rest)[1..] == rest;
  }

  lemma TryLast(comma: bool, range: bool)
    requires comma || range
    ensures TryBrace("}", Plain, 1, comma, range) == Close("}", comma, range)
  {
  }

  lemma SplitQuoted()
    ensures SplitElements("\"\\$\",a", Plain, 0, "") == ["\"\\\\$\"", "a"]
  {
    var s, t := "\"\\$\",a", "\",a";
    assert s[1..] == "\\$\",a" && s[1..][2..] == t && t[1..] == ",a" && ",a"[1..] == "a" && "a"[1..] == "";
    assert SplitTurn(s, Plain, 0) == Keep("\"", s[1..], Double, 0);
    assert SplitTurn(s[1..], Double, 0) == Keep("\\\\$", t, Double, 0);
    assert SplitTurn(t, Double, 0) == Keep("\"", ",a", Plain, 0);
    assert SplitTurn(",a", Plain, 0) == Cut("a");
    assert SplitTurn("a", Plain, 0) == Keep("a", "", Plain, 0);
    assert "" + "\"" + "\\\\$" + "\"" == "\"\\\\$\"";
    assert "" + "a" == "a" && SplitElements("a", Plain, 0, "") == SplitElements("", Plain, 0, "a") == ["a"];
    assert SplitElements(",a", Plain, 0, "\"\\\\$\"") == ["\"\\\\$\""] + ["a"];
  }

  // ----- ranges

  /** A word without an opening brace stays as it is. */
  lemma ExpandPlain(token: string)
    requires '{' !in token
    ensures Expand(token) == Expanded([token])
  {
    hide TryBrace;
    var b := FindBrace(token, Plain);
  }

  /** So does one without a closing brace. */
  lemma ExpandUnclosed(token: string)
    requires '}' !in token
    ensures Expand(token) == Expanded([token])
  {
    hide TryBrace;
    var b := FindBrace(token, Plain);
  }

  lemma TryRangeRune(c: string, tail: string, range: bool)
    requires PlainText(c) && c != "" && tail != "" && tail[0] == '}'
    ensures TryBrace(c + tail, Plain, 1, false, range) ==
      TryBrace(c[1..] + tail, Plain, 1, false, range || (c[0] == '.' && |c| > 1 && c[1] == '.'))
  {
    assert (c + tail)[1..] == c[1..] + tail;
    assert PlainRune(c[0]);
  }

  lemma {:induction false} TryRange(c: string, rest: string, range: bool)
    requires PlainText(c) && (range || R.DotsAt(c) < |c|)
    ensures TryBrace(c + ("}" + rest), Plain, 1, false, range) == Close("}" + rest, false, true)
  {
    if c == "" {
      assert c + ("}" + rest) == "}" + rest;
    } else {
      hide TryBrace, PlainText, R.DotsAt;
      TryRangeRune(c, "}" + rest, range);
      PlainTail(c);
      TryRange(c[1..], rest, range || (c[0] == '.' && |c| > 1 && c[1] == '.'));
    }
  }

  lemma PlainTail(c: string)
    requires PlainText(c) && c != ""
    ensures PlainText(c[1..])
    ensures R.DotsAt(c) < |c| ==> (c[0] == '.' && |c| > 1 && c[1] == '.') || R.DotsAt(c[1..]) < |c[1..]|
  {
  }

  /** The words with the same text before and behind each. */
  function Around(p: string, words: seq<string>, rest: string): (r: seq<string>)
    ensures |r| == |words|
  {
    seq(|words|, k requires 0 <= k < |words| => p + words[k] + rest)
  }

  lemma {:induction false} ExpandAround(p: string, words: seq<string>, rest: string, bound: nat)
    requires forall w :: w in words ==> Expand(p + w + rest) == Expanded([p + w + rest])
    requires forall a :: a in words ==> Marks(p + a + rest) < bound
    ensures ExpandAll(p, words, rest, bound) == Expanded(Around(p, words, rest))
    decreases |words|
  {
    hide Expand, Marks;
    if words == [] {
    } else {
      assert words[0] in words;
      ExpandAround(p, words[1..], rest, bound);
      assert Around(p, words, rest) == [p + words[0] + rest] + Around(p, words[1..], rest);
    }
  }

  lemma FindRange(p: string, c: string, rest: string)
    requires PlainText(p) && PlainText(c) && R.DotsAt(c) < |c|
    ensures var token := p + ("{" + c + "}" + rest);
            var b := FindBrace(token, Plain);
            b.Brace? && !b.comma && b.range && Prefix(token, b) == p && Content(b) == c && Suffix(b) == rest
  {
    var open, close := "{" + c + "}" + rest, "}" + rest;
    hide TryBrace, FindBrace, PlainText, R.DotsAt;
    FindOpenRange(c, rest);
    FindText(p, open);
    BraceParts(p, c, rest, false, true);
  }

  lemma BraceParts(p: string, c: string, rest: string, comma: bool, range: bool)
    ensures var open := "{" + c + "}" + rest;
            var b := Brace(open, "}" + rest, comma, range);
            Prefix(p + open, b) == p && Content(b) == c && Suffix(b) == rest
  {
    var open, close := "{" + c + "}" + rest, "}" + rest;
    assert (p + open)[..|p + open| - |open|] == p;
    assert open[1..|open| - |close|] == c;
    assert close[1..] == rest;
  }

  lemma FindOpenRange(c: string, rest: string)
    requires PlainText(c) && R.DotsAt(c) < |c|
    ensures var open := "{" + c + "}" + rest;
            FindBrace(open, Plain) == Brace(open, "}" + rest, false, true)
  {
    var open, close := "{" + c + "}" + rest, "}" + rest;
    hide TryBrace, PlainText, R.DotsAt;
    assert open[1..] == c + close;
    TryRange(c, rest, false);
    TryOpenRange(open, close);
  }

  lemma TryOpenRange(open: string, close: string)
    requires open != "" && open[0] == '{' && TryBrace(open[1..], Plain, 1, false, false) == Close(close, false, true)
    ensures TryBrace(open, Plain, 0, false, false) == Close(close, false, true)
  {
  }

  /** A range in a word: the word stays, never ends, or becomes one word for each value of the range. */
  lemma RangeExpands(p: string, c: string, rest: string)
    requires PlainText(p) && PlainText(c) && PlainText(rest) && R.DotsAt(c) < |c|
    ensures var token := p + ("{" + c + "}" + rest);
            Expand(token) ==
              match R.Range(c)
              case NoRange => Expanded([token])
              case Endless => Never
              case Values(words) => Expanded(Around(p, words, rest))
  {
    hide FindBrace, Prefix, Content, Suffix, R.Range, R.DotsAt, ExpandAll, Around;
    var token := p + ("{" + c + "}" + rest);
    FindRange(p, c, rest);
    if R.Range(c).Values? {
      R.RangeOpens(c);
      AlternativesMarks(token);
      forall w | w in R.Range(c).words ensures Expand(p + w + rest) == Expanded([p + w + rest]) {
        WordStays(p, w, rest);
      }
      hide Expand;
      ExpandAround(p, R.Range(c).words, rest, Marks(token));
    }
  }

  /** Between plain text even an opening brace stays, because nothing closes it. */
  lemma WordStays(p: string, w: string, rest: string)
    requires PlainText(p) && PlainText(rest) && ('{' !in w || w == "{")
    ensures Expand(p + w + rest) == Expanded([p + w + rest])
  {
    PlainHasNoBrace(p);
    PlainHasNoBrace(rest);
    hide Expand, PlainText;
    if w == "{" { ExpandUnclosed(p + w + rest); } else { ExpandPlain(p + w + rest); }
  }

  lemma PlainHasNoBrace(s: string)
    requires PlainText(s)
    ensures '{' !in s && '}' !in s
  {
  }

  /** A range that stands still makes the expansion of its word endless. */
  lemma EndlessRangeNeverEnds()
    ensures Expand("{a..c..4294967296}") == Never
  {
    R.EndlessRange();
    hide *;
    EndlessText();
    AloneExpands("{a..c..4294967296}", "a..c..4294967296");
  }

  lemma EndlessText()
    ensures PlainText("a..c..4294967296") && "{a..c..4294967296}" == "{" + ("a..c..4294967296" + "}")
  {
    assert "a..c..4294967296" + "}" == "a..c..4294967296}";
  }

  lemma PaddedSignExpands()
    ensures Expand("{001..-1}") == Expanded(["001", "000", "0-1"])
  {
    R.PaddedSign();
    hide *;
    PaddedText();
    AloneExpands("{001..-1}", "001..-1");
  }

  lemma PaddedText()
    ensures PlainText("001..-1") && "{001..-1}" == "{" + ("001..-1" + "}")
  {
    assert "001..-1" + "}" == "001..-1}";
  }

  /** A range that comes to the opening brace. */
  lemma BraceComesOut()
    ensures Expand("{c..a..-24}").Expanded? && "{" in Expand("{c..a..-24}").words
  {
    R.BraceRangeOut();
    hide *;
    RisingText();
    AloneExpands("{c..a..-24}", "c..a..-24");
  }

  lemma RisingText()
    ensures PlainText("c..a..-24") && "{c..a..-24}" == "{" + ("c..a..-24" + "}")
  {
    assert "c..a..-24" + "}" == "c..a..-24}";
  }

  lemma AloneExpands(token: string, c: string)
    requires token == "{" + (c + "}") && PlainText(c) && R.Range(c) != R.NoRange
    ensures Expand(token) == if R.Range(c) == R.Endless then Never else Expanded(R.Range(c).words)
  {
    assert R.DotsAt(c) < |c|;
    hide Expand, R.Range, R.DotsAt;
    RangeExpands("", c, "");
    assert "" + ("{" + c + "}" + "") == token;
    if R.Range(c).Values? { AroundNothing(R.Range(c).words); }
  }
}
