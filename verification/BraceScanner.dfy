/**
  The scanning loops of brace expansion, over an index into the word, and the recursive expansion
  built on them.  Each does what the function of `BraceExpansion` it refines does.
 */
module BraceScanner {
  import opened BraceExpansion
  import R = BraceRange

  /** The quoting block both searches start with: stop, skip to `next`, or look at the rune. */
  method LookAt(token: string, i: nat, q: Quote) returns (stop: bool, skip: bool, next: nat, q': Quote)
    requires i < |token|
    ensures var r := Look(token[i..], q);
            && stop == r.Bad? && skip == r.Quoted? && (r.Live? ==> q == Plain)
            && (skip ==> i < next <= |token| && token[next..] == r.next && q' == r.quote)
  {
    var ch := token[i];
    stop, skip, next, q' := false, true, i + 1, q;
    if ch == RUNE_ERROR { return true, false, i, q; }
    if q == Single {
      if ch == '\'' { q' := Plain; }
      return;
    }
    if q == Double {
      if ch == '"' {
        q' := Plain;
      } else if ch == '\\' && i + 1 < |token| && IsEscapable(token[i + 1]) {
        next := i + 2;
      }
      return;
    }
    if ch == '\'' { q' := Single; return; }
    if ch == '"' { q' := Double; return; }
    if ch == '\\' && i + 1 < |token| {
      // Two bytes are skipped: in front of a wide rune the next byte does not decode.
      if IsWide(token[i + 1]) { return true, false, i, q; }
      next := i + 2;
      return;
    }
    skip := false;
  }

  method TryBraceAt(token: string, openPos: nat) returns (found: bool, end: nat, comma: bool, range: bool)
    requires openPos < |token|
    ensures var c := TryBrace(token[openPos..], Plain, 0, false, false);
            found == c.Close? && (found ==> end < |token| && token[end..] == c.at && comma == c.comma && range == c.range)
  {
    hide Look, IsSuffix;
    ghost var want := TryBrace(token[openPos..], Plain, 0, false, false);
    var depth, q, i := 0, Plain, openPos;
    comma, range, end := false, false, 0;
    while i < |token|
      invariant openPos <= i <= |token| && want == TryBrace(token[i..], q, depth, comma, range)
    {
      var stop, skip, next, q' := LookAt(token, i, q);
      assert token[i + 1..] == token[i..][1..];
      if stop { return false, 0, false, false; }
      if skip { i, q := next, q'; continue; }
      var ch := token[i];
      if ch == '{' { depth := depth + 1; i := i + 1; continue; }
      if ch == '}' {
        depth := depth - 1;
        if depth == 0 { return comma || range, i, comma, range; }
        i := i + 1;
        continue;
      }
      if ch == ',' && depth == 1 { comma := true; }
      if ch == '.' && depth == 1 && i + 1 < |token| && token[i + 1] == '.' { range := true; }
      i := i + 1;
    }
    return false, 0, false, false;
  }

  method FindBraceExpansion(token: string) returns (start: int, end: int, comma: bool, range: bool)
    ensures var b := FindBrace(token, Plain);
            if b.NoBrace? then start == -1
            else 0 <= start < end < |token| && token[start..] == b.open && token[end..] == b.close && comma == b.comma && range == b.range
  {
    hide Look, TryBrace;
    var q, i := Plain, 0;
    ghost var want := FindBrace(token, Plain);
    assert token[0..] == token;
    while i < |token|
      invariant 0 <= i <= |token| && want == FindBrace(token[i..], q)
    {
      var stop, skip, next, q' := LookAt(token, i, q);
      assert token[i + 1..] == token[i..][1..];
      if stop { break; }
      if skip { i, q := next, q'; continue; }
      if token[i] == '{' {
        var found, e, c, r := TryBraceAt(token, i);
        if found { return i, e, c, r; }
      }
      i := i + 1;
    }
    return -1, -1, false, false;
  }

  lemma SplitEnd(q: Quote, depth: int, current: string)
    ensures SplitElements("", q, depth, current) == [current]
  {
  }

  lemma SplitNext(s: string, q: Quote, depth: int, current: string)
    requires s != ""
    ensures var t := SplitTurn(s, q, depth);
            SplitElements(s, q, depth, current) ==
              if t.Cut? then [current] + SplitElements(t.next, Plain, depth, "")
              else SplitElements(t.next, t.quote, t.depth, current + t.text)
  {
  }

  method SplitBraceElements(content: string) returns (elements: seq<string>)
    ensures elements == SplitElements(content, Plain, 0, "")
  {
    hide IsEscapable, SplitElements;
    elements := [];
    var current, depth, q, i := "", 0, Plain, 0;
    ghost var want := SplitElements(content, Plain, 0, "");
    assert content[0..] == content;
    while i < |content|
      invariant 0 <= i <= |content| && want == elements + SplitElements(content[i..], q, depth, current)
    {
      var ch := content[i];
      ghost var s := content[i..];
      assert content[i + 1..] == s[1..] && (i + 2 <= |content| ==> content[i + 2..] == s[2..]);
      SplitNext(s, q, depth, current);
      if ch == RUNE_ERROR { current := current + [ch]; i := i + 1; continue; }
      if q == Single {
        current := current + [ch];
        if ch == '\'' { q := Plain; }
        i := i + 1;
        continue;
      }
      if q == Double {
        ghost var before := current;
        current := current + [ch];
        if ch == '"' {
          q := Plain;
        } else if ch == '\\' && i + 1 < |content| && IsEscapable(content[i + 1]) {
          current := current + [ch] + [content[i + 1]];
          assert current == before + [ch, ch, content[i + 1]];
          i := i + 2;
          continue;
        }
        i := i + 1;
        continue;
      }
      if ch == '\'' { q := Single; current := current + [ch]; i := i + 1; continue; }
      if ch == '"' { q := Double; current := current + [ch]; i := i + 1; continue; }
      if ch == '\\' && i + 1 < |content| {
        current := current + [ch, content[i + 1]];
        i := i + 2;
        continue;
      }
      if ch == '{' {
        depth := depth + 1;
        current := current + [ch];
      } else if ch == '}' {
        depth := depth - 1;
        current := current + [ch];
      } else if ch == ',' && depth == 0 {
        assert elements + ([current] + SplitElements(s[1..], Plain, depth, "")) == elements + [current] + SplitElements(s[1..], Plain, depth, "");
        elements := elements + [current];
        current := "";
      } else {
        current := current + [ch];
      }
      i := i + 1;
    }
    assert content[i..] == "";
    SplitEnd(q, depth, current);
    elements := elements + [current];
  }

  /** The expansion of a word; `never` says that the source would not end. */
  method ExpandBraceToken(token: string) returns (never: bool, results: seq<string>)
    ensures never == Expand(token).Never? && (!never ==> Expand(token) == Expanded(results))
    decreases Marks(token), 1
  {
    hide FindBrace, SplitElements, Marks, ExpandAll, R.Range;
    never, results := false, [token];
    var start, end, comma, range := FindBraceExpansion(token);
    if start < 0 { return; }
    ghost var b := FindBrace(token, Plain);
    var prefix, suffix, content := token[..start], token[end + 1..], token[start + 1..end];
    assert prefix == Prefix(token, b) && suffix == Suffix(b) && content == Content(b);
    var alternatives;
    if range {
      var isRange, endless, words := R.ExpandRange(content);
      if !isRange { return; }
      if endless { return true, []; }
      alternatives := words;
    } else if comma {
      alternatives := SplitBraceElements(content);
    } else {
      return;
    }
    AlternativesMarks(token);
    never, results := ExpandAlternatives(prefix, alternatives, suffix, Marks(token));
  }

  method ExpandAlternatives(prefix: string, alternatives: seq<string>, suffix: string, ghost bound: nat)
    returns (never: bool, results: seq<string>)
    requires forall a :: a in alternatives ==> Marks(prefix + a + suffix) < bound
    ensures var e := ExpandAll(prefix, alternatives, suffix, bound);
            never == e.Never? && (!never ==> e == Expanded(results))
    decreases bound, 0
  {
    hide Expand, Marks;
    never, results := false, [];
    assert alternatives[0..] == alternatives;
    for k := 0 to |alternatives|
      invariant ExpandAll(prefix, alternatives, suffix, bound) == Both(Expanded(results), ExpandAll(prefix, alternatives[k..], suffix, bound))
    {
      assert alternatives[k] in alternatives && alternatives[k..][1..] == alternatives[k + 1..];
      var combined := prefix + alternatives[k] + suffix;
      var expanded;
      never, expanded := ExpandBraceToken(combined);
      if never { return true, []; }
      BothAssoc(results, expanded, ExpandAll(prefix, alternatives[k + 1..], suffix, bound));
      results := results + expanded;
    }
  }

  lemma BothAssoc(a: seq<string>, b: seq<string>, c: Expansion)
    ensures Both(Expanded(a), Both(Expanded(b), c)) == Both(Expanded(a + b), c)
  {
    if c.Expanded? { assert a + (b + c.words) == a + b + c.words; }
  }
}
