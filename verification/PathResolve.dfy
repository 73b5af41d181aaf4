/**
  Lexical path resolution: a buffer that is extended, cut back and shifted while the path is scanned, against
  a fold of the path's components over a stack of names.
 */
module PathResolve {
  // Scanning a path.

  /** The position of the first slash, or the end. */
  function Span(p: string): (n: nat)
    ensures n <= |p| && (n < |p| ==> p[n] == '/') && forall i :: 0 <= i < n ==> p[i] != '/'
  {
    if p == "" || p[0] == '/' then 0 else 1 + Span(p[1..])
  }

  /** What follows the first component and one slash. */
  function After(p: string): (r: string)
    ensures p != "" ==> |r| < |p| || Span(p) == 0
    ensures Span(p) < |p| ==> |r| == |p| - Span(p) - 1
  {
    if Span(p) < |p| then p[Span(p) + 1..] else ""
  }

  function Components(p: string): seq<string>
    decreases |p|
  {
    if p == "" then []
    else if p[0] == '/' then Components(p[1..])
    else [p[..Span(p)]] + Components(After(p))
  }

  /** One component: `..` goes up but never above the root, `.` stays, a name goes down. */
  function Step(stack: seq<string>, c: string): seq<string> {
    if c == ".." then (if stack == [] then [] else stack[..|stack| - 1])
    else if c == "." then stack
    else stack + [c]
  }

  function Fold(stack: seq<string>, components: seq<string>): seq<string>
    decreases |components|
  {
    if components == [] then stack else Fold(Step(stack, components[0]), components[1..])
  }

  /** A stack of names as an absolute path. */
  function Joined(stack: seq<string>): string {
    if stack == [] then "" else Joined(stack[..|stack| - 1]) + "/" + stack[|stack| - 1]
  }

  function Printed(stack: seq<string>): string { if stack == [] then "/" else Joined(stack) }

  predicate IsName(c: string) { c != "" && '/' !in c }

  predicate Names(stack: seq<string>) { forall i :: 0 <= i < |stack| ==> IsName(stack[i]) }

  // What the code computes, on strings.

  function Trim(s: string): string { if |s| > 1 && s[|s| - 1] == '/' then s[..|s| - 1] else s }

  /** Runs of slashes become one. */
  function Collapse(s: string): string {
    if |s| < 2 then s
    else if s[0] == '/' && s[1] == '/' then Collapse(s[1..])
    else [s[0]] + Collapse(s[1..])
  }

  function Normalize(s: string): string { Collapse(Trim(s)) }

  /** The length that is left after the last name is dropped, before its slash is. */
  function NameStart(out: string, l: nat): (r: nat)
    requires l <= |out|
    ensures r <= l && (l >= 1 ==> r >= 1)
  {
    if l > 1 && out[l - 1] != '/' then NameStart(out, l - 1) else l
  }

  /** Never shorter than one character: from nothing, that one is the terminator. */
  function Up(out: string): (r: string)
    ensures 1 <= |r| && (out != "" ==> |r| <= |out|)
  {
    if out == "" then "\0" else
      var l := NameStart(out, |out|);
      out[..if l > 1 then l - 1 else l]
  }

  function Down(out: string, c: string): string {
    (if out != "" && out[|out| - 1] != '/' then out + "/" else out) + c
  }

  /** One component of a relative path. */
  function Moved(out: string, c: string): (r: string)
    ensures |r| <= |out| + 1 + |c|
  {
    if c == ".." then Up(out) else if c == "." then out else Down(out, c)
  }

  function Walk(out: string, p: string): (r: string)
    decreases |p|
  {
    if p == "" then out
    else if p[0] == '/' then Walk(out, p[1..])
    else Walk(Moved(out, p[..Span(p)]), After(p))
  }

  /** A string that is empty, or that starts with its terminator, becomes the root. */
  function Rooted(s: string): string { if s == "" || s[0] == '\0' then "/" else s }

  function Resolve(cwd: string, path: string): string {
    if path == "" || path == "." then Normalize(cwd)
    else if path == "~" then "/"
    else if path[0] == '/' then Normalize(path)
    else Normalize(Rooted(Walk(cwd, path)))
  }

  // The stack is what the strings mean.

  lemma {:induction false} NameStartOf(out: string, c: string, k: nat)
    requires '/' !in c && k <= |c| && out != "" && out[|out| - 1] == '/'
    ensures NameStart(out + c, |out| + k) == |out|
    decreases k
  {
    if k > 0 {
      assert (out + c)[|out| + k - 1] == c[k - 1];
      NameStartOf(out, c, k - 1);
    }
  }

  lemma UpFrom(out: string, c: string)
    requires '/' !in c && out != "" && out[|out| - 1] == '/'
    ensures Up(out + c) == if |out| > 1 then out[..|out| - 1] else out
  {
    NameStartOf(out, c, |c|);
    assert (out + c)[..|out|] == out;
    assert |out| > 1 ==> (out + c)[..|out| - 1] == out[..|out| - 1];
  }

  /** Going up from a printed stack drops its last name. */
  lemma UpPrinted(stack: seq<string>)
    requires Names(stack)
    ensures Up(Printed(stack)) == Printed(Step(stack, ".."))
  {
    if stack != [] {
      var front, c := stack[..|stack| - 1], stack[|stack| - 1];
      var out := Joined(front) + "/";
      assert IsName(c);
      UpFrom(out, c);
      hide Up;
      if front == [] {
        assert out == "/";
      } else {
        JoinedNonempty(front);
        assert out[..|out| - 1] == Joined(front);
      }
    }
  }

  lemma JoinedNonempty(stack: seq<string>)
    requires stack != []
    ensures |Joined(stack)| >= 1
  {
  }

  /** Going down adds a name. */
  lemma DownPrinted(stack: seq<string>, c: string)
    requires Names(stack) && IsName(c)
    ensures Down(Printed(stack), c) == Printed(stack + [c])
  {
    assert (stack + [c])[..|stack|] == stack;
    if stack == [] {
      assert Joined([]) == "";
      assert "" + "/" + c == "/" + c;
    } else {
      var d := stack[|stack| - 1];
      assert IsName(d);
      assert Joined(stack)[|Joined(stack)| - 1] == d[|d| - 1];
    }
  }

  lemma SpanIsName(p: string)
    requires p != "" && p[0] != '/'
    ensures IsName(p[..Span(p)])
  {
  }

  lemma MovedPrinted(stack: seq<string>, c: string)
    requires Names(stack) && IsName(c)
    ensures Moved(Printed(stack), c) == Printed(Step(stack, c)) && Names(Step(stack, c))
  {
    hide Up, Down, Printed;
    UpPrinted(stack);
    DownPrinted(stack, c);
  }

  lemma ComponentsNext(p: string)
    requires p != "" && p[0] != '/'
    ensures Components(p) == [p[..Span(p)]] + Components(After(p))
  {
  }

  lemma FoldNext(stack: seq<string>, p: string)
    requires p != "" && p[0] != '/'
    ensures Fold(stack, Components(p)) == Fold(Step(stack, p[..Span(p)]), Components(After(p)))
  {
    hide Span, After;
    ComponentsNext(p);
    assert Components(p)[0] == p[..Span(p)] && Components(p)[1..] == Components(After(p));
  }

  /** The scan of a relative path is the fold of its components. */
  lemma {:induction false} WalkIsFold(stack: seq<string>, p: string)
    requires Names(stack)
    ensures Walk(Printed(stack), p) == Printed(Fold(stack, Components(p))) && Names(Fold(stack, Components(p)))
    decreases |p|
  {
    hide Span, After, Moved, Printed, Step, Names;
    if p == "" {
    } else if p[0] == '/' {
      WalkIsFold(stack, p[1..]);
    } else {
      var c := p[..Span(p)];
      SpanIsName(p);
      MovedPrinted(stack, c);
      WalkIsFold(Step(stack, c), After(p));
      FoldNext(stack, p);
    }
  }

  /** No empty component, and no slash at the end except for the root's. */
  predicate Tidy(s: string) {
    && (forall i :: 0 <= i < |s| - 1 ==> !(s[i] == '/' && s[i + 1] == '/'))
    && (|s| > 1 ==> s[|s| - 1] != '/')
  }

  lemma {:induction false} CollapseTidy(s: string)
    requires forall i :: 0 <= i < |s| - 1 ==> !(s[i] == '/' && s[i + 1] == '/')
    ensures Collapse(s) == s
  {
    if |s| >= 2 {
      assert !(s[0] == '/' && s[0 + 1] == '/');
      forall i | 0 <= i < |s[1..]| - 1 ensures !(s[1..][i] == '/' && s[1..][i + 1] == '/') {
        assert !(s[i + 1] == '/' && s[i + 1 + 1] == '/');
      }
      CollapseTidy(s[1..]);
    }
  }

  predicate AllSlashes(s: string) { forall i :: 0 <= i < |s| ==> s[i] == '/' }

  /** Collapsing leaves no run of slashes, keeps the ends, and only makes one character of slashes alone. */
  lemma {:induction false} CollapseEnds(s: string)
    requires s != ""
    ensures var r := Collapse(s);
      && r != "" && r[0] == s[0] && r[|r| - 1] == s[|s| - 1]
      && (|r| == 1 <==> |s| == 1 || AllSlashes(s))
      && forall i :: 0 <= i < |r| - 1 ==> !(r[i] == '/' && r[i + 1] == '/')
  {
    if |s| >= 2 {
      CollapseEnds(s[1..]);
      assert s == [s[0]] + s[1..];
      var r, t := Collapse(s), Collapse(s[1..]);
      if r != t {
        assert r == [s[0]] + t && r[1..] == t;
        forall i | 0 <= i < |r| - 1 ensures !(r[i] == '/' && r[i + 1] == '/') {
          if i > 0 { assert !(t[i - 1] == '/' && t[i - 1 + 1] == '/'); }
        }
      }
    }
  }

  /** Only one of the slashes at the end goes before runs of them are collapsed. */
  lemma NormalizeTidy(s: string)
    ensures Tidy(Normalize(s)) <==> !(|s| >= 2 && s[|s| - 2..] == "//") || AllSlashes(s)
  {
    var t := Trim(s);
    if t != "" {
      hide Collapse;
      CollapseEnds(t);
      if |s| >= 2 && s[|s| - 1] == '/' {
        assert s == t + "/";
        assert s[|s| - 2..] == [s[|s| - 2], s[|s| - 1]];
      }
    }
  }

  lemma SlashLeft()
    ensures Resolve("/", "/a//") == "/a/" && !Tidy("/a/")
  {
    assert Trim("/a//") == "/a/";
    CollapseTidy("/a/");
  }

  lemma {:induction false} JoinedTidy(stack: seq<string>)
    requires Names(stack)
    ensures Tidy(Joined(stack)) && (stack != [] ==> |Joined(stack)| > 1)
  {
    if stack != [] {
      var front, c := stack[..|stack| - 1], stack[|stack| - 1];
      JoinedTidy(front);
      assert IsName(c);
      var j, s := Joined(front), Joined(stack);
      assert s == j + "/" + c;
      forall i | 0 <= i < |s| - 1 ensures !(s[i] == '/' && s[i + 1] == '/') {
        if i < |j| - 1 {
          assert !(j[i] == '/' && j[i + 1] == '/');
        } else if i >= |j| {
          assert s[i + 1] == c[i - |j|];
        }
      }
    }
  }

  lemma PrintedTidy(stack: seq<string>)
    requires Names(stack)
    ensures Normalize(Printed(stack)) == Printed(stack)
  {
    JoinedTidy(stack);
    CollapseTidy(Printed(stack));
  }

  /** A path that is resolved against the current directory. */
  predicate Relative(path: string) { path != "~" && (path == "" || path[0] != '/') }

  lemma DotStays(stack: seq<string>)
    ensures Fold(stack, Components("")) == Fold(stack, Components(".")) == stack
  {
    assert Span(".") == 1 + Span("");
    FoldNext(stack, ".");
  }

  /** Resolving against a canonical directory is the fold of the components over its stack of names. */
  lemma ResolveIsFold(stack: seq<string>, path: string)
    requires Names(stack) && Relative(path)
    ensures var s := Fold(stack, Components(path));
            Names(s) && Resolve(Printed(stack), path) == Printed(s)
  {
    hide Walk, Normalize, Printed, Fold, Components;
    WalkIsFold(stack, path);
    PrintedTidy(stack);
    PrintedTidy(Fold(stack, Components(path)));
    PrintedRooted(Fold(stack, Components(path)));
    DotStays(stack);
  }

  /** `~` is the root, and what an absolute path resolves to does not depend on the directory. */
  lemma ResolveElsewhere(cwd: string, other: string, path: string)
    requires !Relative(path)
    ensures Resolve(cwd, path) == Resolve(other, path)
    ensures path == "~" ==> Resolve(cwd, path) == Resolve(cwd, "/") == Printed([])
  {
    hide Walk;
    PrintedTidy([]);
    assert Printed([]) == "/";
  }

  lemma {:induction false} PrintedRooted(stack: seq<string>)
    ensures Printed(stack) != "" && Printed(stack)[0] == '/'
  {
    if |stack| > 1 {
      PrintedRooted(stack[..|stack| - 1]);
    } else if |stack| == 1 {
      assert Joined(stack[..0]) == "";
    }
  }

  predicate Absolute(s: string) { s != "" && s[0] == '/' }

  lemma {:induction false} WalkAbsolute(out: string, p: string)
    requires Absolute(out)
    ensures Absolute(Walk(out, p))
    decreases |p|
  {
    if p == "" {
    } else if p[0] == '/' {
      WalkAbsolute(out, p[1..]);
    } else {
      WalkAbsolute(Moved(out, p[..Span(p)]), After(p));
    }
  }

  /** From any absolute directory, tidy or not, every path resolves to an absolute one. */
  lemma ResolveAbsolute(cwd: string, path: string)
    requires Absolute(cwd)
    ensures Absolute(Resolve(cwd, path))
  {
    hide Walk, Collapse;
    WalkAbsolute(cwd, path);
    CollapseEnds(Trim(cwd));
    CollapseEnds(Trim(Rooted(Walk(cwd, path))));
    if path != "" { CollapseEnds(Trim(path)); }
  }

  lemma {:induction false} ComponentsJoin(p: string, r: string)
    requires r != "" && r[0] == '/'
    ensures Components(p + r) == Components(p) + Components(r)
    decreases |p|
  {
    hide Components, Span, After;
    if p == "" {
      assert p + r == r;
      ComponentsEmpty();
    } else if p[0] == '/' {
      assert (p + r)[1..] == p[1..] + r;
      ComponentsSlash(p);
      ComponentsSlash(p + r);
      ComponentsJoin(p[1..], r);
    } else {
      ComponentsJoinName(p, r);
      if Span(p) < |p| {
        ComponentsJoin(After(p), r);
      }
    }
  }

  lemma ComponentsJoinName(p: string, r: string)
    requires p != "" && p[0] != '/' && r != "" && r[0] == '/'
    ensures var rest := if Span(p) < |p| then Components(After(p) + r) else Components(r);
            Components(p + r) == [p[..Span(p)]] + rest
    ensures var rest := if Span(p) < |p| then Components(After(p)) else [];
            Components(p) == [p[..Span(p)]] + rest
  {
    hide Components, Span;
    FirstOfJoin(p, r);
    ComponentsNext(p);
    ComponentsNext(p + r);
    ComponentsSlash(r);
    ComponentsEmpty();
  }

  lemma ComponentsEmpty()
    ensures Components("") == []
  {
  }

  lemma ComponentsSlash(r: string)
    requires r != "" && r[0] == '/'
    ensures Components(r) == Components(r[1..])
  {
  }

  lemma FirstOfJoin(p: string, r: string)
    requires p != "" && p[0] != '/' && r != "" && r[0] == '/'
    ensures (p + r)[..Span(p + r)] == p[..Span(p)]
    ensures After(p + r) == if Span(p) < |p| then After(p) + r else r[1..]
  {
    SpanJoin(p, r);
    assert (p + r)[..Span(p)] == p[..Span(p)];
    if Span(p) < |p| {
      assert (p + r)[Span(p) + 1..] == p[Span(p) + 1..] + r;
    } else {
      assert (p + r)[|p| + 1..] == r[1..];
    }
  }

  lemma {:induction false} SpanJoin(p: string, r: string)
    requires r != "" && r[0] == '/'
    ensures Span(p + r) == Span(p)
  {
    if p == "" {
      assert p + r == r;
    } else {
      assert (p + r)[1..] == p[1..] + r;
      SpanJoin(p[1..], r);
    }
  }

  lemma ComponentsAfterSlash(q: string)
    ensures Components("/" + q) == Components(q)
  {
    assert ("/" + q)[1..] == q;
  }

  lemma {:induction false} FoldJoin(stack: seq<string>, a: seq<string>, b: seq<string>)
    ensures Fold(stack, a + b) == Fold(Fold(stack, a), b)
    decreases |a|
  {
    if a == [] {
      assert a + b == b;
    } else {
      assert (a + b)[1..] == a[1..] + b;
      FoldJoin(Step(stack, a[0]), a[1..], b);
    }
  }

  /** Resolving one path and then another is resolving the two joined by a slash. */
  lemma ResolveTwice(stack: seq<string>, p: string, q: string)
    requires Names(stack) && Relative(p) && p != "" && Relative(q)
    ensures Resolve(Printed(stack), p) != ""
    ensures Resolve(Resolve(Printed(stack), p), q) == Resolve(Printed(stack), p + "/" + q)
  {
    hide Resolve, Components, Fold;
    ResolveIsFold(stack, p);
    ResolveIsFold(Fold(stack, Components(p)), q);
    assert Relative(p + "/" + q) by { assert (p + "/" + q)[0] == p[0] && |p + "/" + q| >= 2; }
    ResolveIsFold(stack, p + "/" + q);
    assert p + "/" + q == p + ("/" + q);
    ComponentsJoin(p, "/" + q);
    ComponentsAfterSlash(q);
    FoldJoin(stack, Components(p), Components(q));
    JoinedTidy(Fold(stack, Components(p)));
  }

  // The code, on a buffer.

  /** A character buffer and the length of the string in it; one place is kept for the terminator. */
  class Buffer {
    const chars: array<char>
    var len: nat

    ghost predicate Valid()
      reads this
    {
      2 <= chars.Length && len < chars.Length
    }

    function Text(): string
      requires Valid()
      reads this, chars
    {
      chars[..len]
    }

    constructor (size: nat)
      requires size >= 2
      ensures Valid() && fresh(chars) && chars.Length == size && Text() == ""
    {
      chars := new char[size](_ => ' ');
      len := 0;
    }

    /** Copies what fits. */
    method Set(s: string)
      requires Valid()
      modifies this, chars
      ensures Valid() && Text() == if |s| < chars.Length then s else s[..chars.Length - 1]
    {
      var i := 0;
      while i < |s| && i < chars.Length - 1
        invariant 0 <= i <= |s| && i < chars.Length && chars[..i] == s[..i]
      {
        chars[i] := s[i];
        i := i + 1;
      }
      len := i;
    }

    method Append(c: char)
      requires Valid() && len + 1 < chars.Length
      modifies this, chars
      ensures Valid() && Text() == old(Text()) + [c]
    {
      chars[len] := c;
      len := len + 1;
    }

    /** Removes the character at `i` by shifting the rest to the left. */
    method Remove(i: nat)
      requires Valid() && i < len
      modifies this, chars
      ensures Valid() && Text() == old(Text())[..i] + old(Text())[i + 1..]
    {
      var j := i;
      while j + 1 < len
        invariant i <= j < len == old(len)
        invariant forall k :: 0 <= k < i ==> chars[k] == old(chars[k])
        invariant forall k :: i <= k < j ==> chars[k] == old(chars[k + 1])
        invariant forall k :: j <= k < len ==> chars[k] == old(chars[k])
      {
        chars[j] := chars[j + 1];
        j := j + 1;
      }
      len := len - 1;
    }

    /** Looks at the same place again after a removal. */
    method CollapseText()
      requires Valid()
      modifies this, chars
      ensures Valid() && Text() == Collapse(old(Text()))
    {
      hide Collapse;
      ghost var goal := Collapse(Text());
      CollapseEmpty();
      assert Text()[0..] == Text();
      var i := 0;
      while i < len
        invariant 0 <= i <= len && Valid()
        invariant Text()[..i] + Collapse(Text()[i..]) == goal
        decreases 2 * len - i
      {
        ghost var was := Text();
        if i + 1 < len && chars[i] == '/' && chars[i + 1] == '/' {
          CollapseDrop(was, i);
          Remove(i);
          assert Text()[..i] == was[..i] && Text()[i..] == was[i + 1..];
        } else {
          CollapseNext(was, i);
          i := i + 1;
        }
      }
      assert Text()[i..] == "" && Text()[..i] == Text();
    }

    method NormalizeText()
      requires Valid()
      modifies this, chars
      ensures Valid() && Text() == Normalize(old(Text()))
    {
      hide Collapse;
      if len > 1 && chars[len - 1] == '/' {
        len := len - 1;
      }
      assert Text() == Trim(old(Text()));
      CollapseText();
    }

    /** Cuts the last name off. */
    method GoUp()
      requires Valid()
      modifies this, chars
      ensures Valid() && Text() == Up(old(Text()))
    {
      if len == 0 {
        chars[0] := '\0';
        len := 1;
        return;
      }
      ghost var was := Text();
      var l := len;
      while l > 1 && chars[l - 1] != '/'
        invariant 1 <= l <= len && NameStart(was, l) == NameStart(was, len)
      {
        l := l - 1;
      }
      if l > 1 { l := l - 1; }
      len := l;
    }

    /** Copies the name at position `i` of the path, as far as there is room. */
    method CopyName(path: string, i: nat) returns (next: nat)
      requires Valid() && i < |path| && path[i] != '/' && len + 1 < chars.Length
      modifies this, chars
      ensures Valid() && i < next <= i + Span(path[i..]) && Text() == old(Text()) + path[i..next]
      ensures old(len) + Span(path[i..]) < chars.Length ==> next == i + Span(path[i..])
    {
      hide Span;
      ghost var n, base := Span(path[i..]), Text();
      next := i;
      while next < |path| && path[next] != '/' && len < chars.Length - 1
        invariant i <= next <= i + n && Valid() && Text() == base + path[i..next]
      {
        assert path[next] == path[i..][next - i];
        Append(path[next]);
        next := next + 1;
      }
      assert next < |path| ==> path[next] == path[i..][next - i];
    }

    method AddSlash()
      requires Valid() && len + 2 < chars.Length
      modifies this, chars
      ensures Valid() && Text() == Down(old(Text()), "") && len <= old(len) + 1
    {
      if len > 0 && chars[len - 1] != '/' {
        Append('/');
      }
    }

    /** Handles the component at position `i` of the path and one slash behind it. */
    method Component(path: string, i: nat) returns (full: bool, next: nat)
      requires Valid() && i < |path| && path[i] != '/'
      modifies this, chars
      ensures Valid() && i <= next <= |path| && (!full ==> i < next)
      ensures old(len) + 1 + Span(path[i..]) < chars.Length ==>
        !full && path[next..] == After(path[i..]) && Text() == Moved(old(Text()), path[i..][..Span(path[i..])])
    {
      ghost var p := path[i..];
      DotsSeen(p);
      full, next := false, i;
      if path[i] == '.' && i + 1 < |path| && path[i + 1] == '.' && (i + 2 == |path| || path[i + 2] == '/') {
        GoUp();
        next := i + 2;
      } else if path[i] == '.' && (i + 1 == |path| || path[i + 1] == '/') {
        next := i + 1;
      } else {
        hide Span;
        if len + 2 >= chars.Length { return true, i; }
        ghost var was := Text();
        AddSlash();
        next := CopyName(path, i);
        assert path[i..next] == p[..next - i];
        assert Text() == Down(was, p[..next - i]);
      }
      hide Span;
      if next < |path| && path[next] == '/' {
        next := next + 1;
      }
    }

    /** The scan of a relative path, on top of the directory that is in the buffer. */
    method WalkText(path: string)
      requires Valid()
      modifies this, chars
      ensures Valid()
      ensures old(len) + |path| + 2 <= chars.Length ==> Text() == Walk(old(Text()), path)
    {
      hide Span, Walk, Moved, After;
      ghost var start, room := Text(), len + |path| + 2 <= chars.Length;
      var i := 0;
      assert path[0..] == path;
      WalkEnd();
      while i < |path|
        invariant 0 <= i <= |path| && Valid()
        invariant room ==> Walk(Text(), path[i..]) == Walk(start, path)
        invariant room ==> len <= |start| + i + (if i == |path| then 1 else 0)
      {
        if path[i] == '/' {
          WalkSlash(Text(), path, i);
          i := i + 1;
        } else {
          WalkName(Text(), path, i);
          var full, next := Component(path, i);
          if full { return; }
          if room { AfterAt(path, i, next); }
          i := next;
        }
      }
    }

    /**
      Resolution into the buffer.  The text always fits; it is the resolved path whenever the directory, the
      path, a slash and the terminator fit together.
     */
    method ResolveInto(cwd: string, path: string)
      requires Valid() && (path == "" || path == "." ==> |cwd| < chars.Length)
      modifies this, chars
      ensures Valid()
      ensures |cwd| + |path| + 2 <= chars.Length ==> Text() == Resolve(cwd, path)
    {
      hide Walk, Normalize;
      if path == "" || path == "." {
        Set(cwd);
        NormalizeText();
        return;
      }
      if path == "~" {
        Set("/");
        return;
      }
      if path[0] == '/' {
        Set(path);
      } else {
        Set(cwd);
        WalkText(path);
        if len == 0 || chars[0] == '\0' {
          Set("/");
        }
      }
      NormalizeText();
    }
  }

  lemma WalkEnd()
    ensures forall out: string :: Walk(out, "") == out
  {
  }

  lemma WalkSlash(out: string, path: string, i: nat)
    requires i < |path| && path[i] == '/'
    ensures Walk(out, path[i..]) == Walk(out, path[i + 1..])
  {
    assert path[i..][1..] == path[i + 1..];
  }

  lemma WalkName(out: string, path: string, i: nat)
    requires i < |path| && path[i] != '/'
    ensures Walk(out, path[i..]) == Walk(Moved(out, path[i..][..Span(path[i..])]), After(path[i..]))
  {
  }

  lemma AfterAt(path: string, i: nat, next: nat)
    requires i < next <= |path| && path[i] != '/' && path[next..] == After(path[i..])
    ensures next == i + Span(path[i..]) + (if i + Span(path[i..]) < |path| then 1 else 0)
  {
  }

  lemma DotsSeen(p: string)
    requires p != "" && p[0] != '/'
    ensures p[..Span(p)] == ".." <==> |p| >= 2 && p[0] == '.' && p[1] == '.' && (|p| == 2 || p[2] == '/')
    ensures p[..Span(p)] == "." <==> p[0] == '.' && (|p| == 1 || p[1] == '/')
  {
  }

  lemma CollapseEmpty()
    ensures Collapse("") == ""
  {
  }

  lemma CollapseDrop(s: string, i: nat)
    requires i + 1 < |s| && s[i] == '/' && s[i + 1] == '/'
    ensures Collapse(s[i..]) == Collapse(s[i + 1..])
  {
    assert s[i..][1..] == s[i + 1..];
  }

  lemma CollapseNext(s: string, i: nat)
    requires i < |s| && !(i + 1 < |s| && s[i] == '/' && s[i + 1] == '/')
    ensures s[..i] + Collapse(s[i..]) == s[..i + 1] + Collapse(s[i + 1..])
  {
    assert s[i..][1..] == s[i + 1..];
    assert s[..i + 1] == s[..i] + [s[i]];
    if |s[i..]| < 2 {
      assert s[i..] == [s[i]] && s[i + 1..] == [];
    }
  }
}
