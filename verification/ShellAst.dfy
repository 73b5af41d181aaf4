/**
  Tokens and syntax trees of the shell, and the parser as a function from the remaining tokens to
  a node and the tokens left over.  A token is one of the reserved strings or any other string; a
  missing (nil) node is `None`.  `Stuck` stands for a loop that would never end; `ShellHangs` says
  exactly when that is.
 */
module ShellAst {
  import opened Common

  datatype Token =
    | Semi | DoubleSemi | AndIf | OrIf | Pipe | Amp | CloseParen | OpenBrace
    | Great | DoubleGreat | Less | Bang
    | If | Then | Elif | Else | Fi | While | Until | For | In | Do | Done | Case | Esac
    | Word(text: Text)

  /** The strings that the parser compares with. */
  predicate IsReserved(s: string) {
    s in {
      ";", ";;", "&&", "||", "|", "&", ")", "{", ">", ">>", "<", "!",
      "if", "then", "elif", "else", "fi", "while", "until", "for", "in", "do", "done", "case", "esac"
    }
  }

  /** Any other string. */
  type Text = s: string | !IsReserved(s)

  lemma NotReserved(s: string)
    requires '=' in s
    ensures !IsReserved(s)
  {
  }

  datatype Assignment = Assignment(name: string, value: string)
  datatype Redir = Redir(op: Token, target: Token)
  datatype ElifBranch = ElifBranch(cond: Option<Node>, body: Option<Node>)
  datatype CaseBranch = CaseBranch(patterns: seq<Token>, body: Node)

  datatype Node =
    | Program(commands: seq<Node>)
    | AndOr(left: Node, op: Token, right: Node)
    | Pipeline(commands: seq<Node>, negated: bool)
    | Command(assignments: seq<Assignment>, args: seq<Token>, redirs: seq<Redir>, background: bool)
    | IfStmt(cond: Option<Node>, body: Option<Node>, elifs: seq<ElifBranch>, els: Option<Node>)
    | WhileStmt(cond: Option<Node>, body: Option<Node>, until: bool)
    | ForStmt(name: Token, words: seq<Token>, body: Option<Node>)
    | CaseStmt(word: Token, branches: seq<CaseBranch>)

  datatype Parsed<T> = Stuck | Parsed(value: T, rest: seq<Token>)
  {
    predicate IsFailure() { Stuck? }
    function PropagateFailure<U>(): Parsed<U> requires Stuck? { Stuck }
    function Extract(): (T, seq<Token>) requires Parsed? { (value, rest) }
  }

  predicate IsKeyword(t: Token) {
    t in {If, Then, Elif, Else, Fi, While, Until, For, In, Do, Done, Case, Esac}
  }

  predicate IsOperator(t: Token) {
    t in {Semi, AndIf, OrIf, Pipe, Amp, DoubleGreat, Great, Less}
  }

  predicate IsCompoundEnd(t: Token) {
    t in {Then, Elif, Else, Fi, Do, Done, Esac}
  }

  /** Tokens at which a simple command stops without consuming them. */
  predicate IsStop(t: Token) {
    t in {Semi, DoubleSemi, AndIf, OrIf, Pipe, CloseParen, OpenBrace} || IsCompoundEnd(t)
  }

  predicate IsRedirOp(t: Token) {
    t in {Great, DoubleGreat, Less}
  }

  predicate IsBadTarget(t: Token) {
    t == Word("") || t in {Semi, AndIf, OrIf, Pipe} || IsCompoundEnd(t)
  }

  // The token ahead, or the empty string.
  function Peek(ts: seq<Token>): Token {
    if ts == [] then Word("") else ts[0]
  }

  function Advance(ts: seq<Token>): (r: seq<Token>)
    ensures |r| <= |ts|
    ensures ts != [] ==> |r| < |ts|
  {
    if ts == [] then [] else ts[1..]
  }

  function Match(ts: seq<Token>, t: Token): (r: seq<Token>)
    ensures |r| <= |ts|
  {
    if ts != [] && ts[0] == t then ts[1..] else ts
  }

  function SkipSemis(ts: seq<Token>): (r: seq<Token>)
    ensures |r| <= |ts|
  {
    if ts != [] && ts[0] == Semi then SkipSemis(ts[1..]) else ts
  }

  // ----- assignments

  predicate IsNameStart(c: char) {
    'a' <= c <= 'z' || 'A' <= c <= 'Z' || c == '_'
  }

  predicate IsNameChar(c: char) {
    IsNameStart(c) || '0' <= c <= '9'
  }

  predicate IsVarName(s: string) {
    |s| > 0 && IsNameStart(s[0]) && forall i :: 1 <= i < |s| ==> IsNameChar(s[i])
  }

  /** The index of the first `=`, or the length. */
  function EqIndex(s: string): (i: nat)
    ensures i <= |s|
    ensures forall k :: 0 <= k < i ==> s[k] != '='
    ensures i < |s| ==> s[i] == '='
  {
    if s == "" || s[0] == '=' then 0
    else
      assert forall k :: 1 <= k < |s| ==> s[k] == s[1..][k - 1];
      1 + EqIndex(s[1..])
  }

  predicate IsAssignment(t: Token) {
    t.Word? && 0 < EqIndex(t.text) < |t.text| && IsVarName(t.text[..EqIndex(t.text)])
  }

  function ToAssignment(t: Token): Assignment
    requires IsAssignment(t)
  {
    var i := EqIndex(t.text);
    Assignment(t.text[..i], t.text[i + 1..])
  }

  // ----- the grammar

  type Result = Parsed<Option<Node>>

  const NO_COMMAND := Command([], [], [], false)

  function FinishSimple(cmd: Node, ts: seq<Token>): Result
    requires cmd.Command?
  {
    Parsed(if cmd.args == [] && cmd.assignments == [] then None else Some(cmd), ts)
  }

  function ParseSimple(ts: seq<Token>, cmd: Node): (r: Result)
    requires cmd.Command?
    ensures r.Parsed? ==> |r.rest| <= |ts|
    ensures r.Parsed? && r.value.Some? && cmd.args == [] && cmd.assignments == [] ==> |r.rest| < |ts|
    ensures r.Parsed? && r.value.Some? ==> r.value.value.Command?
    decreases |ts|
  {
    if ts == [] || IsStop(ts[0]) then FinishSimple(cmd, ts)
    else if ts[0] == Amp then
      if |ts| > 1 && ts[1] == Amp then FinishSimple(cmd, ts) else FinishSimple(cmd.(background := true), ts[1..])
    else if IsRedirOp(ts[0]) then
      if |ts| == 1 then Stuck
      else if IsBadTarget(ts[1]) then ParseSimple(ts[1..], cmd.(args := cmd.args + [ts[0]]))
      else ParseSimple(ts[2..], cmd.(redirs := cmd.redirs + [Redir(ts[0], ts[1])]))
    else if IsAssignment(ts[0]) && cmd.args == [] then
      ParseSimple(ts[1..], cmd.(assignments := cmd.assignments + [ToAssignment(ts[0])]))
    else ParseSimple(ts[1..], cmd.(args := cmd.args + [ts[0]]))
  }

  function ParseCommand(ts: seq<Token>): (r: Result)
    ensures r.Parsed? ==> |r.rest| <= |ts| && (r.value.Some? ==> |r.rest| < |ts|)
    decreases |ts|, 1
  {
    match Peek(ts)
    case If => ParseIf(ts[1..])
    case While => ParseWhile(ts[1..], false)
    case Until => ParseWhile(ts[1..], true)
    case For => ParseFor(ts[1..])
    case Case => ParseCase(ts[1..])
    case _ => ParseSimple(ts, NO_COMMAND)
  }

  function PipeMore(cmds: seq<Node>, ts: seq<Token>): (r: Parsed<seq<Node>>)
    ensures r.Parsed? ==> |r.rest| <= |ts| && |cmds| <= |r.value|
    decreases |ts|, 2
  {
    if Peek(ts) != Pipe then Parsed(cmds, ts)
    else
      var (next, rest) :- ParseCommand(ts[1..]);
      if next.None? then Parsed(cmds, rest) else PipeMore(cmds + [next.value], rest)
  }

  /** A `!` negates unless a keyword or an operator follows it. */
  predicate Negates(ts: seq<Token>) {
    Peek(ts) == Bang && !IsKeyword(Peek(Advance(ts))) && !IsOperator(Peek(Advance(ts)))
  }

  function ParsePipeline(ts: seq<Token>): (r: Result)
    ensures r.Parsed? ==> |r.rest| <= |ts| && (r.value.Some? ==> |r.rest| < |ts|)
    decreases |ts|, 3
  {
    var negated := Negates(ts);
    var (cmd, rest) :- ParseCommand(if negated then ts[1..] else ts);
    if cmd.None? then Parsed(None, rest)
    else
      var (cmds, rest') :- PipeMore([cmd.value], rest);
      Parsed(Some(if |cmds| == 1 && !negated then cmds[0] else Pipeline(cmds, negated)), rest')
  }

  function AndOrMore(left: Node, ts: seq<Token>): (r: Result)
    ensures r.Parsed? ==> |r.rest| <= |ts| && r.value.Some?
    decreases |ts|, 3
  {
    if Peek(ts) != AndIf && Peek(ts) != OrIf then Parsed(Some(left), ts)
    else
      var (right, rest) :- ParsePipeline(ts[1..]);
      if right.None? then Parsed(Some(left), rest) else AndOrMore(AndOr(left, ts[0], right.value), rest)
  }

  function ParseAndOr(ts: seq<Token>): (r: Result)
    ensures r.Parsed? ==> |r.rest| <= |ts| && (r.value.Some? ==> |r.rest| < |ts|)
    decreases |ts|, 4
  {
    var (left, rest) :- ParsePipeline(ts);
    if left.None? then Parsed(None, rest) else AndOrMore(left.value, rest)
  }

  /** The commands up to an end token; a nil command that consumes nothing repeats for ever. */
  function Commands(ts: seq<Token>, ends: set<Token>, cmds: seq<Node>): (r: Parsed<seq<Node>>)
    ensures r.Parsed? ==> |r.rest| <= |ts|
    decreases |ts|, 5
  {
    if ts == [] || ts[0] in ends then Parsed(cmds, ts)
    else if ts[0] == Semi then Commands(ts[1..], ends, cmds)
    else
      var (node, rest) :- ParseAndOr(ts);
      if node.Some? then Commands(rest, ends, cmds + [node.value])
      else if |rest| == |ts| then Stuck
      else Commands(rest, ends, cmds)
  }

  function ParseBody(ts: seq<Token>, ends: set<Token>): (r: Result)
    ensures r.Parsed? ==> |r.rest| <= |ts|
    decreases |ts|, 6
  {
    var (cmds, rest) :- Commands(ts, ends, []);
    Parsed(if cmds == [] then None else Some(Program(cmds)), rest)
  }

  const IF_ENDS := {Elif, Else, Fi}

  function Elifs(ts: seq<Token>, elifs: seq<ElifBranch>): (r: Parsed<seq<ElifBranch>>)
    ensures r.Parsed? ==> |r.rest| <= |ts|
    decreases |ts|, 7
  {
    if Peek(ts) != Elif then Parsed(elifs, ts)
    else
      var (cond, rest) :- ParseAndOr(ts[1..]);
      var (body, rest') :- ParseBody(Match(SkipSemis(rest), Then), IF_ENDS);
      Elifs(rest', elifs + [ElifBranch(cond, body)])
  }

  function ParseElse(ts: seq<Token>): (r: Result)
    ensures r.Parsed? ==> |r.rest| <= |ts|
    decreases |ts|, 7
  {
    if Peek(ts) == Else then ParseBody(ts[1..], {Fi}) else Parsed(None, ts)
  }

  function ParseIf(ts: seq<Token>): (r: Result)
    ensures r.Parsed? ==> |r.rest| <= |ts|
    decreases |ts|, 8
  {
    var (cond, rest) :- ParseAndOr(ts);
    var afterCond := SkipSemis(rest);
    if Peek(afterCond) != Then then Parsed(Some(IfStmt(cond, None, [], None)), afterCond)
    else
      var (body, rest1) :- ParseBody(afterCond[1..], IF_ENDS);
      var (elifs, rest2) :- Elifs(rest1, []);
      var (els, rest3) :- ParseElse(SkipSemis(rest2));
      Parsed(Some(IfStmt(cond, body, elifs, els)), Match(SkipSemis(rest3), Fi))
  }

  function ParseWhile(ts: seq<Token>, until: bool): (r: Result)
    ensures r.Parsed? ==> |r.rest| <= |ts|
    decreases |ts|, 8
  {
    var (cond, rest) :- ParseAndOr(ts);
    var afterCond := SkipSemis(rest);
    if Peek(afterCond) != Do then Parsed(Some(WhileStmt(cond, None, until)), afterCond)
    else
      var (body, rest1) :- ParseBody(afterCond[1..], {Done});
      Parsed(Some(WhileStmt(cond, body, until)), Match(SkipSemis(rest1), Done))
  }

  function Words(ts: seq<Token>, words: seq<Token>): (r: (seq<Token>, seq<Token>))
    ensures |r.1| <= |ts|
    decreases |ts|
  {
    if ts == [] || ts[0] == Semi || ts[0] == Do then (words, ts) else Words(ts[1..], words + [ts[0]])
  }

  function ParseFor(ts: seq<Token>): (r: Result)
    ensures r.Parsed? ==> |r.rest| <= |ts|
    decreases |ts|, 8
  {
    if ts == [] then Parsed(None, ts)
    else
      var name, rest := ts[0], ts[1..];
      var (words, rest1) := if Peek(rest) == In then Words(rest[1..], []) else ([], rest);
      var rest2 := Match(rest1, Semi);
      if Peek(rest2) != Do then Parsed(Some(ForStmt(name, words, None)), rest2)
      else
        var (body, rest3) :- ParseBody(rest2[1..], {Done});
        Parsed(Some(ForStmt(name, words, body)), Match(rest3, Done))
  }

  function Patterns(ts: seq<Token>, patterns: seq<Token>): (r: (seq<Token>, seq<Token>))
    ensures |r.1| <= |ts|
    ensures ts != [] && ts[0] != CloseParen && ts[0] != Esac ==> |r.1| < |ts|
    ensures r.1 != [] ==> r.1[0] == CloseParen || r.1[0] == Esac
    decreases |ts|
  {
    if ts == [] || ts[0] == CloseParen || ts[0] == Esac then (patterns, ts)
    else Patterns(ts[1..], patterns + [ts[0]])
  }

  function Branches(ts: seq<Token>, branches: seq<CaseBranch>): (r: Parsed<seq<CaseBranch>>)
    ensures r.Parsed? ==> |r.rest| <= |ts|
    decreases |ts|, 7
  {
    if ts == [] || ts[0] == Esac then Parsed(branches, ts)
    else
      var ts' := Match(ts, Semi);
      if Peek(ts') == Esac then Parsed(branches, ts')
      else
        var (patterns, rest) := Patterns(ts', []);
        if Peek(rest) == CloseParen then
          var (cmds, rest1) :- Commands(rest[1..], {DoubleSemi, Esac}, []);
          Branches(Match(rest1, DoubleSemi), branches + [CaseBranch(patterns, Program(cmds))])
        else Branches(rest, branches)
  }

  function ParseCase(ts: seq<Token>): (r: Result)
    ensures r.Parsed? ==> |r.rest| <= |ts|
    decreases |ts|, 8
  {
    var hasWord := ts != [] && ts[0] != In && !IsCompoundEnd(ts[0]);
    var word, rest := if hasWord then ts[0] else Word(""), if hasWord then ts[1..] else ts;
    var (branches, rest1) :- Branches(Match(rest, In), []);
    Parsed(Some(CaseStmt(word, branches)), Match(rest1, Esac))
  }

  /** The whole input; here a nil command costs one token. */
  function TopLevel(ts: seq<Token>, cmds: seq<Node>): Parsed<Node>
    decreases |ts|
  {
    if ts == [] then Parsed(Program(cmds), ts)
    else if ts[0] == Semi then TopLevel(ts[1..], cmds)
    else
      var (node, rest) :- ParseAndOr(ts);
      if node.Some? then TopLevel(rest, cmds + [node.value])
      else if rest == [] then Parsed(Program(cmds), rest)
      else TopLevel(rest[1..], cmds)
  }

  function ParseProgram(ts: seq<Token>): Parsed<Node> {
    TopLevel(ts, [])
  }
}
