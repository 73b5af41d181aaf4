/**
  Printing and parsing.  For every tree in canonical form, parsing its printed tokens terminates,
  consumes all of them and gives the same tree back.
 */
module ShellRoundTrip {
  import opened Common
  import opened ShellAst
  import ShellParser

  // ----- canonical form, level by level

  /** A token a simple command keeps as an argument, whatever follows it. */
  predicate IsArg(t: Token) {
    !IsStop(t) && t != Amp && !IsRedirOp(t)
  }

  predicate GoodRedir(r: Redir) {
    IsRedirOp(r.op) && !IsBadTarget(r.target)
  }

  /** At least one assignment or argument; the first token is a word, so no keyword and no `!`. */
  predicate GoodSimple(n: Node) {
    && n.Command?
    && (forall i :: 0 <= i < |n.assignments| ==> IsVarName(n.assignments[i].name))
    && (forall i :: 0 <= i < |n.args| ==> IsArg(n.args[i]))
    && (forall i :: 0 <= i < |n.redirs| ==> GoodRedir(n.redirs[i]))
    && (n.args != [] ==> !IsAssignment(n.args[0]))
    && (n.assignments == [] ==> n.args != [] && n.args[0].Word?)
  }

  predicate GoodCommand(n: Node)
    decreases n, 1
  {
    match n
    case Command(_, _, _, _) => GoodSimple(n)
    case IfStmt(cond, body, elifs, els) =>
      && cond.Some? && GoodAndOr(cond.value) && GoodBody(body)
      && (forall i :: 0 <= i < |elifs| ==> GoodElif(elifs[i])) && GoodBody(els)
    case WhileStmt(cond, body, _) => cond.Some? && GoodAndOr(cond.value) && GoodBody(body)
    case ForStmt(_, words, body) =>
      (forall i :: 0 <= i < |words| ==> words[i] != Semi && words[i] != Do) && GoodBody(body)
    case CaseStmt(word, branches) =>
      word != In && !IsCompoundEnd(word) && forall i :: 0 <= i < |branches| ==> GoodBranch(branches[i])
    case _ => false
  }

  predicate GoodPipeline(n: Node)
    decreases n, 2
  {
    if n.Pipeline? then
      && n.commands != [] && (n.negated ==> n.commands[0].Command?) && (!n.negated ==> |n.commands| > 1)
      && forall i :: 0 <= i < |n.commands| ==> GoodCommand(n.commands[i])
    else GoodCommand(n)
  }

  predicate GoodAndOr(n: Node)
    decreases n, 3
  {
    if n.AndOr? then GoodAndOr(n.left) && (n.op == AndIf || n.op == OrIf) && GoodPipeline(n.right)
    else GoodPipeline(n)
  }

  predicate GoodList(n: Node)
    decreases n, 3
  {
    n.Program? && forall i :: 0 <= i < |n.commands| ==> GoodAndOr(n.commands[i])
  }

  /** A body is missing, or has commands. */
  predicate GoodBody(b: Option<Node>)
    decreases b, 4
  {
    b.Some? ==> GoodList(b.value) && b.value.commands != []
  }

  predicate GoodElif(e: ElifBranch)
    decreases e, 5
  {
    e.cond.Some? && GoodAndOr(e.cond.value) && GoodBody(e.body)
  }

  predicate GoodBranch(b: CaseBranch)
    decreases b, 5
  {
    && (forall i :: 0 <= i < |b.patterns| ==> b.patterns[i] != CloseParen && b.patterns[i] != Esac)
    && (b.patterns != [] ==> b.patterns[0] != Semi) && GoodList(b.body)
  }

  // ----- printing

  /** How many semicolons to print behind a command, which may be the last one of its list. */
  type Style = (Node, bool) -> nat

  function Semis(n: nat): seq<Token> { if n == 0 then [] else [Semi] + Semis(n - 1) }

  /** The command that is printed last. */
  function LastCommand(n: Node): Node {
    match n
    case Pipeline(commands, _) => if commands == [] then n else commands[|commands| - 1]
    case AndOr(_, _, right) => LastCommand(right)
    case _ => n
  }

  /** A command that ends by itself: a background command or a compound one. */
  predicate EndsItself(n: Node) { n.Command? ==> n.background }

  /** Between two commands there is a semicolon unless the first ends by itself. */
  function SemisBehind(style: Style, cmds: seq<Node>): nat
    requires cmds != []
  {
    var k := style(cmds[0], |cmds| == 1);
    if k == 0 && |cmds| > 1 && !EndsItself(LastCommand(cmds[0])) then 1 else k
  }

  function PrintAssignment(a: Assignment): Token {
    NotReserved(a.name + "=" + a.value);
    Word(a.name + "=" + a.value)
  }

  function PrintAssignments(a: seq<Assignment>): seq<Token> {
    if a == [] then [] else [PrintAssignment(a[0])] + PrintAssignments(a[1..])
  }

  function PrintRedirs(r: seq<Redir>): seq<Token> {
    if r == [] then [] else [r[0].op, r[0].target] + PrintRedirs(r[1..])
  }

  function PrintSimple(n: Node): seq<Token>
    requires n.Command?
  {
    PrintAssignments(n.assignments) + n.args + PrintRedirs(n.redirs) + (if n.background then [Amp] else [])
  }

  function PrintCommand(style: Style, n: Node): seq<Token>
    decreases n, 1
  {
    match n
    case Command(_, _, _, _) => PrintSimple(n)
    case IfStmt(cond, body, elifs, els) =>
      [If] + PrintCond(style, cond) + [Then] + PrintBody(style, body) + PrintElifs(style, elifs) + PrintElse(style, els) + [Fi]
    case WhileStmt(cond, body, until) =>
      [if until then Until else While] + PrintCond(style, cond) + [Do] + PrintBody(style, body) + [Done]
    case ForStmt(name, words, body) => [For, name, In] + words + (if style(n, false) == 0 then [] else [Semi]) + [Do] + PrintBody(style, body) + [Done]
    case CaseStmt(word, branches) => [Case, word, In] + PrintBranches(style, branches) + [Esac]
    case _ => []
  }

  /** `| c1 | c2 ...` */
  function PrintPipes(style: Style, cmds: seq<Node>): seq<Token>
    decreases cmds, 0
  {
    if cmds == [] then [] else [Pipe] + PrintCommand(style, cmds[0]) + PrintPipes(style, cmds[1..])
  }

  function PrintPipeline(style: Style, n: Node): seq<Token>
    decreases n, 2
  {
    if n.Pipeline? && n.commands != [] then
      (if n.negated then [Bang] else []) + PrintCommand(style, n.commands[0]) + PrintPipes(style, n.commands[1..])
    else PrintCommand(style, n)
  }

  function PrintAndOr(style: Style, n: Node): seq<Token>
    decreases n, 3
  {
    if n.AndOr? then PrintAndOr(style, n.left) + [n.op] + PrintPipeline(style, n.right) else PrintPipeline(style, n)
  }

  /** `c1 ; c2 ; ...`, with as many semicolons as the style has. */
  function PrintList(style: Style, cmds: seq<Node>): seq<Token>
    decreases cmds, 0
  {
    if cmds == [] then [] else PrintAndOr(style, cmds[0]) + Semis(SemisBehind(style, cmds)) + PrintList(style, cmds[1..])
  }

  function PrintCond(style: Style, c: Option<Node>): seq<Token>
    decreases c, 4
  {
    if c.None? then [] else PrintAndOr(style, c.value) + Semis(style(c.value, true))
  }

  function PrintBody(style: Style, b: Option<Node>): seq<Token>
    decreases b, 4
  {
    if b.Some? && b.value.Program? then PrintList(style, b.value.commands) else []
  }

  function PrintElse(style: Style, b: Option<Node>): seq<Token>
    decreases b, 5
  {
    if b.None? then [] else [Else] + PrintBody(style, b)
  }

  function PrintElif(style: Style, e: ElifBranch): seq<Token>
    decreases e, 5
  {
    [Elif] + PrintCond(style, e.cond) + [Then] + PrintBody(style, e.body)
  }

  function PrintElifs(style: Style, elifs: seq<ElifBranch>): seq<Token>
    decreases elifs, 0
  {
    if elifs == [] then [] else PrintElif(style, elifs[0]) + PrintElifs(style, elifs[1..])
  }

  function PrintBranch(style: Style, b: CaseBranch): seq<Token>
    decreases b, 5
  {
    b.patterns + [CloseParen] + (if b.body.Program? then PrintList(style, b.body.commands) else []) + [DoubleSemi]
  }

  function PrintBranches(style: Style, branches: seq<CaseBranch>): seq<Token>
    decreases branches, 0
  {
    if branches == [] then [] else PrintBranch(style, branches[0]) + PrintBranches(style, branches[1..])
  }

  // ----- simple commands

  lemma {:induction false} EqIndexOfName(name: string, value: string)
    requires forall k :: 0 <= k < |name| ==> name[k] != '='
    ensures EqIndex(name + "=" + value) == |name|
  {
    var s := name + "=" + value;
    if name == "" {
      assert s[0] == '=';
    } else {
      assert s[1..] == name[1..] + "=" + value;
      EqIndexOfName(name[1..], value);
    }
  }

  lemma AssignmentToken(a: Assignment)
    requires IsVarName(a.name)
    ensures var t := PrintAssignment(a); IsAssignment(t) && ToAssignment(t) == a
  {
    var s := a.name + "=" + a.value;
    EqIndexOfName(a.name, a.value);
    assert s[..|a.name|] == a.name && s[|a.name| + 1..] == a.value;
  }

  lemma AssignmentStep(t: Token, tail: seq<Token>, cmd: Node)
    requires cmd.Command? && cmd.args == [] && IsAssignment(t)
    ensures ParseSimple([t] + tail, cmd) == ParseSimple(tail, cmd.(assignments := cmd.assignments + [ToAssignment(t)]))
  {
    assert !IsStop(t) && t != Amp && !IsRedirOp(t);
    hide ToAssignment, IsAssignment, IsStop, IsRedirOp, IsBadTarget;
    assert ([t] + tail)[1..] == tail;
  }

  lemma RedirStep(r: Redir, tail: seq<Token>, cmd: Node)
    requires cmd.Command? && GoodRedir(r)
    ensures ParseSimple([r.op, r.target] + tail, cmd) == ParseSimple(tail, cmd.(redirs := cmd.redirs + [r]))
  {
    assert !IsStop(r.op) && r.op != Amp;
    hide IsAssignment, ToAssignment, IsBadTarget, IsStop, IsRedirOp;
    assert ([r.op, r.target] + tail)[2..] == tail;
  }

  lemma {:induction false} ParseAssignments(a: seq<Assignment>, tail: seq<Token>, cmd: Node)
    requires cmd.Command? && cmd.args == []
    requires forall i :: 0 <= i < |a| ==> IsVarName(a[i].name)
    ensures ParseSimple(PrintAssignments(a) + tail, cmd) == ParseSimple(tail, cmd.(assignments := cmd.assignments + a))
  {
    hide IsAssignment, ToAssignment, IsVarName, ParseSimple;
    if a == [] {
      assert PrintAssignments(a) + tail == tail && cmd.assignments + a == cmd.assignments;
    } else {
      AssignmentToken(a[0]);
      var t, more := PrintAssignment(a[0]), PrintAssignments(a[1..]) + tail;
      assert PrintAssignments(a) + tail == [t] + more;
      hide PrintAssignment, PrintAssignments;
      AssignmentStep(t, more, cmd);
      assert forall i :: 0 <= i < |a[1..]| ==> a[1..][i] == a[i + 1];
      ParseAssignments(a[1..], tail, cmd.(assignments := cmd.assignments + [a[0]]));
      assert cmd.assignments + [a[0]] + a[1..] == cmd.assignments + a;
    }
  }

  lemma {:induction false} ParseArgs(args: seq<Token>, tail: seq<Token>, cmd: Node)
    requires cmd.Command? && forall i :: 0 <= i < |args| ==> IsArg(args[i])
    requires cmd.args == [] && args != [] ==> !IsAssignment(args[0])
    ensures ParseSimple(args + tail, cmd) == ParseSimple(tail, cmd.(args := cmd.args + args))
  {
    hide IsAssignment, ToAssignment, IsBadTarget;
    if args == [] {
      assert args + tail == tail && cmd.args + args == cmd.args;
    } else {
      assert (args + tail)[0] == args[0] && (args + tail)[1..] == args[1..] + tail;
      ParseArgs(args[1..], tail, cmd.(args := cmd.args + [args[0]]));
      assert cmd.args + [args[0]] + args[1..] == cmd.args + args;
    }
  }

  lemma {:induction false} ParseRedirs(r: seq<Redir>, tail: seq<Token>, cmd: Node)
    requires cmd.Command? && forall i :: 0 <= i < |r| ==> GoodRedir(r[i])
    ensures ParseSimple(PrintRedirs(r) + tail, cmd) == ParseSimple(tail, cmd.(redirs := cmd.redirs + r))
  {
    hide GoodRedir, ParseSimple;
    if r == [] {
      assert PrintRedirs(r) + tail == tail && cmd.redirs + r == cmd.redirs;
    } else {
      var more := PrintRedirs(r[1..]) + tail;
      assert PrintRedirs(r) + tail == [r[0].op, r[0].target] + more;
      RedirStep(r[0], more, cmd);
      ParseRedirs(r[1..], tail, cmd.(redirs := cmd.redirs + [r[0]]));
      assert cmd.redirs + [r[0]] + r[1..] == cmd.redirs + r;
    }
  }

  // ----- nothing is lost, whatever the tokens

  lemma AssignmentIsToken(t: Token)
    requires IsAssignment(t)
    ensures PrintAssignment(ToAssignment(t)) == t
  {
    var i := EqIndex(t.text);
    assert t.text == t.text[..i] + "=" + t.text[i + 1..];
  }

  lemma {:induction false} MoreAssignments(a: seq<Assignment>, x: Assignment)
    ensures PrintAssignments(a + [x]) == PrintAssignments(a) + [PrintAssignment(x)]
  {
    hide PrintAssignment;
    if a == [] {
      assert [] + [x] == [x] && [x][1..] == [];
    } else {
      assert (a + [x])[1..] == a[1..] + [x];
      MoreAssignments(a[1..], x);
    }
  }

  lemma {:induction false} MoreRedirs(r: seq<Redir>, x: Redir)
    ensures PrintRedirs(r + [x]) == PrintRedirs(r) + [x.op, x.target]
  {
    if r == [] {
      assert [] + [x] == [x] && [x][1..] == [];
    } else {
      assert (r + [x])[1..] == r[1..] + [x];
      MoreRedirs(r[1..], x);
    }
  }

  /** The tokens of a simple command, in no order. */
  ghost function Tokens(n: Node): multiset<Token>
    requires n.Command?
  {
    multiset(PrintAssignments(n.assignments)) + multiset(n.args) + multiset(PrintRedirs(n.redirs))
      + (if n.background then multiset{Amp} else multiset{})
  }

  lemma ArgAdds(cmd: Node, t: Token)
    requires cmd.Command?
    ensures Tokens(cmd.(args := cmd.args + [t])) == Tokens(cmd) + multiset{t}
  {
    hide PrintAssignments, PrintRedirs;
  }

  lemma RedirAdds(cmd: Node, op: Token, target: Token)
    requires cmd.Command?
    ensures Tokens(cmd.(redirs := cmd.redirs + [Redir(op, target)])) == Tokens(cmd) + multiset{op, target}
  {
    hide PrintAssignments, PrintRedirs;
    MoreRedirs(cmd.redirs, Redir(op, target));
    assert multiset([op, target]) == multiset{op, target};
  }

  lemma AssignmentAdds(cmd: Node, t: Token)
    requires cmd.Command? && IsAssignment(t)
    ensures Tokens(cmd.(assignments := cmd.assignments + [ToAssignment(t)])) == Tokens(cmd) + multiset{t}
  {
    hide PrintAssignments, PrintRedirs, ToAssignment, IsAssignment;
    AssignmentIsToken(t);
    MoreAssignments(cmd.assignments, ToAssignment(t));
  }

  /** One turn puts the tokens that it takes into the command. */
  lemma SimpleTurn(ts: seq<Token>, cmd: Node) returns (skip: nat, cmd': Node)
    requires cmd.Command? && ts != [] && !IsStop(ts[0]) && ts[0] != Amp && ParseSimple(ts, cmd).Parsed?
    ensures 0 < skip <= |ts| && cmd'.Command? && cmd'.background == cmd.background
    ensures ParseSimple(ts, cmd) == ParseSimple(ts[skip..], cmd') && Tokens(cmd') == Tokens(cmd) + multiset(ts[..skip])
  {
    hide IsStop, IsRedirOp, IsBadTarget, IsAssignment, ToAssignment, Tokens;
    assert ts[..1] == [ts[0]] && (|ts| > 1 ==> ts[..2] == [ts[0], ts[1]]);
    if IsRedirOp(ts[0]) && !IsBadTarget(ts[1]) {
      skip, cmd' := 2, cmd.(redirs := cmd.redirs + [Redir(ts[0], ts[1])]);
      RedirAdds(cmd, ts[0], ts[1]);
    } else if !IsRedirOp(ts[0]) && IsAssignment(ts[0]) && cmd.args == [] {
      skip, cmd' := 1, cmd.(assignments := cmd.assignments + [ToAssignment(ts[0])]);
      AssignmentAdds(cmd, ts[0]);
    } else {
      skip, cmd' := 1, cmd.(args := cmd.args + [ts[0]]);
      ArgAdds(cmd, ts[0]);
    }
  }

  lemma SimpleStops(ts: seq<Token>, cmd: Node)
    requires cmd.Command? && !cmd.background && (ts == [] || IsStop(ts[0]) || ts[0] == Amp)
    ensures var p := ParseSimple(ts, cmd);
            p.Parsed? && (p.value.Some? ==> Tokens(p.value.value) == Tokens(cmd) + multiset(ts[..|ts| - |p.rest|]))
  {
    hide PrintAssignments, PrintRedirs, IsStop, IsRedirOp, IsBadTarget, IsAssignment, ToAssignment;
    if ts != [] && !IsStop(ts[0]) {
      BackgroundAdds(cmd);
      hide Tokens;
      assert ts[..0] == [] && ts[..1] == [Amp] && multiset([Amp]) == multiset{Amp};
    } else {
      hide Tokens;
      assert ts[..0] == [];
    }
  }

  lemma BackgroundAdds(cmd: Node)
    requires cmd.Command? && !cmd.background
    ensures Tokens(cmd.(background := true)) == Tokens(cmd) + multiset{Amp}
  {
    hide PrintAssignments, PrintRedirs;
  }

  /** A simple command is made of exactly the tokens that parsing it used up, also of malformed ones. */
  lemma {:induction false} SimpleConserves(ts: seq<Token>, cmd: Node)
    requires cmd.Command? && !cmd.background
    ensures var p := ParseSimple(ts, cmd);
            p.Parsed? && p.value.Some? ==> Tokens(p.value.value) == Tokens(cmd) + multiset(ts[..|ts| - |p.rest|])
    decreases |ts|
  {
    hide ParseSimple, Tokens, IsStop;
    var p := ParseSimple(ts, cmd);
    if ts == [] || IsStop(ts[0]) || ts[0] == Amp {
      SimpleStops(ts, cmd);
    } else if p.Parsed? {
      var skip, cmd' := SimpleTurn(ts, cmd);
      SimpleConserves(ts[skip..], cmd');
      var k := |ts| - |p.rest|;
      assert ts[..k] == ts[..skip] + ts[skip..][..k - skip];
    }
  }

  /** What can follow a command: anything but `&` if it ends by itself, and otherwise the end or a stop token. */
  predicate Follows(n: Node, rest: seq<Token>) {
    rest == [] || if EndsItself(n) then rest[0] != Amp else IsStop(rest[0])
  }

  lemma SimpleRoundTrip(n: Node, rest: seq<Token>)
    requires GoodSimple(n) && Follows(n, rest)
    ensures ParseSimple(PrintSimple(n) + rest, NO_COMMAND) == Parsed(Some(n), rest)
  {
    hide ParseSimple, PrintAssignments, PrintRedirs;
    var end := (if n.background then [Amp] else []) + rest;
    var c1 := NO_COMMAND.(assignments := n.assignments);
    var c2 := c1.(args := n.args);
    var c3 := c2.(redirs := n.redirs);
    assert PrintSimple(n) + rest == PrintAssignments(n.assignments) + (n.args + (PrintRedirs(n.redirs) + end));
    assert NO_COMMAND.assignments + n.assignments == n.assignments && c1.args + n.args == n.args && c2.redirs + n.redirs == n.redirs;
    ParseAssignments(n.assignments, n.args + (PrintRedirs(n.redirs) + end), NO_COMMAND);
    ParseArgs(n.args, PrintRedirs(n.redirs) + end, c1);
    ParseRedirs(n.redirs, end, c2);
    SimpleEnd(c3, n.background, rest);
    assert n == c3.(background := n.background);
  }

  lemma SimpleEnd(cmd: Node, background: bool, rest: seq<Token>)
    requires cmd.Command? && !cmd.background && (cmd.args != [] || cmd.assignments != [])
    requires Follows(cmd.(background := background), rest)
    ensures ParseSimple((if background then [Amp] else []) + rest, cmd) == Parsed(Some(cmd.(background := background)), rest)
  {
    var ts := (if background then [Amp] else []) + rest;
    assert background ==> ts[1..] == rest;
    assert !background ==> ts == rest;
  }

  // ----- where commands start and end

  /** What can follow a pipeline, and an and-or list. */
  predicate EndsPipeline(n: Node, rest: seq<Token>) { Follows(LastCommand(n), rest) && Peek(rest) != Pipe }

  predicate EndsAndOr(n: Node, rest: seq<Token>) {
    EndsPipeline(n, rest) && Peek(rest) != AndIf && Peek(rest) != OrIf
  }

  /** What can end a list of commands. */
  predicate EndsList(rest: seq<Token>, ends: set<Token>) {
    rest != [] && rest[0] in ends && ends <= {Elif, Else, Fi, Done, DoubleSemi, Esac}
  }

  predicate StartsCommand(t: Token) {
    t.Word? || t in {If, While, Until, For, Case, Bang}
  }

  lemma CommandStart(style: Style, n: Node)
    requires GoodCommand(n)
    ensures PrintCommand(style, n) != []
    ensures var t := PrintCommand(style, n)[0]; t != Bang && StartsCommand(t) && (n.Command? <==> t.Word?)
  {
    hide PrintCond, PrintBody, PrintElifs, PrintElse, PrintBranches, GoodAndOr, GoodBody, GoodElif, GoodBranch;
  }

  lemma AndOrStart(style: Style, n: Node)
    requires GoodAndOr(n)
    ensures PrintAndOr(style, n) != [] && StartsCommand(PrintAndOr(style, n)[0])
  {
    hide PrintCommand, GoodCommand;
    if n.AndOr? {
      AndOrStart(style, n.left);
    } else if n.Pipeline? {
      CommandStart(style, n.commands[0]);
    } else {
      CommandStart(style, n);
    }
  }

  lemma {:induction false} WordsRoundTrip(ws: seq<Token>, rest: seq<Token>, done: seq<Token>)
    requires forall i :: 0 <= i < |ws| ==> ws[i] != Semi && ws[i] != Do
    requires rest != [] && (rest[0] == Semi || rest[0] == Do)
    ensures Words(ws + rest, done) == (done + ws, rest)
  {
    if ws == [] {
      assert ws + rest == rest && done + ws == done;
    } else {
      assert (ws + rest)[1..] == ws[1..] + rest;
      WordsRoundTrip(ws[1..], rest, done + [ws[0]]);
      assert done + [ws[0]] + ws[1..] == done + ws;
    }
  }

  lemma {:induction false} PatternsRoundTrip(ps: seq<Token>, rest: seq<Token>, done: seq<Token>)
    requires forall i :: 0 <= i < |ps| ==> ps[i] != CloseParen && ps[i] != Esac
    requires rest != [] && rest[0] == CloseParen
    ensures Patterns(ps + rest, done) == (done + ps, rest)
  {
    if ps == [] {
      assert ps + rest == rest && done + ps == done;
    } else {
      assert (ps + rest)[1..] == ps[1..] + rest;
      PatternsRoundTrip(ps[1..], rest, done + [ps[0]]);
      assert done + [ps[0]] + ps[1..] == done + ps;
    }
  }

  // ----- pipelines and and-or lists

  lemma PipeStep(done: seq<Node>, cmd: Node, ts: seq<Token>, more: seq<Token>)
    requires ParseCommand(ts) == Parsed(Some(cmd), more)
    ensures PipeMore(done, [Pipe] + ts) == PipeMore(done + [cmd], more)
  {
    hide ParseCommand;
    assert ([Pipe] + ts)[1..] == ts;
  }

  lemma NoPipe(done: seq<Node>, rest: seq<Token>)
    requires Peek(rest) != Pipe
    ensures PipeMore(done, rest) == Parsed(done, rest)
  {
  }

  lemma {:induction false} PipesRoundTrip(style: Style, done: seq<Node>, cmds: seq<Node>, rest: seq<Token>)
    requires Peek(rest) != Pipe && (cmds != [] ==> Follows(cmds[|cmds| - 1], rest))
    requires forall i :: 0 <= i < |cmds| ==> GoodCommand(cmds[i])
    ensures PipeMore(done, PrintPipes(style, cmds) + rest) == Parsed(done + cmds, rest)
    decreases cmds, 0
  {
    hide ParseCommand, PrintCommand, GoodCommand, PipeMore, Follows;
    if cmds == [] {
      assert PrintPipes(style, cmds) + rest == rest && done + cmds == done;
      NoPipe(done, rest);
    } else {
      var more := PrintPipes(style, cmds[1..]) + rest;
      assert PrintPipes(style, cmds) + rest == [Pipe] + (PrintCommand(style, cmds[0]) + more);
      PipesFollow(style, cmds[0], cmds[1..], rest);
      CommandRoundTrip(style, cmds[0], more);
      PipeStep(done, cmds[0], PrintCommand(style, cmds[0]) + more, more);
      PipesRoundTrip(style, done + [cmds[0]], cmds[1..], rest);
      assert done + [cmds[0]] + cmds[1..] == done + cmds;
    }
  }

  /** The first command of a pipeline, with what the loop made of the rest. */
  lemma PipelineStep(style: Style, negated: bool, first: Node, more: seq<Token>, cmds: seq<Node>, rest: seq<Token>)
    requires GoodCommand(first) && (negated ==> first.Command?)
    requires ParseCommand(PrintCommand(style, first) + more) == Parsed(Some(first), more)
    requires PipeMore([first], more) == Parsed(cmds, rest)
    ensures ParsePipeline((if negated then [Bang] else []) + (PrintCommand(style, first) + more))
            == Parsed(Some(if |cmds| == 1 && !negated then cmds[0] else Pipeline(cmds, negated)), rest)
  {
    hide ParseCommand, PrintCommand, GoodCommand, PipeMore;
    CommandStart(style, first);
    var body := PrintCommand(style, first) + more;
    var ts := (if negated then [Bang] else []) + body;
    assert negated ==> ts[1..] == body;
    assert !negated ==> ts == body;
  }

  lemma {:induction false} PipelineRoundTrip(style: Style, n: Node, rest: seq<Token>)
    requires GoodPipeline(n) && EndsPipeline(n, rest)
    ensures ParsePipeline(PrintPipeline(style, n) + rest) == Parsed(Some(n), rest)
    decreases n, 2
  {
    hide ParseCommand, PrintCommand, GoodCommand, PipeMore, PrintPipes, ParsePipeline;
    if n.Pipeline? {
      var first, others := n.commands[0], n.commands[1..];
      var more := PrintPipes(style, others) + rest;
      PipesFollow(style, first, others, rest);
      CommandRoundTrip(style, first, more);
      PipesRoundTrip(style, [first], others, rest);
      assert [first] + others == n.commands;
      PipelineStep(style, n.negated, first, more, n.commands, rest);
      assert PrintPipeline(style, n) + rest == (if n.negated then [Bang] else []) + (PrintCommand(style, first) + more);
    } else {
      CommandRoundTrip(style, n, rest);
      NoPipe([n], rest);
      PipelineStep(style, false, n, rest, [n], rest);
      assert PrintPipeline(style, n) + rest == [] + (PrintCommand(style, n) + rest);
    }
  }

  lemma PipesFollow(style: Style, first: Node, cmds: seq<Node>, rest: seq<Token>)
    requires cmds == [] ==> Follows(first, rest)
    ensures Follows(first, PrintPipes(style, cmds) + rest)
  {
    hide PrintCommand;
    if cmds == [] { assert PrintPipes(style, cmds) + rest == rest; }
  }

  /** Parsing a printed and-or tree goes on as the loop does with that tree on its left. */
  lemma {:induction false} AndOrPrefix(style: Style, n: Node, rest: seq<Token>)
    requires GoodAndOr(n) && EndsPipeline(n, rest)
    ensures ParseAndOr(PrintAndOr(style, n) + rest) == AndOrMore(n, rest)
    decreases n, 3
  {
    hide ParsePipeline, PrintPipeline, GoodPipeline;
    if n.AndOr? {
      var right := PrintPipeline(style, n.right) + rest;
      assert PrintAndOr(style, n) + rest == PrintAndOr(style, n.left) + ([n.op] + right);
      assert ([n.op] + right)[1..] == right;
      assert EndsPipeline(n.left, [n.op] + right);
      AndOrPrefix(style, n.left, [n.op] + right);
      PipelineRoundTrip(style, n.right, rest);
    } else {
      PipelineRoundTrip(style, n, rest);
    }
  }

  lemma {:induction false} AndOrRoundTrip(style: Style, n: Node, rest: seq<Token>)
    requires GoodAndOr(n) && EndsAndOr(n, rest)
    ensures ParseAndOr(PrintAndOr(style, n) + rest) == Parsed(Some(n), rest)
    decreases n, 4
  {
    hide ParseAndOr, PrintAndOr, GoodAndOr;
    AndOrPrefix(style, n, rest);
  }

  // ----- lists and compound commands

  /** An end, a semicolon or, behind a command that ends by itself, another command. */
  predicate Separates(n: Node, ts: seq<Token>) {
    ts == [] || ts[0] in {Semi, Elif, Else, Fi, Done, DoubleSemi, Esac} || (EndsItself(LastCommand(n)) && StartsCommand(ts[0]))
  }

  lemma SeparatorEnds(n: Node, ts: seq<Token>)
    requires Separates(n, ts)
    ensures EndsAndOr(n, ts)
  {
  }

  lemma BehindCommand(style: Style, cmds: seq<Node>, rest: seq<Token>)
    requires cmds != [] && (forall i :: 0 <= i < |cmds| ==> GoodAndOr(cmds[i]))
    requires rest == [] || rest[0] in {Elif, Else, Fi, Done, DoubleSemi, Esac}
    ensures EndsAndOr(cmds[0], Semis(SemisBehind(style, cmds)) + (PrintList(style, cmds[1..]) + rest))
  {
    hide PrintAndOr, GoodAndOr, LastCommand, EndsItself, StartsCommand, EndsAndOr;
    var k, more := SemisBehind(style, cmds), PrintList(style, cmds[1..]) + rest;
    if k == 0 {
      assert Semis(k) + more == more;
      if |cmds| > 1 {
        AndOrStart(style, cmds[1]);
        assert more[0] == PrintAndOr(style, cmds[1])[0];
      } else {
        assert more == rest;
      }
    }
    SeparatorEnds(cmds[0], Semis(k) + more);
  }

  lemma {:induction false} SkipInCommands(n: nat, more: seq<Token>, ends: set<Token>, done: seq<Node>)
    requires Semi !in ends
    ensures Commands(Semis(n) + more, ends, done) == Commands(more, ends, done)
  {
    if n == 0 {
      assert Semis(n) + more == more;
    } else {
      assert (Semis(n) + more)[1..] == Semis(n - 1) + more;
      SkipInCommands(n - 1, more, ends, done);
    }
  }

  lemma CommandStep(ts: seq<Token>, ends: set<Token>, done: seq<Node>, n: Node, rest: seq<Token>)
    requires ts != [] && ts[0] !in ends && ts[0] != Semi && ParseAndOr(ts) == Parsed(Some(n), rest)
    ensures Commands(ts, ends, done) == Commands(rest, ends, done + [n])
  {
    hide ParseAndOr;
  }

  lemma {:induction false} ListRoundTrip(style: Style, done: seq<Node>, cmds: seq<Node>, ends: set<Token>, rest: seq<Token>)
    requires EndsList(rest, ends) && forall i :: 0 <= i < |cmds| ==> GoodAndOr(cmds[i])
    ensures Commands(PrintList(style, cmds) + rest, ends, done) == Parsed(done + cmds, rest)
    decreases cmds, 0
  {
    hide ParseAndOr, PrintAndOr, GoodAndOr, EndsAndOr, SemisBehind;
    if cmds == [] {
      assert PrintList(style, cmds) + rest == rest && done + cmds == done;
    } else {
      var more := PrintList(style, cmds[1..]) + rest;
      var ts, behind := PrintList(style, cmds) + rest, Semis(SemisBehind(style, cmds)) + more;
      assert ts == PrintAndOr(style, cmds[0]) + behind;
      AndOrStart(style, cmds[0]);
      BehindCommand(style, cmds, rest);
      AndOrRoundTrip(style, cmds[0], behind);
      CommandStep(ts, ends, done, cmds[0], behind);
      SkipInCommands(SemisBehind(style, cmds), more, ends, done + [cmds[0]]);
      hide Commands;
      ListRoundTrip(style, done + [cmds[0]], cmds[1..], ends, rest);
      assert done + [cmds[0]] + cmds[1..] == done + cmds;
    }
  }

  lemma {:induction false} BodyRoundTrip(style: Style, b: Option<Node>, ends: set<Token>, rest: seq<Token>)
    requires GoodBody(b) && EndsList(rest, ends)
    ensures ParseBody(PrintBody(style, b) + rest, ends) == Parsed(b, rest)
    decreases b, 4
  {
    hide Commands, PrintList, GoodAndOr;
    if b.Some? {
      assert GoodList(b.value);
      ListRoundTrip(style, [], b.value.commands, ends, rest);
      assert [] + b.value.commands == b.value.commands;
    } else {
      NoCommands(ends, rest);
      assert PrintBody(style, b) + rest == rest;
    }
  }

  lemma NoCommands(ends: set<Token>, rest: seq<Token>)
    requires EndsList(rest, ends)
    ensures Commands(rest, ends, []) == Parsed([], rest)
  {
  }

  lemma {:induction false} SkipAll(n: nat, rest: seq<Token>)
    requires rest != [] && rest[0] != Semi
    ensures SkipSemis(Semis(n) + rest) == rest
  {
    if n == 0 {
      assert Semis(n) + rest == rest;
    } else {
      assert (Semis(n) + rest)[1..] == Semis(n - 1) + rest;
      SkipAll(n - 1, rest);
    }
  }

  /** A condition, with any number of semicolons before `then` or `do`. */
  lemma {:induction false} CondRoundTrip(style: Style, c: Option<Node>, t: Token, rest: seq<Token>)
    requires c.Some? && GoodAndOr(c.value) && (t == Then || t == Do)
    ensures var behind := Semis(style(c.value, true)) + ([t] + rest);
            && ParseAndOr(PrintCond(style, c) + ([t] + rest)) == Parsed(c, behind)
            && SkipSemis(behind) == [t] + rest && Match([t] + rest, t) == rest && ([t] + rest)[1..] == rest
    decreases c, 5
  {
    hide ParseAndOr, PrintAndOr, GoodAndOr;
    var n := c.value;
    var k := style(n, true);
    var behind := Semis(k) + ([t] + rest);
    assert PrintCond(style, c) + ([t] + rest) == PrintAndOr(style, n) + behind;
    if k == 0 { assert behind == [t] + rest; }
    AndOrRoundTrip(style, n, behind);
    SkipAll(k, [t] + rest);
  }

  lemma ElifsEnd(style: Style, elifs: seq<ElifBranch>, rest: seq<Token>)
    requires rest != [] && rest[0] in {Else, Fi}
    ensures EndsList(PrintElifs(style, elifs) + rest, IF_ENDS)
  {
    hide PrintCond, PrintBody;
  }

  lemma {:induction false} ElifRoundTrip(style: Style, e: ElifBranch, more: seq<Token>)
    requires GoodElif(e) && EndsList(more, IF_ENDS)
    ensures var ts := PrintElif(style, e) + more;
            && ts != [] && ts[0] == Elif
            && var t1 := Semis(style(e.cond.value, true)) + ([Then] + (PrintBody(style, e.body) + more));
            && ParseAndOr(ts[1..]) == Parsed(e.cond, t1)
            && ParseBody(Match(SkipSemis(t1), Then), IF_ENDS) == Parsed(e.body, more)
    decreases e, 5
  {
    hide ParseAndOr, PrintCond, GoodAndOr, PrintBody, ParseBody, GoodBody, EndsList, SkipSemis, Match;
    var t2 := PrintBody(style, e.body) + more;
    var ts := PrintElif(style, e) + more;
    assert ts[1..] == PrintCond(style, e.cond) + ([Then] + t2);
    CondRoundTrip(style, e.cond, Then, t2);
    BodyRoundTrip(style, e.body, IF_ENDS, more);
  }

  lemma {:induction false} ElifsRoundTrip(style: Style, done: seq<ElifBranch>, elifs: seq<ElifBranch>, rest: seq<Token>)
    requires rest != [] && rest[0] in {Else, Fi} && forall i :: 0 <= i < |elifs| ==> GoodElif(elifs[i])
    ensures Elifs(PrintElifs(style, elifs) + rest, done) == Parsed(done + elifs, rest)
    decreases elifs, 0
  {
    hide ParseAndOr, ParseBody, PrintElif, GoodElif, SkipSemis, Match, EndsList;
    if elifs == [] {
      assert PrintElifs(style, elifs) + rest == rest && done + elifs == done;
    } else {
      var more := PrintElifs(style, elifs[1..]) + rest;
      assert PrintElifs(style, elifs) + rest == PrintElif(style, elifs[0]) + more;
      ElifsEnd(style, elifs[1..], rest);
      ElifRoundTrip(style, elifs[0], more);
      assert ElifBranch(elifs[0].cond, elifs[0].body) == elifs[0];
      ElifsRoundTrip(style, done + [elifs[0]], elifs[1..], rest);
      assert done + [elifs[0]] + elifs[1..] == done + elifs;
    }
  }

  lemma {:induction false} ElseRoundTrip(style: Style, els: Option<Node>, rest: seq<Token>)
    requires GoodBody(els) && rest != [] && rest[0] == Fi
    ensures var ts := PrintElse(style, els) + rest;
            ts != [] && ts[0] in {Else, Fi} && SkipSemis(ts) == ts && ParseElse(ts) == Parsed(els, rest)
    decreases els, 5
  {
    hide ParseBody, PrintBody, GoodBody;
    var ts := PrintElse(style, els) + rest;
    if els.Some? {
      assert ts[0] == Else && ts[1..] == PrintBody(style, els) + rest;
      BodyRoundTrip(style, els, {Fi}, rest);
    } else {
      assert ts == rest;
    }
  }

  /** An if statement from its parts. */
  lemma IfStep(ts: seq<Token>, n: Node, behind: seq<Token>, t2: seq<Token>, t3: seq<Token>, t4: seq<Token>, t5: seq<Token>)
    requires n.IfStmt? && ParseAndOr(ts) == Parsed(n.cond, behind) && SkipSemis(behind) == [Then] + t2
    requires ParseBody(t2, IF_ENDS) == Parsed(n.body, t3) && Elifs(t3, []) == Parsed(n.elifs, t4)
    requires SkipSemis(t4) == t4 && ParseElse(t4) == Parsed(n.els, t5)
    ensures ParseIf(ts) == Parsed(Some(n), Match(SkipSemis(t5), Fi))
  {
    hide ParseAndOr, ParseBody, Elifs, ParseElse, SkipSemis, Match;
    assert ([Then] + t2)[1..] == t2;
  }

  lemma {:induction false} IfRoundTrip(style: Style, n: Node, rest: seq<Token>)
    requires n.IfStmt? && GoodCommand(n)
    ensures ParseIf((PrintCommand(style, n) + rest)[1..]) == Parsed(Some(n), rest)
    decreases n, 0
  {
    hide ParseAndOr, PrintCond, GoodAndOr, ParseBody, PrintBody, GoodBody, Elifs, PrintElifs, GoodElif, ParseElse,
      PrintElse, EndsList, ParseIf, Semis;
    var t5 := [Fi] + rest;
    var t4 := PrintElse(style, n.els) + t5;
    var t3 := PrintElifs(style, n.elifs) + t4;
    var t2 := PrintBody(style, n.body) + t3;
    var ts := (PrintCommand(style, n) + rest)[1..];
    assert ts == PrintCond(style, n.cond) + ([Then] + t2);
    CondRoundTrip(style, n.cond, Then, t2);
    ElseRoundTrip(style, n.els, t5);
    ElifsEnd(style, n.elifs, t4);
    BodyRoundTrip(style, n.body, IF_ENDS, t3);
    ElifsRoundTrip(style, [], n.elifs, t4);
    assert [] + n.elifs == n.elifs;
    assert SkipSemis(t5) == t5 && t5[1..] == rest;
    IfStep(ts, n, Semis(style(n.cond.value, true)) + ([Then] + t2), t2, t3, t4, t5);
  }

  lemma {:induction false} WhileRoundTrip(style: Style, n: Node, rest: seq<Token>)
    requires n.WhileStmt? && GoodCommand(n)
    ensures ParseWhile((PrintCommand(style, n) + rest)[1..], n.until) == Parsed(Some(n), rest)
    decreases n, 0
  {
    hide ParseAndOr, PrintCond, GoodAndOr, ParseBody, PrintBody, GoodBody;
    var t3 := [Done] + rest;
    var t2 := PrintBody(style, n.body) + t3;
    assert (PrintCommand(style, n) + rest)[1..] == PrintCond(style, n.cond) + ([Do] + t2);
    CondRoundTrip(style, n.cond, Do, t2);
    BodyRoundTrip(style, n.body, {Done}, t3);
    assert SkipSemis(t3) == t3 && t3[1..] == rest;
  }

  lemma {:induction false} ForRoundTrip(style: Style, n: Node, rest: seq<Token>)
    requires n.ForStmt? && GoodCommand(n)
    ensures ParseFor((PrintCommand(style, n) + rest)[1..]) == Parsed(Some(n), rest)
    decreases n, 0
  {
    hide ParseBody, PrintBody, GoodBody, Words, ParseFor;
    var t3 := [Done] + rest;
    var t2 := PrintBody(style, n.body) + t3;
    var t1 := (if style(n, false) == 0 then [] else [Semi]) + ([Do] + t2);
    assert (PrintCommand(style, n) + rest)[1..] == [n.name, In] + (n.words + t1);
    assert t1 != [] && (t1[0] == Semi || t1[0] == Do);
    WordsRoundTrip(n.words, t1, []);
    assert [] + n.words == n.words;
    BodyRoundTrip(style, n.body, {Done}, t3);
    assert t3[1..] == rest;
    ForStep(n.name, n.words, n.words + t1, style(n, false) == 0, t2, n.body, t3);
  }

  lemma ForStep(name: Token, words: seq<Token>, ts: seq<Token>, bare: bool, t2: seq<Token>, body: Option<Node>, t3: seq<Token>)
    requires Words(ts, []) == (words, (if bare then [] else [Semi]) + ([Do] + t2))
    requires ParseBody(t2, {Done}) == Parsed(body, t3)
    ensures ParseFor([name, In] + ts) == Parsed(Some(ForStmt(name, words, body)), Match(t3, Done))
  {
    hide ParseBody, Words;
    var all, t1 := [name, In] + ts, (if bare then [] else [Semi]) + ([Do] + t2);
    assert all[1..] == [In] + ts && all[1..][1..] == ts;
    assert Match(t1, Semi) == [Do] + t2 && ([Do] + t2)[1..] == t2;
  }

  lemma {:induction false} BranchRoundTrip(style: Style, b: CaseBranch, more: seq<Token>, done: seq<CaseBranch>)
    requires GoodBranch(b)
    ensures Branches(PrintBranch(style, b) + more, done) == Branches(more, done + [b])
    decreases b, 5
  {
    hide Commands, PrintList, GoodAndOr, Patterns;
    var t2 := [DoubleSemi] + more;
    var t1 := PrintList(style, b.body.commands) + t2;
    var ts, close := PrintBranch(style, b) + more, [CloseParen] + t1;
    assert GoodList(b.body);
    assert ts == b.patterns + close && close[1..] == t1;
    assert ts[0] == if b.patterns == [] then CloseParen else b.patterns[0];
    PatternsRoundTrip(b.patterns, close, []);
    assert [] + b.patterns == b.patterns;
    ListRoundTrip(style, [], b.body.commands, {DoubleSemi, Esac}, t2);
    assert [] + b.body.commands == b.body.commands;
    hide Branches, GoodBranch, GoodList, PrintBranch;
    BranchStep(ts, b.patterns, t1, b.body.commands, more, done);
    assert CaseBranch(b.patterns, Program(b.body.commands)) == b;
  }

  lemma BranchStep(ts: seq<Token>, patterns: seq<Token>, t1: seq<Token>, cmds: seq<Node>, more: seq<Token>, done: seq<CaseBranch>)
    requires ts != [] && ts[0] != Esac && ts[0] != Semi
    requires Patterns(ts, []) == (patterns, [CloseParen] + t1)
    requires Commands(t1, {DoubleSemi, Esac}, []) == Parsed(cmds, [DoubleSemi] + more)
    ensures Branches(ts, done) == Branches(more, done + [CaseBranch(patterns, Program(cmds))])
  {
    hide Commands, Patterns;
    assert ([CloseParen] + t1)[1..] == t1 && ([DoubleSemi] + more)[1..] == more;
  }

  lemma {:induction false} BranchesRoundTrip(style: Style, done: seq<CaseBranch>, bs: seq<CaseBranch>, rest: seq<Token>)
    requires rest != [] && rest[0] == Esac && forall i :: 0 <= i < |bs| ==> GoodBranch(bs[i])
    ensures Branches(PrintBranches(style, bs) + rest, done) == Parsed(done + bs, rest)
    decreases bs, 0
  {
    hide Commands, Patterns, PrintBranch, GoodBranch;
    if bs == [] {
      assert PrintBranches(style, bs) + rest == rest && done + bs == done;
    } else {
      var more := PrintBranches(style, bs[1..]) + rest;
      assert PrintBranches(style, bs) + rest == PrintBranch(style, bs[0]) + more;
      hide Branches;
      BranchRoundTrip(style, bs[0], more, done);
      BranchesRoundTrip(style, done + [bs[0]], bs[1..], rest);
      assert done + [bs[0]] + bs[1..] == done + bs;
    }
  }

  lemma {:induction false} CaseRoundTrip(style: Style, n: Node, rest: seq<Token>)
    requires n.CaseStmt? && GoodCommand(n)
    ensures ParseCase((PrintCommand(style, n) + rest)[1..]) == Parsed(Some(n), rest)
    decreases n, 0
  {
    hide Branches, PrintBranches, GoodBranch;
    var t2 := [Esac] + rest;
    var t1 := PrintBranches(style, n.branches) + t2;
    var ts := (PrintCommand(style, n) + rest)[1..];
    assert ts[0] == n.word && ts[1..] == [In] + t1 && ([In] + t1)[1..] == t1;
    BranchesRoundTrip(style, [], n.branches, t2);
    assert [] + n.branches == n.branches && t2[1..] == rest;
  }

  lemma {:induction false} CommandRoundTrip(style: Style, n: Node, rest: seq<Token>)
    requires GoodCommand(n) && Follows(n, rest)
    ensures ParseCommand(PrintCommand(style, n) + rest) == Parsed(Some(n), rest)
    decreases n, 1
  {
    hide ParseSimple, ParseIf, ParseWhile, ParseFor, ParseCase, PrintSimple, GoodSimple,
      PrintCond, PrintBody, PrintElifs, PrintElse, PrintBranches, GoodAndOr, GoodBody, GoodElif, GoodBranch;
    CommandStart(style, n);
    match n
    case Command(_, _, _, _) => SimpleRoundTrip(n, rest);
    case IfStmt(_, _, _, _) => IfRoundTrip(style, n, rest);
    case WhileStmt(_, _, _) => WhileRoundTrip(style, n, rest);
    case ForStmt(_, _, _) => ForRoundTrip(style, n, rest);
    case CaseStmt(_, _) => CaseRoundTrip(style, n, rest);
  }

  // ----- whole programs

  lemma {:induction false} SkipAtTop(n: nat, more: seq<Token>, done: seq<Node>)
    ensures TopLevel(Semis(n) + more, done) == TopLevel(more, done)
  {
    if n == 0 {
      assert Semis(n) + more == more;
    } else {
      assert (Semis(n) + more)[1..] == Semis(n - 1) + more;
      SkipAtTop(n - 1, more, done);
    }
  }

  lemma TopStep(ts: seq<Token>, done: seq<Node>, n: Node, rest: seq<Token>)
    requires ts != [] && ts[0] != Semi && ParseAndOr(ts) == Parsed(Some(n), rest)
    ensures TopLevel(ts, done) == TopLevel(rest, done + [n])
  {
    hide ParseAndOr;
  }

  lemma {:induction false} TopLevelRoundTrip(style: Style, done: seq<Node>, cmds: seq<Node>)
    requires forall i :: 0 <= i < |cmds| ==> GoodAndOr(cmds[i])
    ensures TopLevel(PrintList(style, cmds), done) == Parsed(Program(done + cmds), [])
    decreases |cmds|
  {
    hide ParseAndOr, PrintAndOr, GoodAndOr, EndsAndOr, SemisBehind;
    if cmds == [] {
      assert done + cmds == done;
    } else {
      var more := PrintList(style, cmds[1..]);
      var ts, behind := PrintList(style, cmds), Semis(SemisBehind(style, cmds)) + more;
      assert ts == PrintAndOr(style, cmds[0]) + behind;
      AndOrStart(style, cmds[0]);
      BehindCommand(style, cmds, []);
      assert more + [] == more;
      AndOrRoundTrip(style, cmds[0], behind);
      TopStep(ts, done, cmds[0], behind);
      SkipAtTop(SemisBehind(style, cmds), more, done + [cmds[0]]);
      hide TopLevel;
      TopLevelRoundTrip(style, done + [cmds[0]], cmds[1..]);
      assert done + [cmds[0]] + cmds[1..] == done + cmds;
    }
  }

  /** Parsing undoes printing, however many semicolons were printed. */
  lemma RoundTrip(style: Style, p: Node)
    requires GoodList(p)
    ensures ParseProgram(PrintList(style, p.commands)) == Parsed(p, [])
  {
    hide TopLevel, PrintList, GoodAndOr;
    TopLevelRoundTrip(style, [], p.commands);
    assert [] + p.commands == p.commands;
  }

  /** The same of the parser itself: it ends, not stuck, with every token consumed. */
  method ParsePrinted(style: Style, p: Node) returns (stuck: bool, q: Node, left: nat)
    requires GoodList(p)
    ensures !stuck && q == p && left == 0
  {
    hide TopLevel, PrintList, GoodAndOr;
    RoundTrip(style, p);
    var tokens := PrintList(style, p.commands);
    var parser := new ShellParser.Parser(tokens);
    assert parser.Rest() == tokens;
    stuck, q := parser.ParseProgram();
    left := |tokens| - parser.pos;
  }
}
