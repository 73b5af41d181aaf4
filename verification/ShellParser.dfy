/**
  The recursive-descent parser itself: a token list and a position that the parse methods advance.
  Every method does to the position what the function of the same name in `ShellAst` does to the
  remaining tokens.  `stuck` reports that a loop of the source would go round for ever.
 */
module ShellParser {
  import opened Common
  import opened ShellAst
  import S = ShellAst

  /** A parse method's outcome and the tokens it left agree with the function's. */
  predicate Agrees<T(==)>(want: Parsed<T>, stuck: bool, value: T, rest: seq<Token>) {
    if want.Stuck? then stuck else !stuck && value == want.value && rest == want.rest
  }

  class Parser {
    const tokens: seq<Token>
    var pos: nat

    constructor (tokens: seq<Token>)
      ensures this.tokens == tokens && pos == 0
    {
      this.tokens := tokens;
      pos := 0;
    }

    predicate Valid()
      reads this
    {
      pos <= |tokens|
    }

    function Rest(): (r: seq<Token>)
      requires Valid()
      reads this
      ensures |r| == |tokens| - pos
    {
      tokens[pos..]
    }

    function PeekAt(offset: nat): (t: Token)
      requires Valid()
      reads this
      ensures t == if offset < |Rest()| then Rest()[offset] else Word("")
    {
      if pos + offset >= |tokens| then Word("") else tokens[pos + offset]
    }

    method Advance() returns (t: Token)
      requires Valid()
      modifies this
      ensures Valid() && t == S.Peek(old(Rest())) && Rest() == S.Advance(old(Rest()))
    {
      t := PeekAt(0);
      if pos < |tokens| { pos := pos + 1; }
    }

    method Match(token: Token) returns (matched: bool)
      requires Valid() && token != Word("")
      modifies this
      ensures Valid() && matched == (S.Peek(old(Rest())) == token) && Rest() == S.Match(old(Rest()), token)
    {
      var t := PeekAt(0);
      matched := t == token;
      if matched { var _ := Advance(); }
    }

    method SkipSemicolons()
      requires Valid()
      modifies this
      ensures Valid() && Rest() == S.SkipSemis(old(Rest()))
    {
      var t := PeekAt(0);
      while t == Semi
        invariant Valid() && t == S.Peek(Rest()) && S.SkipSemis(old(Rest())) == S.SkipSemis(Rest())
        decreases |tokens| - pos
      {
        var _ := Advance();
        t := PeekAt(0);
      }
    }

    /** A redirection operator and what follows it; an operator without a target is an argument. */
    method ParseRedirection(cmd: Node) returns (stuck: bool, next: Node)
      requires Valid() && pos < |tokens| && !IsStop(PeekAt(0)) && PeekAt(0) != Amp && IsRedirOp(PeekAt(0)) && cmd.Command?
      modifies this
      ensures Valid() && pos <= |tokens| && next.Command?
      ensures stuck ==> S.ParseSimple(old(Rest()), cmd) == Stuck
      ensures !stuck ==> pos > old(pos) && S.ParseSimple(old(Rest()), cmd) == S.ParseSimple(Rest(), next)
    {
      hide IsStop, IsBadTarget, IsRedirOp, IsAssignment;
      next := cmd;
      var op := Advance();
      if pos == |tokens| {
        // Nothing is left to be a target, and the position goes back to the operator.
        return true, cmd;
      }
      var target := Advance();
      if IsBadTarget(target) {
        pos := pos - 1;
        next := cmd.(args := cmd.args + [op]);
      } else {
        next := cmd.(redirs := cmd.redirs + [Redir(op, target)]);
      }
      stuck := false;
    }

    method ParseSimpleCommand() returns (stuck: bool, node: Option<Node>)
      requires Valid()
      modifies this
      ensures Valid() && Agrees(S.ParseSimple(old(Rest()), NO_COMMAND), stuck, node, Rest())
    {
      hide IsAssignment, ToAssignment, IsStop, IsBadTarget, IsRedirOp;
      var cmd := NO_COMMAND;
      ghost var want := S.ParseSimple(Rest(), cmd);
      while pos < |tokens|
        invariant Valid() && cmd.Command? && want == S.ParseSimple(Rest(), cmd)
        decreases |tokens| - pos
      {
        var t := PeekAt(0);
        if IsStop(t) { break; }
        if t == Amp {
          var next := PeekAt(1);
          if next == Amp { break; }
          var _ := Advance();
          cmd := cmd.(background := true);
          break;
        }
        if IsRedirOp(t) {
          var st, next := ParseRedirection(cmd);
          if st { return true, None; }
          cmd := next;
          continue;
        }
        var _ := Advance();
        if IsAssignment(t) && cmd.args == [] {
          cmd := cmd.(assignments := cmd.assignments + [ToAssignment(t)]);
        } else {
          cmd := cmd.(args := cmd.args + [t]);
        }
      }
      assert want == FinishSimple(cmd, Rest());
      node := if cmd.args == [] && cmd.assignments == [] then None else Some(cmd);
      stuck := false;
    }

    method ParseCommand() returns (stuck: bool, node: Option<Node>)
      requires Valid()
      modifies this
      ensures Valid() && Agrees(S.ParseCommand(old(Rest())), stuck, node, Rest())
      decreases |tokens| - pos, 1
    {
      hide S.ParseSimple, S.ParseIf, S.ParseWhile, S.ParseFor, S.ParseCase;
      var t := PeekAt(0);
      if t == If {
        stuck, node := ParseIf();
      } else if t == While || t == Until {
        stuck, node := ParseWhile();
      } else if t == For {
        stuck, node := ParseFor();
      } else if t == Case {
        stuck, node := ParseCase();
      } else {
        stuck, node := ParseSimpleCommand();
      }
    }

    method ParsePipeline() returns (stuck: bool, node: Option<Node>)
      requires Valid()
      modifies this
      ensures Valid() && Agrees(S.ParsePipeline(old(Rest())), stuck, node, Rest())
      decreases |tokens| - pos, 3
    {
      hide S.ParseCommand, S.PipeMore, IsKeyword, IsOperator;
      var negated := false;
      var t, t1 := PeekAt(0), PeekAt(1);
      if t == Bang && !IsKeyword(t1) && !IsOperator(t1) {
        var _ := Advance();
        negated := true;
      }
      stuck, node := ParseCommand();
      if stuck || node.None? { return; }
      var cmds;
      stuck, cmds := ParsePipes(node.value);
      node := Some(if |cmds| == 1 && !negated then cmds[0] else Pipeline(cmds, negated));
    }

    method ParsePipes(first: Node) returns (stuck: bool, cmds: seq<Node>)
      requires Valid()
      modifies this
      ensures Valid() && cmds != [] && Agrees(S.PipeMore([first], old(Rest())), stuck, cmds, Rest())
      decreases |tokens| - pos, 2
    {
      hide S.ParseCommand;
      cmds := [first];
      ghost var want := S.PipeMore(cmds, Rest());
      while PeekAt(0) == Pipe
        invariant Valid() && cmds != [] && pos >= old(pos) && want == S.PipeMore(cmds, Rest())
        decreases |tokens| - pos
      {
        var _ := Advance();
        var st, next := ParseCommand();
        if st { return true, cmds; }
        if next.None? { break; }
        cmds := cmds + [next.value];
      }
      stuck := false;
    }

    method ParseAndOr() returns (stuck: bool, node: Option<Node>)
      requires Valid()
      modifies this
      ensures Valid() && Agrees(S.ParseAndOr(old(Rest())), stuck, node, Rest())
      decreases |tokens| - pos, 4
    {
      hide S.ParsePipeline;
      stuck, node := ParsePipeline();
      if stuck || node.None? { return; }
      var left := node.value;
      ghost var want := S.AndOrMore(left, Rest());
      var t := PeekAt(0);
      while t == AndIf || t == OrIf
        invariant Valid() && pos > old(pos) && t == S.Peek(Rest()) && want == S.AndOrMore(left, Rest())
        decreases |tokens| - pos
      {
        var op := Advance();
        stuck, node := ParsePipeline();
        if stuck { return; }
        if node.None? { break; }
        left := AndOr(left, op, node.value);
        t := PeekAt(0);
      }
      stuck, node := false, Some(left);
    }

    /** The loop shared by compound bodies and case bodies. */
    method ParseCommands(ends: set<Token>) returns (stuck: bool, cmds: seq<Node>)
      requires Valid()
      modifies this
      ensures Valid() && Agrees(S.Commands(old(Rest()), ends, []), stuck, cmds, Rest())
      decreases |tokens| - pos, 5
    {
      hide S.ParseAndOr;
      cmds := [];
      ghost var want := S.Commands(Rest(), ends, cmds);
      while pos < |tokens|
        invariant Valid() && pos >= old(pos) && want == S.Commands(Rest(), ends, cmds)
        decreases |tokens| - pos
      {
        var t := PeekAt(0);
        if t in ends { break; }
        var semi := Match(Semi);
        if semi { continue; }
        var start := pos;
        var st, node := ParseAndOr();
        if st { return true, []; }
        if node.Some? {
          cmds := cmds + [node.value];
        } else if pos == start {
          // The same token is looked at again, with the same outcome.
          return true, [];
        }
      }
      stuck := false;
    }

    method ParseCompoundBody(ends: set<Token>) returns (stuck: bool, node: Option<Node>)
      requires Valid()
      modifies this
      ensures Valid() && Agrees(S.ParseBody(old(Rest()), ends), stuck, node, Rest())
      decreases |tokens| - pos, 6
    {
      hide S.Commands;
      var cmds;
      stuck, cmds := ParseCommands(ends);
      node := if cmds == [] then None else Some(Program(cmds));
    }

    method ParseElifs() returns (stuck: bool, elifs: seq<ElifBranch>)
      requires Valid()
      modifies this
      ensures Valid() && Agrees(S.Elifs(old(Rest()), []), stuck, elifs, Rest())
      decreases |tokens| - pos, 7
    {
      hide S.ParseAndOr, S.ParseBody;
      elifs := [];
      ghost var want := S.Elifs(Rest(), elifs);
      while PeekAt(0) == Elif
        invariant Valid() && pos >= old(pos) && want == S.Elifs(Rest(), elifs)
        decreases |tokens| - pos
      {
        var _ := Advance();
        var st, cond := ParseAndOr();
        if st { return true, []; }
        SkipSemicolons();
        var _ := Match(Then);
        var body;
        st, body := ParseCompoundBody(IF_ENDS);
        if st { return true, []; }
        elifs := elifs + [ElifBranch(cond, body)];
      }
      stuck := false;
    }

    method ParseElse() returns (stuck: bool, els: Option<Node>)
      requires Valid()
      modifies this
      ensures Valid() && Agrees(S.ParseElse(old(Rest())), stuck, els, Rest())
      decreases |tokens| - pos, 7
    {
      hide S.ParseBody;
      stuck, els := false, None;
      var hasElse := Match(Else);
      if hasElse {
        stuck, els := ParseCompoundBody({Fi});
      }
    }

    method ParseIf() returns (stuck: bool, node: Option<Node>)
      requires Valid() && PeekAt(0) == If
      modifies this
      ensures Valid() && Agrees(S.ParseIf(old(Rest())[1..]), stuck, node, Rest())
      decreases |tokens| - pos, 0
    {
      hide S.ParseAndOr, S.ParseBody, S.Elifs, S.ParseElse, S.SkipSemis;
      var _ := Advance();
      var st, cond := ParseAndOr();
      if st { return true, None; }
      SkipSemicolons();
      var hasThen := Match(Then);
      if !hasThen { return false, Some(IfStmt(cond, None, [], None)); }
      var body, elifs;
      st, body := ParseCompoundBody(IF_ENDS);
      if st { return true, None; }
      st, elifs := ParseElifs();
      if st { return true, None; }
      SkipSemicolons();
      var els;
      st, els := ParseElse();
      if st { return true, None; }
      SkipSemicolons();
      var _ := Match(Fi);
      return false, Some(IfStmt(cond, body, elifs, els));
    }

    method ParseWhile() returns (stuck: bool, node: Option<Node>)
      requires Valid() && (PeekAt(0) == While || PeekAt(0) == Until)
      modifies this
      ensures Valid() && Agrees(S.ParseWhile(old(Rest())[1..], old(PeekAt(0)) == Until), stuck, node, Rest())
      decreases |tokens| - pos, 0
    {
      hide S.ParseAndOr, S.ParseBody;
      var until := PeekAt(0) == Until;
      var _ := Advance();
      var st, cond := ParseAndOr();
      if st { return true, None; }
      SkipSemicolons();
      var hasDo := Match(Do);
      if !hasDo { return false, Some(WhileStmt(cond, None, until)); }
      var body;
      st, body := ParseCompoundBody({Done});
      if st { return true, None; }
      SkipSemicolons();
      var _ := Match(Done);
      return false, Some(WhileStmt(cond, body, until));
    }

    method ParseWords() returns (words: seq<Token>)
      requires Valid()
      modifies this
      ensures Valid() && (words, Rest()) == S.Words(old(Rest()), [])
    {
      words := [];
      while pos < |tokens| && PeekAt(0) != Semi && PeekAt(0) != Do
        invariant Valid() && S.Words(old(Rest()), []) == S.Words(Rest(), words)
        decreases |tokens| - pos
      {
        var t := Advance();
        words := words + [t];
      }
    }

    method ParseForWords() returns (words: seq<Token>)
      requires Valid()
      modifies this
      ensures Valid()
      ensures (words, Rest()) == if S.Peek(old(Rest())) == In then S.Words(old(Rest())[1..], []) else ([], old(Rest()))
    {
      hide S.Words;
      words := [];
      var hasIn := Match(In);
      if hasIn {
        words := ParseWords();
      }
    }

    method ParseFor() returns (stuck: bool, node: Option<Node>)
      requires Valid() && PeekAt(0) == For
      modifies this
      ensures Valid() && Agrees(S.ParseFor(old(Rest())[1..]), stuck, node, Rest())
      decreases |tokens| - pos, 0
    {
      hide S.ParseBody, S.Words;
      var _ := Advance();
      if pos >= |tokens| { return false, None; }
      var name := Advance();
      var words := ParseForWords();
      ghost var rest := S.Match(Rest(), Semi);
      assert S.ParseFor(old(Rest())[1..]) ==
        if S.Peek(rest) != Do then Parsed(Some(ForStmt(name, words, None)), rest)
        else match S.ParseBody(rest[1..], {Done})
             case Stuck => Stuck
             case Parsed(body, rest3) => Parsed(Some(ForStmt(name, words, body)), S.Match(rest3, Done));
      hide S.ParseFor;
      if PeekAt(0) == Semi { var _ := Advance(); }
      var hasDo := Match(Do);
      if !hasDo { return false, Some(ForStmt(name, words, None)); }
      var st, body := ParseCompoundBody({Done});
      if st { return true, None; }
      var _ := Match(Done);
      return false, Some(ForStmt(name, words, body));
    }

    method ParsePatterns() returns (patterns: seq<Token>)
      requires Valid()
      modifies this
      ensures Valid() && (patterns, Rest()) == S.Patterns(old(Rest()), [])
    {
      patterns := [];
      while pos < |tokens| && PeekAt(0) != CloseParen && PeekAt(0) != Esac
        invariant Valid() && S.Patterns(old(Rest()), []) == S.Patterns(Rest(), patterns)
        decreases |tokens| - pos
      {
        var t := Advance();
        patterns := patterns + [t];
      }
    }

    /** One branch; patterns without a closing parenthesis are dropped. */
    method ParseBranch(done: seq<CaseBranch>) returns (stuck: bool, ended: bool, branches: seq<CaseBranch>)
      requires Valid() && pos < |tokens| && PeekAt(0) != Esac
      modifies this
      ensures Valid()
      ensures stuck ==> S.Branches(old(Rest()), done) == Stuck
      ensures !stuck && ended ==> S.Branches(old(Rest()), done) == Parsed(branches, Rest())
      ensures !stuck && !ended ==> pos > old(pos) && S.Branches(old(Rest()), done) == S.Branches(Rest(), branches)
      decreases |tokens| - pos, 6
    {
      hide S.Commands, S.Patterns;
      stuck, ended, branches := false, false, done;
      var _ := Match(Semi);
      if PeekAt(0) == Esac { return false, true, done; }
      var patterns := ParsePatterns();
      var close := Match(CloseParen);
      if close {
        var st, cmds := ParseCommands({DoubleSemi, Esac});
        if st { return true, false, []; }
        var _ := Match(DoubleSemi);
        branches := branches + [CaseBranch(patterns, Program(cmds))];
      }
    }

    method ParseBranches() returns (stuck: bool, branches: seq<CaseBranch>)
      requires Valid()
      modifies this
      ensures Valid() && Agrees(S.Branches(old(Rest()), []), stuck, branches, Rest())
      decreases |tokens| - pos, 7
    {
      branches := [];
      ghost var want := S.Branches(Rest(), branches);
      BranchesEnd();
      hide S.Branches;
      while pos < |tokens| && PeekAt(0) != Esac
        invariant Valid() && pos >= old(pos) && want == S.Branches(Rest(), branches)
        decreases |tokens| - pos
      {
        var st, ended;
        st, ended, branches := ParseBranch(branches);
        if st { return true, []; }
        if ended { return false, branches; }
      }
      stuck := false;
    }

    method ParseCase() returns (stuck: bool, node: Option<Node>)
      requires Valid() && PeekAt(0) == Case
      modifies this
      ensures Valid() && Agrees(S.ParseCase(old(Rest())[1..]), stuck, node, Rest())
      decreases |tokens| - pos, 0
    {
      hide S.Branches;
      var _ := Advance();
      var word := Word("");
      if pos < |tokens| && PeekAt(0) != In && !IsCompoundEnd(PeekAt(0)) {
        word := Advance();
      }
      var _ := Match(In);
      var st, branches := ParseBranches();
      if st { return true, None; }
      var _ := Match(Esac);
      return false, Some(CaseStmt(word, branches));
    }

    method ParseProgram() returns (stuck: bool, program: Node)
      requires Valid()
      modifies this
      ensures Valid() && Agrees(S.ParseProgram(old(Rest())), stuck, program, Rest())
    {
      hide S.ParseAndOr;
      var cmds := [];
      ghost var want := S.TopLevel(Rest(), cmds);
      while pos < |tokens|
        invariant Valid() && want == S.TopLevel(Rest(), cmds)
        decreases |tokens| - pos
      {
        var semi := Match(Semi);
        if semi { continue; }
        var st, node := ParseAndOr();
        if st { return true, Program([]); }
        if node.Some? {
          cmds := cmds + [node.value];
        } else {
          var _ := Advance();
        }
      }
      return false, Program(cmds);
    }
  }

  lemma BranchesEnd()
    ensures forall ts, done :: ts == [] || ts[0] == Esac ==> S.Branches(ts, done) == Parsed(done, ts)
  {
  }
}
