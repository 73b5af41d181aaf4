/**
  When the parser ends.  One scan over the tokens, with a stack of the constructs that are open, tells
  whether the recursive parser loops for ever: it does exactly when a redirection operator is the last token
  of a simple command that reaches the end of the input, or when a body stands before a token that neither
  ends it nor starts a command.
 */
module ShellHangs {
  import opened Common
  import opened ShellAst

  /** No command starts here, and none of the tokens is consumed. */
  predicate StartsNothing(ts: seq<Token>) {
    ts == [] || IsStop(ts[0]) || (ts[0] == Amp && |ts| > 1 && ts[1] == Amp)
  }

  // ----- simple commands

  /** A simple command is cut off behind a redirection operator, or it ends and kept something or nothing. */
  datatype Simple = CutOff | Ends(kept: bool, rest: seq<Token>)

  function ScanSimple(ts: seq<Token>, kept: bool): (r: Simple)
    ensures r.Ends? ==> |r.rest| <= |ts|
    ensures r.Ends? && !StartsNothing(ts) ==> |r.rest| < |ts|
    decreases |ts|
  {
    if ts == [] || IsStop(ts[0]) then Ends(kept, ts)
    else if ts[0] == Amp then Ends(kept, if |ts| > 1 && ts[1] == Amp then ts else ts[1..])
    else if IsRedirOp(ts[0]) then
      if |ts| == 1 then CutOff
      else if IsBadTarget(ts[1]) then ScanSimple(ts[1..], true)
      else ScanSimple(ts[2..], kept)
    else ScanSimple(ts[1..], true)
  }

  /** The parser of simple commands ends exactly when the command is not cut off. */
  lemma {:induction false} SimpleScans(ts: seq<Token>, cmd: Node)
    requires cmd.Command?
    ensures var s, p := ScanSimple(ts, cmd.args != [] || cmd.assignments != []), ParseSimple(ts, cmd);
            (p == Stuck <==> s == CutOff) && (p.Parsed? ==> s == Ends(p.value.Some?, p.rest))
    decreases |ts|
  {
    hide IsAssignment, ToAssignment, IsBadTarget, IsStop;
    if ts == [] || IsStop(ts[0]) || ts[0] == Amp {
    } else if IsRedirOp(ts[0]) {
      if |ts| > 1 {
        if IsBadTarget(ts[1]) {
          SimpleScans(ts[1..], cmd.(args := cmd.args + [ts[0]]));
        } else {
          SimpleScans(ts[2..], cmd.(redirs := cmd.redirs + [Redir(ts[0], ts[1])]));
        }
      }
    } else if IsAssignment(ts[0]) && cmd.args == [] {
      SimpleScans(ts[1..], cmd.(assignments := cmd.assignments + [ToAssignment(ts[0])]));
    } else {
      SimpleScans(ts[1..], cmd.(args := cmd.args + [ts[0]]));
    }
  }

  // ----- nothing parsed

  predicate IsCompoundStart(t: Token) { t in {If, While, Until, For, Case} }

  /** A simple command gives nothing back and takes nothing exactly before such tokens. */
  lemma SimpleNil(ts: seq<Token>)
    ensures ParseSimple(ts, NO_COMMAND) == Parsed(None, ts) <==> StartsNothing(ts)
    ensures ParseSimple(ts, NO_COMMAND).Parsed? && |ParseSimple(ts, NO_COMMAND).rest| == |ts| ==> StartsNothing(ts)
  {
    hide IsStop;
    SimpleScans(ts, NO_COMMAND);
  }

  lemma CommandNil(ts: seq<Token>)
    ensures ParseCommand(ts) == Parsed(None, ts) <==> StartsNothing(ts)
    ensures ParseCommand(ts).Parsed? && |ParseCommand(ts).rest| == |ts| ==> StartsNothing(ts)
  {
    hide ParseSimple, ParseIf, ParseWhile, ParseFor, ParseCase;
    SimpleNil(ts);
  }

  lemma PipelineNil(ts: seq<Token>)
    ensures ParsePipeline(ts) == Parsed(None, ts) <==> StartsNothing(ts)
    ensures ParsePipeline(ts).Parsed? && |ParsePipeline(ts).rest| == |ts| ==> StartsNothing(ts)
  {
    hide ParseCommand, PipeMore;
    CommandNil(ts);
  }

  /** So does a whole and-or list: this is the guard of the loop that never ends. */
  lemma AndOrNil(ts: seq<Token>)
    ensures ParseAndOr(ts) == Parsed(None, ts) <==> StartsNothing(ts)
    ensures ParseAndOr(ts).Parsed? && |ParseAndOr(ts).rest| == |ts| ==> StartsNothing(ts)
  {
    hide ParsePipeline, AndOrMore;
    PipelineNil(ts);
  }

  // ----- the scan

  /** The constructs that can be open: the program, a condition, or a body, which may stand alone. */
  datatype Frame =
    | Top | IfCond | ElifCond | WhileCond | IfBody | ElseBody | WhileBody | ForBody | CaseBody | Alone(body: Frame)

  predicate IsCond(f: Frame) { f in {IfCond, ElifCond, WhileCond} }

  function EndsOf(f: Frame): set<Token> {
    match f
    case IfBody => IF_ENDS
    case ElseBody => {Fi}
    case WhileBody => {Done}
    case ForBody => {Done}
    case CaseBody => {DoubleSemi, Esac}
    case Alone(body) => EndsOf(body)
    case _ => {}
  }

  /** A command is the first of its list, follows a pipe, or follows `&&` or `||`. */
  datatype Role = First | Next | Right

  /** The scan before a command. */
  predicate Hangs(ts: seq<Token>, role: Role, open: seq<Frame>)
    decreases |ts|, |open|, if role != First then 8 else if open != [] && IsCond(open[0]) then 5 else 3
  {
    if open == [] then false
    else if role == First && !IsCond(open[0]) && (ts == [] || ts[0] in EndsOf(open[0])) then Leaves(ts, open)
    else if role == First && !IsCond(open[0]) && ts[0] == Semi then Hangs(ts[1..], First, open)
    else if StartsNothing(ts) then
      match role
      case Next => AfterPipes(ts, open)
      case Right => AfterList(false, ts, open)
      case First =>
        if IsCond(open[0]) then AfterCond(ts, open)
        else open[0] != Top || Hangs(ts[1..], First, open)
    else
      var t, rest := ts[0], ts[1..];
      if t == If then Hangs(rest, First, [IfCond] + open)
      else if t == While || t == Until then Hangs(rest, First, [WhileCond] + open)
      else if t == For then InFor(rest, role, open)
      else if t == Case then InCase(CaseHead(rest), open)
      else AfterSimple(ScanSimple(if role != Next && Negates(ts) then rest else ts, false), role, open)
  }

  predicate AfterSimple(s: Simple, role: Role, open: seq<Frame>)
    decreases if s.Ends? then |s.rest| else 0, |open|, 10
  {
    s == CutOff || AfterCommand(!s.kept, s.rest, role, open)
  }

  /** Behind a command, which may have been nothing. */
  predicate AfterCommand(none: bool, ts: seq<Token>, role: Role, open: seq<Frame>)
    decreases |ts|, |open|, 9
  {
    if none && role == First then AfterList(true, ts, open)
    else if none && role == Right then AfterList(false, ts, open)
    else if !none && Peek(ts) == Pipe then Hangs(ts[1..], Next, open)
    else AfterPipes(ts, open)
  }

  /** Behind a pipeline. */
  predicate AfterPipes(ts: seq<Token>, open: seq<Frame>)
    decreases |ts|, |open|, 7
  {
    if Peek(ts) == AndIf || Peek(ts) == OrIf then Hangs(ts[1..], Right, open) else AfterList(false, ts, open)
  }

  /** Behind an and-or list; the program drops a token where there was none. */
  predicate AfterList(none: bool, ts: seq<Token>, open: seq<Frame>)
    decreases |ts|, |open|, 6
  {
    if open == [] then false
    else if IsCond(open[0]) then AfterCond(ts, open)
    else if none && open[0] == Top && ts != [] then Hangs(ts[1..], First, open)
    else Hangs(ts, First, open)
  }

  /** Behind a condition. */
  predicate AfterCond(ts: seq<Token>, open: seq<Frame>)
    requires open != [] && IsCond(open[0])
    decreases |ts|, |open|, 4
  {
    var s := SkipSemis(ts);
    var outer := open[1..];
    if open[0] == ElifCond then Hangs(Match(s, Then), First, [IfBody] + outer)
    else if open[0] == IfCond && Peek(s) == Then then Hangs(s[1..], First, [IfBody] + outer)
    else if open[0] == WhileCond && Peek(s) == Do then Hangs(s[1..], First, [WhileBody] + outer)
    else AfterCommand(false, s, First, outer)
  }

  /** At the end of a body, or of the program. */
  predicate Leaves(ts: seq<Token>, open: seq<Frame>)
    requires open != [] && !IsCond(open[0])
    decreases |ts|, |open|, 2
  {
    var outer := open[1..];
    match open[0]
    case IfBody => if Peek(ts) == Elif then Hangs(ts[1..], First, [ElifCond] + outer) else AtElse(ts, outer)
    case ElseBody => AfterCommand(false, Match(SkipSemis(ts), Fi), First, outer)
    case WhileBody => AfterCommand(false, Match(SkipSemis(ts), Done), First, outer)
    case ForBody => AfterCommand(false, Match(ts, Done), First, outer)
    case CaseBody => InCase(Match(ts, DoubleSemi), outer)
    case _ => false
  }

  predicate AtElse(ts: seq<Token>, open: seq<Frame>)
    decreases |ts|, |open| + 1, 1
  {
    var s := SkipSemis(ts);
    if Peek(s) == Else then Hangs(s[1..], First, [ElseBody] + open)
    else AfterCommand(false, Match(s, Fi), First, open)
  }

  /** Behind `for`. */
  predicate InFor(ts: seq<Token>, role: Role, open: seq<Frame>)
    decreases |ts|, |open|, 10
  {
    if ts == [] then AfterCommand(true, ts, role, open)
    else
      var rest := ForHead(ts);
      if Peek(rest) == Do then Hangs(rest[1..], First, [ForBody] + open) else AfterCommand(false, rest, role, open)
  }

  function ForHead(ts: seq<Token>): (r: seq<Token>)
    requires ts != []
    ensures |r| < |ts|
  {
    Match(if Peek(ts[1..]) == In then Words(ts[1..][1..], []).1 else ts[1..], Semi)
  }

  function CaseHead(ts: seq<Token>): (r: seq<Token>)
    ensures |r| <= |ts|
  {
    Match(if ts != [] && ts[0] != In && !IsCompoundEnd(ts[0]) then ts[1..] else ts, In)
  }

  /** Before a branch of a case statement. */
  predicate InCase(ts: seq<Token>, open: seq<Frame>)
    decreases |ts|, |open|, 10
  {
    var s := Match(ts, Semi);
    if ts == [] || ts[0] == Esac then AfterCommand(false, Match(ts, Esac), First, open)
    else if Peek(s) == Esac then AfterCommand(false, s[1..], First, open)
    else
      var rest := Patterns(s, []).1;
      if Peek(rest) == CloseParen then Hangs(rest[1..], First, [CaseBody] + open) else InCase(rest, open)
  }

  // ----- the scan and the parser agree, construct by construct

  /** The scan says that the parser is stuck, or goes on behind what was parsed. */
  predicate Tells(hangs: bool, stuck: bool, goesOn: bool) {
    if stuck then hangs else hangs == goesOn
  }

  lemma EndsAreStops(ts: seq<Token>, f: Frame)
    requires !StartsNothing(ts)
    ensures ts != [] && ts[0] != Semi && ts[0] !in EndsOf(f)
  {
    if f.Alone? { EndsAreStops(ts, f.body); }
  }

  lemma RoleFree(ts: seq<Token>, role: Role, open: seq<Frame>)
    ensures AfterCommand(false, ts, role, open) == AfterCommand(false, ts, First, open)
  {
  }

  lemma {:induction false} CommandScans(ts: seq<Token>, role: Role, open: seq<Frame>)
    requires open != [] && !StartsNothing(ts) && (role != Next ==> !Negates(ts))
    ensures var p := ParseCommand(ts);
            Tells(Hangs(ts, role, open), p.Stuck?, p.Parsed? && AfterCommand(p.value.None?, p.rest, role, open))
    decreases |ts|, 1
  {
    HangsBefore(ts, role, open);
    hide Hangs, StartsNothing, ParseIf, ParseWhile, ParseFor, ParseCase, ParseSimple, ScanSimple, Negates;
    hide AfterCommand, InFor, InCase, CaseHead, AfterSimple;
    var rest := ts[1..];
    CommandIs(ts);
    hide ParseCommand;
    if ts[0] == If {
      IfScans(rest, role, open);
    } else if ts[0] == While || ts[0] == Until {
      WhileScans(rest, ts[0] == Until, role, open);
    } else if ts[0] == For {
      ForScans(rest, role, open);
    } else if ts[0] == Case {
      CaseScans(rest, role, open);
    } else {
      SimpleCommandScans(ts, role, open);
    }
  }

  lemma CommandIs(ts: seq<Token>)
    requires ts != []
    ensures var t, rest := ts[0], ts[1..];
            ParseCommand(ts) ==
              if t == If then ParseIf(rest) else if t == While || t == Until then ParseWhile(rest, t == Until)
              else if t == For then ParseFor(rest) else if t == Case then ParseCase(rest)
              else ParseSimple(ts, NO_COMMAND)
  {
    hide ParseIf, ParseWhile, ParseFor, ParseCase, ParseSimple;
  }

  /** The scan before a command that is there. */
  predicate Starts(ts: seq<Token>, role: Role, open: seq<Frame>)
    requires ts != []
  {
    var t, rest := ts[0], ts[1..];
    if t == If then Hangs(rest, First, [IfCond] + open)
    else if t == While || t == Until then Hangs(rest, First, [WhileCond] + open)
    else if t == For then InFor(rest, role, open)
    else if t == Case then InCase(CaseHead(rest), open)
    else AfterSimple(ScanSimple(if role != Next && Negates(ts) then rest else ts, false), role, open)
  }

  lemma HangsBefore(ts: seq<Token>, role: Role, open: seq<Frame>)
    requires open != [] && !StartsNothing(ts)
    ensures ts != [] && Hangs(ts, role, open) == Starts(ts, role, open)
  {
    EndsAreStops(ts, open[0]);
    hide StartsNothing, EndsOf, AfterCommand, InFor, InCase, AfterPipes, AfterList, AfterCond, Leaves, AtElse;
    hide AfterSimple, ScanSimple, Negates, CaseHead;
  }

  lemma SimpleCommandScans(ts: seq<Token>, role: Role, open: seq<Frame>)
    requires ts != [] && !IsCompoundStart(ts[0])
    ensures var p := ParseCommand(ts);
            Tells(AfterSimple(ScanSimple(ts, false), role, open), p.Stuck?, p.Parsed? && AfterCommand(p.value.None?, p.rest, role, open))
  {
    hide ParseSimple, ScanSimple, AfterCommand;
    SimpleScans(ts, NO_COMMAND);
  }

  /** A negated command is a simple one. */
  lemma NegatedScans(ts: seq<Token>, role: Role, open: seq<Frame>)
    requires open != [] && Negates(ts) && role != Next
    ensures var p := ParseCommand(ts[1..]);
            Tells(Hangs(ts, role, open), p.Stuck?, p.Parsed? && AfterCommand(p.value.None?, p.rest, role, open))
  {
    assert !StartsNothing(ts);
    HangsBefore(ts, role, open);
    hide Hangs, ParseIf, ParseWhile, ParseFor, ParseCase, ParseSimple, ScanSimple, AfterCommand, InFor, InCase;
    SimpleScans(ts[1..], NO_COMMAND);
  }

  lemma {:induction false} PipeMoreScans(cmds: seq<Node>, ts: seq<Token>, role: Role, open: seq<Frame>)
    requires open != []
    ensures var p := PipeMore(cmds, ts);
            Tells(AfterCommand(false, ts, role, open), p.Stuck?, p.Parsed? && AfterPipes(p.rest, open))
    decreases |ts|, 2
  {
    hide ParseCommand, AfterPipes, AfterList, AfterCond, Leaves, StartsNothing, InFor, InCase, AfterSimple, ScanSimple;
    if Peek(ts) == Pipe {
      var next := ts[1..];
      CommandNil(next);
      if StartsNothing(next) {
      } else {
        CommandScans(next, Next, open);
        hide Hangs;
        var p := ParseCommand(next);
        if p.Parsed? && p.value.Some? {
          PipeMoreScans(cmds + [p.value.value], p.rest, Next, open);
        }
      }
    }
  }

  lemma {:induction false} PipelineScans(ts: seq<Token>, role: Role, open: seq<Frame>)
    requires open != [] && !StartsNothing(ts) && role != Next
    ensures var p := ParsePipeline(ts);
            Tells(Hangs(ts, role, open), p.Stuck?,
                  p.Parsed? && if p.value.None? then AfterList(role == First, p.rest, open) else AfterPipes(p.rest, open))
    decreases |ts|, 3
  {
    hide ParseCommand, AfterPipes, AfterList, StartsNothing, Hangs, PipeMore, Negates;
    EndsAreStops(ts, Top);
    if Negates(ts) { NegatedScans(ts, role, open); } else { CommandScans(ts, role, open); }
    var start := if Negates(ts) then ts[1..] else ts;
    var p := ParseCommand(start);
    if p.Parsed? {
      if p.value.Some? { PipeMoreScans([p.value.value], p.rest, role, open); hide AfterCommand; }
    }
  }

  lemma {:induction false} AndOrMoreScans(left: Node, ts: seq<Token>, open: seq<Frame>)
    requires open != []
    ensures var p := AndOrMore(left, ts);
            Tells(AfterPipes(ts, open), p.Stuck?, p.Parsed? && AfterList(false, p.rest, open))
    decreases |ts|, 3
  {
    hide ParsePipeline, AfterList, AfterCond, Leaves, StartsNothing, InFor, InCase, AfterSimple, ScanSimple, AfterCommand;
    if Peek(ts) == AndIf || Peek(ts) == OrIf {
      var next := ts[1..];
      PipelineNil(next);
      if StartsNothing(next) {
      } else {
        PipelineScans(next, Right, open);
        hide Hangs;
        var p := ParsePipeline(next);
        if p.Parsed? && p.value.Some? {
          AndOrMoreScans(AndOr(left, ts[0], p.value.value), p.rest, open);
        }
      }
    }
  }

  lemma {:induction false} AndOrScans(ts: seq<Token>, open: seq<Frame>)
    requires open != [] && !StartsNothing(ts)
    ensures var p := ParseAndOr(ts);
            Tells(Hangs(ts, First, open), p.Stuck?, p.Parsed? && AfterList(p.value.None?, p.rest, open))
    decreases |ts|, 4
  {
    hide ParsePipeline, AfterPipes, AfterList, StartsNothing, Hangs, AndOrMore;
    PipelineScans(ts, First, open);
    var p := ParsePipeline(ts);
    if p.Parsed? && p.value.Some? { AndOrMoreScans(p.value.value, p.rest, open); }
  }

  lemma {:induction false} CondScans(ts: seq<Token>, open: seq<Frame>)
    requires open != [] && IsCond(open[0])
    ensures var p := ParseAndOr(ts);
            Tells(Hangs(ts, First, open), p.Stuck?, p.Parsed? && AfterCond(p.rest, open))
    decreases |ts|, 5
  {
    hide ParseAndOr, AfterCond, Leaves, StartsNothing, InFor, InCase, AfterSimple, ScanSimple, AfterCommand;
    AndOrNil(ts);
    if !StartsNothing(ts) {
      AndOrScans(ts, open);
      hide Hangs;
    }
  }

  lemma {:induction false} CommandsScans(ts: seq<Token>, cmds: seq<Node>, f: Frame, outer: seq<Frame>)
    requires !IsCond(f) && f != Top
    ensures var p := Commands(ts, EndsOf(f), cmds);
            Tells(Hangs(ts, First, [f] + outer), p.Stuck?, p.Parsed? && Leaves(p.rest, [f] + outer))
    decreases |ts|, 5
  {
    hide ParseAndOr, AfterCond, Leaves, StartsNothing, InFor, InCase, AfterSimple, ScanSimple, AfterCommand, EndsOf;
    var open := [f] + outer;
    if ts == [] || ts[0] in EndsOf(f) {
    } else if ts[0] == Semi {
      CommandsScans(ts[1..], cmds, f, outer);
    } else {
      AndOrNil(ts);
      if !StartsNothing(ts) {
        AndOrScans(ts, open);
        hide Hangs;
        var p := ParseAndOr(ts);
        if p.Parsed? {
          CommandsScans(p.rest, if p.value.Some? then cmds + [p.value.value] else cmds, f, outer);
        }
      }
    }
  }

  lemma {:induction false} BodyScans(ts: seq<Token>, f: Frame, outer: seq<Frame>)
    requires !IsCond(f) && f != Top
    ensures var p := ParseBody(ts, EndsOf(f));
            Tells(Hangs(ts, First, [f] + outer), p.Stuck?, p.Parsed? && Leaves(p.rest, [f] + outer))
    decreases |ts|, 6
  {
    hide Commands, Hangs, Leaves;
    CommandsScans(ts, [], f, outer);
  }

  lemma {:induction false} ElifsScans(ts: seq<Token>, elifs: seq<ElifBranch>, outer: seq<Frame>)
    ensures var p := Elifs(ts, elifs);
            Tells(Leaves(ts, [IfBody] + outer), p.Stuck?, p.Parsed? && AtElse(p.rest, outer))
    decreases |ts|, 7
  {
    hide ParseAndOr, ParseBody, Hangs, AtElse, AfterCommand, InCase;
    var open := [IfBody] + outer;
    assert open[1..] == outer;
    if Peek(ts) == Elif {
      CondScans(ts[1..], [ElifCond] + outer);
      var p := ParseAndOr(ts[1..]);
      if p.Parsed? {
        var next := Match(SkipSemis(p.rest), Then);
        assert ([ElifCond] + outer)[1..] == outer;
        assert AfterCond(p.rest, [ElifCond] + outer) == Hangs(next, First, open);
        BodyScans(next, IfBody, outer);
        var b := ParseBody(next, IF_ENDS);
        if b.Parsed? {
          hide Leaves, AfterCond;
          ElifsScans(b.rest, elifs + [ElifBranch(p.value, b.value)], outer);
        }
      }
    }
  }

  lemma SkipTwice(ts: seq<Token>)
    ensures SkipSemis(SkipSemis(ts)) == SkipSemis(ts)
  {
  }

  lemma {:induction false} ElseScans(ts: seq<Token>, open: seq<Frame>)
    ensures var p := ParseElse(SkipSemis(ts));
            Tells(AtElse(ts, open), p.Stuck?, p.Parsed? && AfterCommand(false, Match(SkipSemis(p.rest), Fi), First, open))
    decreases |ts|, 7
  {
    hide ParseBody, Hangs, AfterCommand, InCase;
    var s := SkipSemis(ts);
    SkipTwice(ts);
    if Peek(s) == Else {
      BodyScans(s[1..], ElseBody, open);
      assert ([ElseBody] + open)[1..] == open;
    }
  }

  lemma {:induction false} IfScans(ts: seq<Token>, role: Role, open: seq<Frame>)
    ensures var p := ParseIf(ts);
            Tells(Hangs(ts, First, [IfCond] + open), p.Stuck?, p.Parsed? && AfterCommand(false, p.rest, role, open))
    ensures ParseIf(ts).Parsed? ==> ParseIf(ts).value.Some?
    decreases |ts|, 8
  {
    hide ParseAndOr, ParseBody, Hangs, AfterCommand, InCase, Elifs, ParseElse, Leaves, AtElse;
    CondScans(ts, [IfCond] + open);
    assert ([IfCond] + open)[1..] == open;
    var c := ParseAndOr(ts);
    if c.Parsed? {
      var s := SkipSemis(c.rest);
      if Peek(s) != Then {
        RoleFree(s, role, open);
      } else {
        BodyScans(s[1..], IfBody, open);
        hide AfterCond;
        var b := ParseBody(s[1..], IF_ENDS);
        if b.Parsed? {
          ElifsScans(b.rest, [], open);
          var e := Elifs(b.rest, []);
          if e.Parsed? {
            ElseScans(e.rest, open);
            var l := ParseElse(SkipSemis(e.rest));
            if l.Parsed? { RoleFree(Match(SkipSemis(l.rest), Fi), role, open); }
          }
        }
      }
    }
  }

  lemma {:induction false} WhileScans(ts: seq<Token>, until: bool, role: Role, open: seq<Frame>)
    ensures var p := ParseWhile(ts, until);
            Tells(Hangs(ts, First, [WhileCond] + open), p.Stuck?, p.Parsed? && AfterCommand(false, p.rest, role, open))
    ensures ParseWhile(ts, until).Parsed? ==> ParseWhile(ts, until).value.Some?
    decreases |ts|, 8
  {
    hide ParseAndOr, ParseBody, Hangs, AfterCommand, InCase, AtElse;
    CondScans(ts, [WhileCond] + open);
    assert ([WhileCond] + open)[1..] == open;
    var c := ParseAndOr(ts);
    if c.Parsed? {
      var s := SkipSemis(c.rest);
      if Peek(s) != Do {
        RoleFree(s, role, open);
      } else {
        BodyScans(s[1..], WhileBody, open);
        assert ([WhileBody] + open)[1..] == open;
        var b := ParseBody(s[1..], {Done});
        if b.Parsed? { RoleFree(Match(SkipSemis(b.rest), Done), role, open); }
      }
    }
  }

  lemma {:induction false} ForScans(ts: seq<Token>, role: Role, open: seq<Frame>)
    ensures var p := ParseFor(ts);
            Tells(InFor(ts, role, open), p.Stuck?, p.Parsed? && AfterCommand(p.value.None?, p.rest, role, open))
    decreases |ts|, 8
  {
    hide ParseBody, Hangs, AfterCommand, InCase, AtElse, Words;
    if ts != [] {
      var rest := ForHead(ts);
      if Peek(rest) == Do {
        BodyScans(rest[1..], ForBody, open);
        assert ([ForBody] + open)[1..] == open;
        var b := ParseBody(rest[1..], {Done});
        if b.Parsed? { RoleFree(Match(b.rest, Done), role, open); }
      }
    }
  }

  lemma {:induction false} BranchesScans(ts: seq<Token>, bs: seq<CaseBranch>, role: Role, open: seq<Frame>)
    ensures var p := Branches(ts, bs);
            Tells(InCase(ts, open), p.Stuck?, p.Parsed? && AfterCommand(false, Match(p.rest, Esac), role, open))
    decreases |ts|, 7
  {
    var s := Match(ts, Semi);
    BranchesIs(ts, bs);
    InCaseIs(ts, open);
    PatternsShrink(s);
    hide Commands, Hangs, AfterCommand, AtElse, Patterns, Branches, InCase;
    if ts == [] || ts[0] == Esac {
      RoleFree(Match(ts, Esac), role, open);
    } else if Peek(s) == Esac {
      RoleFree(s[1..], role, open);
    } else {
      var (patterns, rest) := Patterns(s, []);
      if Peek(rest) == CloseParen {
        CommandsScans(rest[1..], [], CaseBody, open);
        assert ([CaseBody] + open)[1..] == open;
        var c := Commands(rest[1..], {DoubleSemi, Esac}, []);
        if c.Parsed? {
          BranchesScans(Match(c.rest, DoubleSemi), bs + [CaseBranch(patterns, Program(c.value))], role, open);
        }
      } else {
        BranchesScans(rest, bs, role, open);
      }
    }
  }

  lemma PatternsShrink(s: seq<Token>)
    ensures Peek(Patterns(s, []).1) != CloseParen && Peek(s) != Esac && s != [] ==> |Patterns(s, []).1| < |s|
  {
  }

  lemma BranchesIs(ts: seq<Token>, bs: seq<CaseBranch>)
    ensures var s := Match(ts, Semi);
            var (patterns, rest) := Patterns(s, []);
            Branches(ts, bs) ==
              if ts == [] || ts[0] == Esac then Parsed(bs, ts)
              else if Peek(s) == Esac then Parsed(bs, s)
              else if Peek(rest) != CloseParen then Branches(rest, bs)
              else
                var c := Commands(rest[1..], {DoubleSemi, Esac}, []);
                if c.Stuck? then Stuck else Branches(Match(c.rest, DoubleSemi), bs + [CaseBranch(patterns, Program(c.value))])
  {
    hide Commands, Patterns;
  }

  lemma InCaseIs(ts: seq<Token>, open: seq<Frame>)
    ensures var s := Match(ts, Semi);
            var rest := Patterns(s, []).1;
            InCase(ts, open) ==
              if ts == [] || ts[0] == Esac then AfterCommand(false, Match(ts, Esac), First, open)
              else if Peek(s) == Esac then AfterCommand(false, s[1..], First, open)
              else if Peek(rest) == CloseParen then Hangs(rest[1..], First, [CaseBody] + open)
              else InCase(rest, open)
  {
    hide AfterCommand, Hangs, Patterns;
  }

  lemma {:induction false} CaseScans(ts: seq<Token>, role: Role, open: seq<Frame>)
    ensures var p := ParseCase(ts);
            Tells(InCase(CaseHead(ts), open), p.Stuck?, p.Parsed? && AfterCommand(false, p.rest, role, open))
    ensures ParseCase(ts).Parsed? ==> ParseCase(ts).value.Some?
    decreases |ts|, 8
  {
    hide InCase, AfterCommand, Branches;
    BranchesScans(CaseHead(ts), [], role, open);
  }

  // ----- the whole parser

  lemma {:induction false} TopScans(ts: seq<Token>, cmds: seq<Node>)
    ensures TopLevel(ts, cmds) == Stuck <==> Hangs(ts, First, [Top])
    decreases |ts|
  {
    hide ParseAndOr, AfterCond, StartsNothing, InFor, InCase, AfterSimple, ScanSimple, AfterCommand;
    if ts == [] {
    } else if ts[0] == Semi {
      TopScans(ts[1..], cmds);
    } else {
      AndOrNil(ts);
      if StartsNothing(ts) {
        TopScans(ts[1..], cmds);
      } else {
        AndOrScans(ts, [Top]);
        var p := ParseAndOr(ts);
        if p.Parsed? {
          AtTop(p.value.None?, p.rest);
          hide Hangs, AfterList;
          if p.value.Some? {
            TopScans(p.rest, cmds + [p.value.value]);
          } else if p.rest != [] {
            TopScans(p.rest[1..], cmds);
          }
        }
      }
    }
  }

  lemma AtTop(none: bool, ts: seq<Token>)
    ensures AfterList(none, ts, [Top]) == if none && ts != [] then Hangs(ts[1..], First, [Top]) else Hangs(ts, First, [Top])
    ensures !Hangs([], First, [Top])
  {
    assert !Leaves([], [Top]);
  }

  /** The parser ends on a token list if and only if the scan finds no place where it would not. */
  lemma ParserEnds(ts: seq<Token>)
    ensures ParseProgram(ts) == Stuck <==> Hangs(ts, First, [Top])
  {
    hide Hangs, TopLevel;
    TopScans(ts, []);
  }

  /** The same for a body on its own, with whatever is nested in it. */
  lemma BodyEnds(ts: seq<Token>, f: Frame)
    requires f in {IfBody, ElseBody, WhileBody, ForBody, CaseBody}
    ensures Commands(ts, EndsOf(f), []) == Stuck <==> Hangs(ts, First, [Alone(f)])
  {
    assert EndsOf(Alone(f)) == EndsOf(f);
    hide Hangs, Commands, EndsOf;
    CommandsScans(ts, [], Alone(f), []);
    assert [Alone(f)] + [] == [Alone(f)];
  }

  // ----- what follows

  /** A body that stands before a token that neither ends it nor starts a command never ends. */
  lemma StuckInBody(ts: seq<Token>, ends: set<Token>, cmds: seq<Node>)
    requires ts != [] && ts[0] !in ends && ts[0] != Semi && StartsNothing(ts)
    ensures Commands(ts, ends, cmds) == Stuck
  {
    hide StartsNothing, ParseAndOr;
    AndOrNil(ts);
  }

  /** Nor does a program that starts with a simple command that is cut off. */
  lemma StuckOnRedirection(ts: seq<Token>)
    requires ts != [] && !IsCompoundStart(ts[0]) && !Negates(ts) && ScanSimple(ts, false) == CutOff
    ensures ParseProgram(ts) == Stuck
  {
    hide ScanSimple;
    assert !StartsNothing(ts) by { CutOffStarts(ts); }
    HangsBefore(ts, First, [Top]);
    hide Hangs;
    ParserEnds(ts);
  }

  lemma CutOffStarts(ts: seq<Token>)
    requires ScanSimple(ts, false) == CutOff
    ensures !StartsNothing(ts)
  {
  }

  predicate Flat(ts: seq<Token>) { forall i :: 0 <= i < |ts| ==> !IsCompoundStart(ts[i]) }

  /** Empty, or the last token is no redirection operator. */
  predicate LastIsPlain(ts: seq<Token>) { ts == [] || !IsRedirOp(ts[|ts| - 1]) }

  lemma {:induction false} SimpleSuffix(ts: seq<Token>, kept: bool)
    ensures var r := ScanSimple(ts, kept); r.Ends? ==> r.rest == ts[|ts| - |r.rest|..]
    decreases |ts|
  {
    hide IsStop, IsBadTarget, IsRedirOp;
    var skip := SimpleTurn(ts, kept);
    if skip > 0 {
      hide ScanSimple;
      SimpleSuffix(ts[skip..], true);
      SimpleSuffix(ts[skip..], kept);
    }
  }

  /** How many tokens one turn over a simple command takes, and 0 at its end. */
  lemma SimpleTurn(ts: seq<Token>, kept: bool) returns (skip: nat)
    ensures skip <= |ts| && skip <= 2
    ensures skip == 0 && ScanSimple(ts, kept).Ends? ==>
      ScanSimple(ts, kept).rest == ts || (ts != [] && ScanSimple(ts, kept).rest == ts[1..])
    ensures skip > 0 ==> ScanSimple(ts, kept) == ScanSimple(ts[skip..], true) || ScanSimple(ts, kept) == ScanSimple(ts[skip..], kept)
    ensures skip == 0 && ScanSimple(ts, kept) == CutOff ==> ts != [] && IsRedirOp(ts[|ts| - 1])
  {
    hide IsStop, IsBadTarget, IsRedirOp;
    if ts == [] || IsStop(ts[0]) || ts[0] == Amp { return 0; }
    if IsRedirOp(ts[0]) {
      if |ts| == 1 { return 0; }
      return if IsBadTarget(ts[1]) then 1 else 2;
    }
    return 1;
  }

  lemma {:induction false} PlainIsNotCutOff(ts: seq<Token>, kept: bool)
    requires LastIsPlain(ts)
    ensures ScanSimple(ts, kept).Ends?
    decreases |ts|
  {
    hide ScanSimple, IsRedirOp;
    var skip := SimpleTurn(ts, kept);
    if skip > 0 {
      assert ts[skip..] != [] ==> ts[skip..][|ts[skip..]| - 1] == ts[|ts| - 1];
      PlainIsNotCutOff(ts[skip..], true);
      PlainIsNotCutOff(ts[skip..], kept);
    }
  }

  lemma FlatSuffix(ts: seq<Token>, rest: seq<Token>)
    requires Flat(ts) && |rest| <= |ts| && rest == ts[|ts| - |rest|..]
    ensures Flat(rest) && (LastIsPlain(ts) ==> LastIsPlain(rest))
  {
  }

  predicate JoinsLists(t: Token) { t == AndIf || t == OrIf }

  /** Without compound commands no stack is needed: only whether a command is first, behind a pipe or a `&&`. */
  predicate FlatHangs(ts: seq<Token>, role: Role)
    decreases |ts|, 0
  {
    if ts == [] then false
    else if StartsNothing(ts) then FlatHangs(ts[1..], if role == Next && JoinsLists(ts[0]) then Right else First)
    else
      var s := ScanSimple(if role != Next && Negates(ts) then ts[1..] else ts, false);
      s == CutOff || FlatAfter(!s.kept, s.rest, role)
  }

  /** Behind a command: the program drops a token when the first command of a list was nothing. */
  predicate FlatAfter(none: bool, ts: seq<Token>, role: Role)
    decreases |ts|, 1
  {
    if ts == [] then false
    else if none && role == First then FlatHangs(ts[1..], First)
    else if !none && ts[0] == Pipe then FlatHangs(ts[1..], Next)
    else if !(none && role == Right) && JoinsLists(ts[0]) then FlatHangs(ts[1..], Right)
    else FlatHangs(ts, First)
  }

  lemma {:induction false} FlatScans(ts: seq<Token>, role: Role)
    requires Flat(ts)
    ensures Hangs(ts, role, [Top]) == FlatHangs(ts, role)
    decreases |ts|, if role == First then 0 else 1
  {
    hide ScanSimple, IsStop, Negates, AfterCommand, FlatAfter;
    if ts == [] || StartsNothing(ts) {
      FlatNothing(ts, role);
    } else {
      HangsBefore(ts, role, [Top]);
      hide Hangs, StartsNothing;
      var start := if role != Next && Negates(ts) then ts[1..] else ts;
      SimpleSuffix(start, false);
      var r := ScanSimple(start, false);
      if r.Ends? {
        FlatSuffix(ts, r.rest);
        FlatAfterScans(!r.kept, r.rest, role);
      }
    }
  }

  lemma {:induction false} FlatNothing(ts: seq<Token>, role: Role)
    requires Flat(ts) && StartsNothing(ts)
    ensures Hangs(ts, role, [Top]) == FlatHangs(ts, role)
    decreases |ts|, if role == First then 0 else 1, 0
  {
    hide ScanSimple, IsStop, Negates, AfterCommand, FlatAfter;
    AtTop(false, ts);
    if ts != [] {
      FlatSuffix(ts, ts[1..]);
      FlatScans(ts[1..], First);
      FlatScans(ts[1..], Right);
    }
    if role != First {
      FlatNothing(ts, First);
      assert AfterPipes(ts, [Top]) == if ts != [] && JoinsLists(ts[0]) then Hangs(ts[1..], Right, [Top]) else Hangs(ts, First, [Top]);
    }
  }

  lemma {:induction false} FlatAfterScans(none: bool, ts: seq<Token>, role: Role)
    requires Flat(ts)
    ensures AfterCommand(none, ts, role, [Top]) == FlatAfter(none, ts, role)
    decreases |ts|, 2
  {
    hide Hangs, FlatHangs;
    AtTop(none, ts);
    AtTop(false, ts);
    FlatScans(ts, First);
    if ts != [] {
      FlatSuffix(ts, ts[1..]);
      FlatScans(ts[1..], First);
      FlatScans(ts[1..], Next);
      FlatScans(ts[1..], Right);
    }
  }

  /** Without compound commands: exactly when the parser ends. */
  lemma FlatParserEnds(ts: seq<Token>)
    requires Flat(ts)
    ensures ParseProgram(ts) == Stuck <==> FlatHangs(ts, First)
  {
    hide Hangs, ParseProgram, FlatHangs;
    FlatScans(ts, First);
    ParserEnds(ts);
  }

  lemma FlatTurn(ts: seq<Token>, role: Role)
    requires ts != []
    ensures StartsNothing(ts) ==>
      FlatHangs(ts, role) == FlatHangs(ts[1..], if role == Next && JoinsLists(ts[0]) then Right else First)
    ensures var s := ScanSimple(if role != Next && Negates(ts) then ts[1..] else ts, false);
            !StartsNothing(ts) ==> FlatHangs(ts, role) == (s == CutOff || FlatAfter(!s.kept, s.rest, role))
  {
    hide ScanSimple, StartsNothing, Negates, FlatAfter;
  }

  lemma {:induction false} PlainDoesNotHang(ts: seq<Token>, role: Role)
    requires Flat(ts) && LastIsPlain(ts)
    ensures !FlatHangs(ts, role)
    decreases |ts|, 0
  {
    hide ScanSimple, StartsNothing, Negates, LastIsPlain, Flat, FlatAfter;
    if ts != [] {
      FlatTurn(ts, role);
      hide FlatHangs;
      FlatSuffix(ts, ts[1..]);
      if StartsNothing(ts) {
        PlainDoesNotHang(ts[1..], First);
        PlainDoesNotHang(ts[1..], Right);
      } else {
        var start := if role != Next && Negates(ts) then ts[1..] else ts;
        SimpleSuffix(start, false);
        PlainIsNotCutOff(start, false);
        var r := ScanSimple(start, false);
        FlatSuffix(ts, r.rest);
        PlainAfter(!r.kept, r.rest, role);
      }
    }
  }

  lemma {:induction false} PlainAfter(none: bool, ts: seq<Token>, role: Role)
    requires Flat(ts) && LastIsPlain(ts)
    ensures !FlatAfter(none, ts, role)
    decreases |ts|, 1
  {
    hide FlatHangs, LastIsPlain, Flat;
    PlainDoesNotHang(ts, First);
    if ts != [] {
      FlatSuffix(ts, ts[1..]);
      PlainDoesNotHang(ts[1..], First);
      PlainDoesNotHang(ts[1..], Next);
      PlainDoesNotHang(ts[1..], Right);
    }
  }

  /** Without compound commands the parser ends unless the last token is a redirection operator. */
  lemma FlatEnds(ts: seq<Token>)
    requires Flat(ts) && LastIsPlain(ts)
    ensures ParseProgram(ts).Parsed?
  {
    hide FlatHangs, ParseProgram;
    PlainDoesNotHang(ts, First);
    FlatParserEnds(ts);
  }

  /** It ends on some that do, because the program drops the operator. */
  lemma DroppedOperator()
    ensures ParseProgram([Amp, Great]) == Parsed(Program([]), [])
  {
    var ts := [Amp, Great];
    assert ts[1..] == [Great] && [Great][1..] == [];
    assert ParseSimple(ts, NO_COMMAND) == Parsed(None, [Great]);
    assert ParseCommand(ts) == Parsed(None, [Great]);
    assert ParsePipeline(ts) == Parsed(None, [Great]);
    assert ParseAndOr(ts) == Parsed(None, [Great]);
    assert TopLevel([], []) == Parsed(Program([]), []);
  }

  /** A body at two ampersands. */
  lemma AmpersandsHang(rest: seq<Token>)
    ensures ParseProgram([While, Word("a"), Semi, Do, Amp, Amp] + rest) == Stuck
  {
    var body := [Amp, Amp] + rest;
    var cond := [Word("a"), Semi, Do] + body;
    var ts := [While] + cond;
    assert [While, Word("a"), Semi, Do, Amp, Amp] + rest == ts && ts[1..] == cond;
    OneWordCondition(body);
    assert Hangs(body, First, [WhileBody, Top]);
    HangsBefore(ts, First, [Top]);
    assert [WhileCond] + [Top] == [WhileCond, Top];
    hide Hangs, ParseProgram;
    ParserEnds(ts);
  }

  lemma OneWordCondition(body: seq<Token>)
    ensures Hangs([Word("a"), Semi, Do] + body, First, [WhileCond, Top]) == Hangs(body, First, [WhileBody, Top])
  {
    var rest := [Semi, Do] + body;
    var cond := [Word("a")] + rest;
    assert [Word("a"), Semi, Do] + body == cond;
    WordStarts(rest);
    hide Hangs, AfterCommand, ScanSimple;
    OneWord(rest);
    DoFollows(body);
  }

  lemma WordStarts(rest: seq<Token>)
    ensures var cond := [Word("a")] + rest;
            Hangs(cond, First, [WhileCond, Top]) == AfterSimple(ScanSimple(cond, false), First, [WhileCond, Top])
  {
    var cond := [Word("a")] + rest;
    assert !StartsNothing(cond) && !Negates(cond);
    HangsBefore(cond, First, [WhileCond, Top]);
    hide Hangs, AfterCommand, ScanSimple, AfterSimple;
  }

  lemma OneWord(rest: seq<Token>)
    requires rest != [] && rest[0] == Semi
    ensures ScanSimple([Word("a")] + rest, false) == Ends(true, rest)
  {
    assert ([Word("a")] + rest)[1..] == rest;
  }

  lemma DoFollows(body: seq<Token>)
    ensures AfterCommand(false, [Semi, Do] + body, First, [WhileCond, Top]) == Hangs(body, First, [WhileBody, Top])
  {
    hide Hangs;
    var rest, open := [Semi, Do] + body, [WhileCond, Top];
    assert rest[1..] == [Do] + body && ([Do] + body)[1..] == body;
    assert SkipSemis(rest) == [Do] + body;
    assert open[1..] == [Top] && [WhileBody] + [Top] == [WhileBody, Top];
    assert AfterCond(rest, open) == Hangs(body, First, [WhileBody, Top]);
    assert AfterList(false, rest, open) == AfterCond(rest, open);
  }

  // ----- lists that open no body

  /** Compound commands may be there, but no token that opens the body of one. */
  predicate OpensNoBody(ts: seq<Token>) {
    forall i :: 0 <= i < |ts| ==> ts[i] != Then && ts[i] != Do && ts[i] != CloseParen
  }

  predicate Quiet(ts: seq<Token>) { OpensNoBody(ts) && LastIsPlain(ts) }

  predicate NoBodyOpen(open: seq<Frame>) {
    forall i :: 0 <= i < |open| ==> open[i] == Top || open[i] == IfCond || open[i] == WhileCond
  }

  predicate IsSuffix(rest: seq<Token>, ts: seq<Token>) { |rest| <= |ts| && rest == ts[|ts| - |rest|..] }

  lemma QuietSuffix(ts: seq<Token>, rest: seq<Token>)
    requires Quiet(ts) && IsSuffix(rest, ts)
    ensures Quiet(rest)
  {
  }

  lemma QuietTail(ts: seq<Token>)
    requires Quiet(ts) && ts != []
    ensures Quiet(ts[1..])
  {
    QuietSuffix(ts, ts[1..]);
  }

  lemma QuietMatch(ts: seq<Token>, t: Token)
    requires Quiet(ts)
    ensures Quiet(Match(ts, t))
  {
    hide Quiet;
    if ts != [] { QuietTail(ts); }
  }

  lemma QuietAhead(ts: seq<Token>)
    requires Quiet(ts)
    ensures Peek(ts) != Then && Peek(ts) != Do && Peek(ts) != CloseParen
  {
  }

  lemma SuffixTwice(a: seq<Token>, b: seq<Token>, c: seq<Token>)
    requires IsSuffix(a, b) && IsSuffix(b, c)
    ensures IsSuffix(a, c)
  {
  }

  lemma {:induction false} SemisSuffix(ts: seq<Token>)
    ensures IsSuffix(SkipSemis(ts), ts)
    decreases |ts|
  {
    if ts != [] && ts[0] == Semi {
      SemisSuffix(ts[1..]);
      SuffixTwice(SkipSemis(ts), ts[1..], ts);
    }
  }

  lemma {:induction false} WordsSuffix(ts: seq<Token>, words: seq<Token>)
    ensures IsSuffix(Words(ts, words).1, ts)
    decreases |ts|
  {
    if ts != [] && ts[0] != Semi && ts[0] != Do {
      assert Words(ts, words) == Words(ts[1..], words + [ts[0]]);
      hide Words;
      WordsSuffix(ts[1..], words + [ts[0]]);
      SuffixTwice(Words(ts, words).1, ts[1..], ts);
    }
  }

  lemma {:induction false} PatternsSuffix(ts: seq<Token>, patterns: seq<Token>)
    ensures IsSuffix(Patterns(ts, patterns).1, ts)
    decreases |ts|
  {
    if ts != [] && ts[0] != CloseParen && ts[0] != Esac {
      assert Patterns(ts, patterns) == Patterns(ts[1..], patterns + [ts[0]]);
      hide Patterns;
      PatternsSuffix(ts[1..], patterns + [ts[0]]);
      SuffixTwice(Patterns(ts, patterns).1, ts[1..], ts);
    }
  }

  lemma QuietForHead(ts: seq<Token>)
    requires Quiet(ts) && ts != []
    ensures Quiet(ForHead(ts))
  {
    hide Quiet, Words, IsSuffix;
    QuietTail(ts);
    var rest := ts[1..];
    if Peek(rest) == In {
      QuietTail(rest);
      WordsSuffix(rest[1..], []);
      QuietSuffix(rest[1..], Words(rest[1..], []).1);
    }
    QuietMatch(if Peek(rest) == In then Words(rest[1..], []).1 else rest, Semi);
  }

  lemma QuietCaseHead(ts: seq<Token>)
    requires Quiet(ts)
    ensures Quiet(CaseHead(ts))
  {
    hide Quiet;
    if ts != [] {
      QuietTail(ts);
      QuietMatch(ts[1..], In);
    }
    QuietMatch(ts, In);
  }

  /** No scan of such a list finds a place where the parser would not end. */
  lemma {:induction false} QuietBefore(ts: seq<Token>, role: Role, open: seq<Frame>)
    requires Quiet(ts) && NoBodyOpen(open)
    ensures !Hangs(ts, role, open)
    decreases |ts|, |open|, if role != First then 8 else if open != [] && IsCond(open[0]) then 5 else 3, 1
  {
    if open != [] {
      hide Hangs, Quiet;
      if StartsNothing(ts) { QuietNothing(ts, role, open); } else { QuietStarts(ts, role, open); }
    }
  }

  lemma {:induction false} QuietNothing(ts: seq<Token>, role: Role, open: seq<Frame>)
    requires Quiet(ts) && NoBodyOpen(open) && open != [] && StartsNothing(ts)
    ensures !Hangs(ts, role, open)
    decreases |ts|, |open|, if role != First then 8 else if IsCond(open[0]) then 5 else 3, 0
  {
    hide Quiet, AfterCommand, InFor, InCase, AfterPipes, AfterList, AfterCond, ScanSimple, AfterSimple;
    if role == Next {
      QuietPipes(ts, open);
    } else if role == Right {
      QuietList(false, ts, open);
    } else if IsCond(open[0]) {
      QuietCond(ts, open);
    } else if ts != [] {
      QuietTail(ts);
      QuietBefore(ts[1..], First, open);
    }
  }

  lemma {:induction false} QuietStarts(ts: seq<Token>, role: Role, open: seq<Frame>)
    requires Quiet(ts) && NoBodyOpen(open) && open != [] && !StartsNothing(ts)
    ensures !Hangs(ts, role, open)
    decreases |ts|, |open|, if role != First then 8 else if IsCond(open[0]) then 5 else 3, 0
  {
    HangsBefore(ts, role, open);
    hide Hangs, Quiet, AfterCommand, InFor, InCase, CaseHead, ScanSimple, StartsNothing, Negates;
    var rest := ts[1..];
    QuietTail(ts);
    if ts[0] == If {
      QuietBefore(rest, First, [IfCond] + open);
    } else if ts[0] == While || ts[0] == Until {
      QuietBefore(rest, First, [WhileCond] + open);
    } else if ts[0] == For {
      QuietFor(rest, role, open);
    } else if ts[0] == Case {
      QuietCaseHead(rest);
      QuietCase(CaseHead(rest), open);
    } else {
      QuietSimple(ts, role, open);
    }
  }

  lemma {:induction false} QuietSimple(ts: seq<Token>, role: Role, open: seq<Frame>)
    requires Quiet(ts) && NoBodyOpen(open) && !StartsNothing(ts) && ts != [] && !IsCompoundStart(ts[0])
    ensures !AfterSimple(ScanSimple(if role != Next && Negates(ts) then ts[1..] else ts, false), role, open)
    decreases |ts|, 0, 0, 0
  {
    var start := if role != Next && Negates(ts) then ts[1..] else ts;
    SimpleTakes(ts, start);
    QuietTail(ts);
    hide StartsNothing, Negates, AfterCommand;
    QuietScan(start);
    hide Quiet, ScanSimple;
    var r := ScanSimple(start, false);
    QuietCommand(!r.kept, r.rest, role, open);
  }

  lemma QuietScan(ts: seq<Token>)
    requires Quiet(ts)
    ensures var r := ScanSimple(ts, false); r.Ends? && Quiet(r.rest)
  {
    hide ScanSimple;
    SimpleSuffix(ts, false);
    PlainIsNotCutOff(ts, false);
    QuietSuffix(ts, ScanSimple(ts, false).rest);
  }

  /** A command that is there takes a token. */
  lemma SimpleTakes(ts: seq<Token>, start: seq<Token>)
    requires ts != [] && !StartsNothing(ts) && (start == ts || (Negates(ts) && start == ts[1..]))
    ensures ScanSimple(start, false).Ends? ==> |ScanSimple(start, false).rest| < |ts|
  {
  }

  lemma {:induction false} QuietCommand(none: bool, ts: seq<Token>, role: Role, open: seq<Frame>)
    requires Quiet(ts) && NoBodyOpen(open)
    ensures !AfterCommand(none, ts, role, open)
    decreases |ts|, |open|, 9, 0
  {
    hide Hangs, Quiet, AfterPipes, AfterList;
    QuietPipes(ts, open);
    QuietList(none && role == First, ts, open);
    if Peek(ts) == Pipe {
      QuietTail(ts);
      QuietBefore(ts[1..], Next, open);
    }
  }

  lemma {:induction false} QuietPipes(ts: seq<Token>, open: seq<Frame>)
    requires Quiet(ts) && NoBodyOpen(open)
    ensures !AfterPipes(ts, open)
    decreases |ts|, |open|, 7, 0
  {
    hide Hangs, Quiet, AfterList;
    QuietList(false, ts, open);
    if ts != [] {
      QuietTail(ts);
      QuietBefore(ts[1..], Right, open);
    }
  }

  lemma {:induction false} QuietList(none: bool, ts: seq<Token>, open: seq<Frame>)
    requires Quiet(ts) && NoBodyOpen(open)
    ensures !AfterList(none, ts, open)
    decreases |ts|, |open|, 6, 0
  {
    hide Hangs, Quiet, AfterCond;
    if open != [] {
      if IsCond(open[0]) {
        QuietCond(ts, open);
      } else {
        QuietBefore(ts, First, open);
        if ts != [] {
          QuietTail(ts);
          QuietBefore(ts[1..], First, open);
        }
      }
    }
  }

  lemma {:induction false} QuietCond(ts: seq<Token>, open: seq<Frame>)
    requires Quiet(ts) && NoBodyOpen(open) && open != [] && IsCond(open[0])
    ensures !AfterCond(ts, open)
    decreases |ts|, |open|, 4, 0
  {
    var s := SkipSemis(ts);
    hide Hangs, Quiet, AfterCommand, IsSuffix;
    SemisSuffix(ts);
    QuietSuffix(ts, s);
    QuietAhead(s);
    QuietCommand(false, s, First, open[1..]);
  }

  lemma {:induction false} QuietFor(ts: seq<Token>, role: Role, open: seq<Frame>)
    requires Quiet(ts) && NoBodyOpen(open)
    ensures !InFor(ts, role, open)
    decreases |ts|, |open|, 10, 0
  {
    hide Hangs, Quiet, AfterCommand, ForHead;
    if ts == [] {
      QuietCommand(true, ts, role, open);
    } else {
      var rest := ForHead(ts);
      QuietForHead(ts);
      QuietAhead(rest);
      QuietCommand(false, rest, role, open);
    }
  }

  lemma {:induction false} QuietCase(ts: seq<Token>, open: seq<Frame>)
    requires Quiet(ts) && NoBodyOpen(open)
    ensures !InCase(ts, open)
    decreases |ts|, |open|, 10, 0
  {
    var s := Match(ts, Semi);
    InCaseIs(ts, open);
    PatternsShrink(s);
    hide InCase, Hangs, AfterCommand, Patterns, Quiet, IsSuffix;
    QuietMatch(ts, Semi);
    QuietMatch(ts, Esac);
    if ts == [] || ts[0] == Esac {
      QuietCommand(false, Match(ts, Esac), First, open);
    } else if Peek(s) == Esac {
      QuietTail(s);
      QuietCommand(false, s[1..], First, open);
    } else {
      var rest := Patterns(s, []).1;
      PatternsSuffix(s, []);
      QuietSuffix(s, rest);
      QuietAhead(rest);
      QuietCase(rest, open);
    }
  }

  /** A list in which no body is opened is parsed, unless its last token is a redirection operator. */
  lemma UnopenedEnds(ts: seq<Token>)
    requires OpensNoBody(ts) && LastIsPlain(ts)
    ensures ParseProgram(ts).Parsed?
  {
    hide Hangs, ParseProgram;
    QuietBefore(ts, First, [Top]);
    ParserEnds(ts);
  }
}
