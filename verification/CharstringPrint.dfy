/**
  Whole charstrings: programs written down from what they are to draw, in absolute points, with every number
  encoded in any form that holds it. Running such a program draws exactly that.
 */
module CharstringPrint {
  import opened Common
  import opened CharstringSpec
  import opened CharstringNumber
  import D = CharstringDrawing
  import C = Charstring

  type Point = D.Point

  /** The form to encode each number in, where it suits. */
  type Style = int -> Form

  datatype MoveForm = RMoveTo | HMoveTo | VMoveTo

  /** `extra` operands of a move come first, such as the width; a subroutine holds the print of its `body`. */
  datatype Item =
    | Move(form: MoveForm, extra: seq<int>, to: Point)
    | Draw(op: D.Operator, segs: seq<D.Segment>)
    | Stems(code: Byte, operands: seq<int>)
    | Mask(code: Byte, operands: seq<int>, bits: seq<Byte>)
    | Call(global: bool, k: nat, body: Items)

  datatype Items = Done | Then(item: Item, more: Items)

  /** Where a drawing has got to: the pen, the start of its contour, and the stems that a mask is about. */
  datatype Place = Place(at: Point, first: Point, inHeader: bool, stems: nat)

  const BEGIN := Place(D.Point(0, 0), D.Point(0, 0), true, 0)

  // ----- what is to be drawn

  /** A line back to the start of a contour that is left open. */
  function Closing(c: Place): seq<Vertex> {
    if c.at == c.first then [] else [D.VertexOf(D.Line(c.first))]
  }

  function StemsWith(c: Place, n: nat): nat { if c.inHeader then c.stems + n / 2 else c.stems }

  function Meaning(it: Item, c: Place): (Place, seq<Vertex>) {
    match it
    case Move(_, _, q) =>
      (Place(q, q, false, c.stems), Closing(c) + [Vertex(MOVE, D.Rounded(q.x), D.Rounded(q.y), 0, 0, 0, 0)])
    case Draw(_, segs) => (c.(at := D.LastPoint(c.at, segs)), D.Vertices(segs))
    case Stems(_, operands) => (c.(stems := c.stems + |operands| / 2), [])
    case Mask(_, operands, _) => (c.(inHeader := false, stems := StemsWith(c, |operands|)), [])
    case Call(_, _, body) => Meanings(body, c)
  }

  function Meanings(items: Items, c: Place): (Place, seq<Vertex>) {
    match items
    case Done => (c, [])
    case Then(it, more) =>
      var (c1, vs) := Meaning(it, c);
      var (c2, ws) := Meanings(more, c1);
      (c2, vs + ws)
  }

  /** The picture of a whole program. */
  function Picture(items: Items): seq<Vertex> {
    var (c, vs) := Meanings(items, BEGIN);
    vs + Closing(c)
  }

  // ----- how it is written down

  predicate AllFit(operands: seq<int>) {
    |operands| <= STACK_MAX && forall d <- operands :: Fits(d)
  }

  function PrintNumber(style: Style, d: int): seq<Byte>
    requires Fits(d)
  {
    Coded(if Suits(style(d), d) then style(d) else Fixed, d)
  }

  function PrintNumbers(style: Style, operands: seq<int>): seq<Byte>
    requires AllFit(operands)
  {
    if operands == [] then [] else PrintNumber(style, operands[0]) + PrintNumbers(style, operands[1..])
  }

  function MoveOperands(form: MoveForm, p: Point, q: Point): seq<int> {
    match form
    case RMoveTo => [q.x - p.x, q.y - p.y]
    case HMoveTo => [q.x - p.x]
    case VMoveTo => [q.y - p.y]
  }

  predicate CanMove(form: MoveForm, p: Point, q: Point) {
    (form.HMoveTo? ==> q.y == p.y) && (form.VMoveTo? ==> q.x == p.x)
  }

  function MoveCode(form: MoveForm): Byte {
    match form
    case RMoveTo => 21
    case HMoveTo => 22
    case VMoveTo => 4
  }

  function Index(font: Font, global: bool): seq<seq<Byte>> { if global then font.gsubrs else font.subrs }

  /** The number that names subroutine `k` of an index, as section 4.7 of the same note biases it. */
  function Biased(k: nat, size: nat): int {
    k - if size < 1240 then 107 else if size < 33900 then 1131 else 32768
  }

  /** An item as it stands at a place, within the limits of 48 operands and ten nested calls. */
  predicate Printable(style: Style, font: Font, it: Item, c: Place, depth: nat)
    decreases it, 0
  {
    match it
    case Move(form, extra, q) => CanMove(form, c.at, q) && AllFit(extra + MoveOperands(form, c.at, q))
    case Draw(op, segs) => D.CanDraw(op, c.at, segs) && AllFit(D.Operands(op, c.at, segs))
    case Stems(code, operands) => code in {1, 3, 18, 23} && AllFit(operands)
    case Mask(code, operands, bits) =>
      code in {19, 20} && AllFit(operands) && |bits| == (StemsWith(c, |operands|) + 7) / 8
    case Call(global, k, body) =>
      && depth < CALL_MAX && k < |Index(font, global)| && Fits(Biased(k, |Index(font, global)|) * ONE)
      && AllPrintable(style, font, body, c, depth + 1)
      && Index(font, global)[k] == PrintAll(style, font, body, c, depth + 1) + [11]
  }

  predicate AllPrintable(style: Style, font: Font, items: Items, c: Place, depth: nat)
    decreases items, 0
  {
    items.Then? ==>
      Printable(style, font, items.item, c, depth) && AllPrintable(style, font, items.more, Meaning(items.item, c).0, depth)
  }

  function Print(style: Style, font: Font, it: Item, c: Place, depth: nat): seq<Byte>
    requires Printable(style, font, it, c, depth)
    decreases it, 1
  {
    match it
    case Move(form, extra, q) => PrintNumbers(style, extra + MoveOperands(form, c.at, q)) + [MoveCode(form)]
    case Draw(op, segs) => PrintNumbers(style, D.Operands(op, c.at, segs)) + D.Opcode(op)
    case Stems(code, operands) => PrintNumbers(style, operands) + [code]
    case Mask(code, operands, bits) => PrintNumbers(style, operands) + ([code] + bits)
    case Call(global, k, _) =>
      PrintNumber(style, Biased(k, |Index(font, global)|) * ONE) + [if global then 29 else 10]
  }

  function PrintAll(style: Style, font: Font, items: Items, c: Place, depth: nat): seq<Byte>
    requires AllPrintable(style, font, items, c, depth)
    decreases items, 1
  {
    match items
    case Done => []
    case Then(it, more) =>
      Print(style, font, it, c, depth) + PrintAll(style, font, more, Meaning(it, c).0, depth)
  }

  function Program(style: Style, font: Font, items: Items): seq<Byte>
    requires AllPrintable(style, font, items, BEGIN, 0)
  {
    PrintAll(style, font, items, BEGIN, 0) + [14]
  }

  // ----- running it

  /** A run at a place: `under` are the suspended callers. */
  function At(under: seq<Buf>, b: Buf, stack: seq<real>, c: Place): State {
    State(under + [b], stack, c.inHeader, c.stems, D.PenAt(c.at, c.first))
  }

  predicate Runs(under: seq<Buf>, b: Buf) {
    |under| <= CALL_MAX && b.Ok() && forall u <- under :: u.Ok()
  }

  lemma AtOk(under: seq<Buf>, b: Buf, stack: seq<real>, c: Place)
    requires Runs(under, b) && |stack| <= STACK_MAX
    ensures var st := At(under, b, stack, c);
            st.Ok() && st.Top() == b && forall b': Buf :: st.WithTop(b') == At(under, b', stack, c)
  {
    var st := At(under, b, stack, c);
    assert st.frames[..|st.frames| - 1] == under;
    assert forall u <- under :: u.Ok();
  }

  /** One instruction, on top of what has been drawn. */
  lemma Takes(font: Font, under: seq<Buf>, b: Buf, stack: seq<real>, c: Place, st': State, vs: seq<Vertex>,
              drawn: seq<Vertex>)
    requires Runs(under, b) && |stack| <= STACK_MAX && b.Left() > 0
    requires At(under, b, stack, c).Ok() && At(under, b, stack, c).Top() == b
    requires Step(font, At(under, b, stack, c)) == Next(st', vs) && st'.Ok()
    ensures C.Whole(drawn, Run(font, At(under, b, stack, c))) == C.Whole(drawn + vs, Run(font, st'))
  {
    hide Step, Run, At;
    C.RunStep(font, At(under, b, stack, c), drawn);
  }

  lemma PushOne(style: Style, font: Font, under: seq<Buf>, b: Buf, stack: seq<real>, c: Place, d: int, drawn: seq<Vertex>)
    requires Runs(under, b) && |stack| < STACK_MAX && Fits(d) && Has(b, PrintNumber(style, d))
    ensures var b' := Advance(b, |PrintNumber(style, d)|);
            && At(under, b, stack, c).Ok() && At(under, b', stack + [Units(d)], c).Ok() && Runs(under, b')
            && C.Whole(drawn, Run(font, At(under, b, stack, c))) == C.Whole(drawn, Run(font, At(under, b', stack + [Units(d)], c)))
  {
    hide Run, Number, Has, D.PenAt, Coded;
    var b' := Advance(b, |PrintNumber(style, d)|);
    assert b'.Ok() by { HasEnds(b, PrintNumber(style, d)); }
    AtOk(under, b, stack, c);
    AtOk(under, b', stack + [Units(d)], c);
    NumberReads(if Suits(style(d), d) then style(d) else Fixed, d, b);
    Takes(font, under, b, stack, c, At(under, b', stack + [Units(d)], c), [], drawn);
    assert drawn + [] == drawn;
  }

  lemma HasEnds(b: Buf, code: seq<Byte>)
    requires Has(b, code)
    ensures b.Ok() && Advance(b, |code|).Ok() && b.Left() >= |code|
  {
  }

  /** The operands of an instruction go on the stack in order. */
  lemma {:induction false} PushAll(style: Style, font: Font, under: seq<Buf>, b: Buf, stack: seq<real>, c: Place,
                                   operands: seq<int>, drawn: seq<Vertex>)
    requires Runs(under, b) && AllFit(operands) && |stack| + |operands| <= STACK_MAX
    requires Has(b, PrintNumbers(style, operands))
    ensures var b' := Advance(b, |PrintNumbers(style, operands)|);
            && At(under, b, stack, c).Ok() && At(under, b', stack + D.Reals(operands), c).Ok() && Runs(under, b')
            && C.Whole(drawn, Run(font, At(under, b, stack, c))) ==
               C.Whole(drawn, Run(font, At(under, b', stack + D.Reals(operands), c)))
    decreases |operands|
  {
    hide Run, At, Has, PrintNumber, C.Whole, Units;
    AtOk(under, b, stack, c);
    if operands == [] {
      assert stack + D.Reals(operands) == stack;
    } else {
      var d, more := operands[0], operands[1..];
      assert PrintNumbers(style, operands) == PrintNumber(style, d) + PrintNumbers(style, more);
      HasSplit(b, PrintNumber(style, d), PrintNumbers(style, more));
      PushOne(style, font, under, b, stack, c, d, drawn);
      PushAll(style, font, under, Advance(b, |PrintNumber(style, d)|), stack + [Units(d)], c, more, drawn);
      assert stack + D.Reals(operands) == stack + [Units(d)] + D.Reals(more);
    }
  }

  /** Running from `b` to `b'` leads from one place to another and draws `vs`. */
  ghost predicate Leads(font: Font, under: seq<Buf>, b: Buf, b': Buf, c: Place, c': Place, drawn: seq<Vertex>,
                        vs: seq<Vertex>) {
    && Runs(under, b) && Runs(under, b')
    && At(under, b, [], c).Ok() && At(under, b', [], c').Ok()
    && C.Whole(drawn, Run(font, At(under, b, [], c))) == C.Whole(drawn + vs, Run(font, At(under, b', [], c')))
  }

  lemma PathStep(font: Font, under: seq<Buf>, b: Buf, stack: seq<real>, c: Place, op: Byte, t: Stroke)
    requires Runs(under, b) && |stack| <= STACK_MAX && Has(b, [op]) && IsPathOp(op)
    requires Path(op, stack, D.PenAt(c.at, c.first)) == Some(t)
    ensures At(under, b, stack, c).Ok() && At(under, b, stack, c).Top() == b && b.Left() > 0
    ensures Step(font, At(under, b, stack, c)) ==
            Next(State(under + [Advance(b, 1)], [], c.inHeader && !IsMoveOp(op), c.stems, t.pen), t.vs)
  {
    hide Path, D.PenAt, Number, GetSubr;
    AtOk(under, b, stack, c);
    HasAt(b, [op], 0);
  }

  lemma FlexStep(font: Font, under: seq<Buf>, b: Buf, stack: seq<real>, c: Place, op: Byte, t: Stroke)
    requires Runs(under, b) && |stack| <= STACK_MAX && Has(b, [12, op]) && IsFlex(op)
    requires Flex(op, stack, D.PenAt(c.at, c.first)) == Some(t)
    ensures At(under, b, stack, c).Ok() && At(under, b, stack, c).Top() == b && b.Left() > 0
    ensures Step(font, At(under, b, stack, c)) ==
            Next(State(under + [Advance(b, 2)], [], c.inHeader, c.stems, t.pen), t.vs)
  {
    hide Path, Flex, D.PenAt, Number, GetSubr;
    AtOk(under, b, stack, c);
    HasAt(b, [12, op], 0);
    HasAt(b, [12, op], 1);
  }

  lemma StemsStep(font: Font, under: seq<Buf>, b: Buf, stack: seq<real>, c: Place, code: Byte)
    requires Runs(under, b) && |stack| <= STACK_MAX && Has(b, [code]) && code in {1, 3, 18, 23}
    ensures At(under, b, stack, c).Ok() && At(under, b, stack, c).Top() == b && b.Left() > 0
    ensures Step(font, At(under, b, stack, c)) == Next(At(under, Advance(b, 1), [], c.(stems := c.stems + |stack| / 2)), [])
  {
    hide Path, D.PenAt, Number, GetSubr;
    AtOk(under, b, stack, c);
    HasAt(b, [code], 0);
  }

  lemma MaskStep(font: Font, under: seq<Buf>, b: Buf, stack: seq<real>, c: Place, code: Byte, bits: seq<Byte>)
    requires Runs(under, b) && |stack| <= STACK_MAX && Has(b, [code] + bits) && code in {19, 20}
    requires |bits| == (StemsWith(c, |stack|) + 7) / 8
    ensures At(under, b, stack, c).Ok() && At(under, b, stack, c).Top() == b && b.Left() > 0
    ensures Step(font, At(under, b, stack, c)) ==
            Next(At(under, Advance(b, 1 + |bits|), [], c.(inHeader := false, stems := StemsWith(c, |stack|))), [])
  {
    hide Path, D.PenAt, Number, GetSubr;
    AtOk(under, b, stack, c);
    HasAt(b, [code] + bits, 0);
  }

  lemma CallStep(font: Font, under: seq<Buf>, b: Buf, c: Place, global: bool, k: nat)
    requires Runs(under, b) && |under| < CALL_MAX && Has(b, [if global then 29 else 10])
    requires k < |Index(font, global)| && Index(font, global)[k] != []
    ensures var stack := [Units(Biased(k, |Index(font, global)|) * ONE)];
            && At(under, b, stack, c).Ok() && At(under, b, stack, c).Top() == b && b.Left() > 0
            && Step(font, At(under, b, stack, c)) ==
               Next(At(under + [Advance(b, 1)], Buf(Index(font, global)[k], 0), [], c), [])
  {
    hide Path, D.PenAt, Number, Units;
    var code: Byte := if global then 29 else 10;
    var v := Biased(k, |Index(font, global)|);
    AtOk(under, b, [Units(v * ONE)], c);
    HasAt(b, [code], 0);
    Whole(v);
    assert Trunc(v as real) == v;
    assert [Units(v * ONE)][..0] == [];
  }

  lemma ReturnStep(font: Font, under: seq<Buf>, caller: Buf, b: Buf, c: Place)
    requires Runs(under, caller) && Runs(under + [caller], b) && Has(b, [11])
    ensures At(under + [caller], b, [], c).Ok() && At(under + [caller], b, [], c).Top() == b && b.Left() > 0
    ensures Step(font, At(under + [caller], b, [], c)) == Next(At(under, caller, [], c), [])
  {
    hide Path, D.PenAt, Number, GetSubr;
    AtOk(under + [caller], b, [], c);
    HasAt(b, [11], 0);
    assert (under + [caller] + [b])[..|under| + 1] == under + [caller];
  }

  /** Operands and an operator whose step on them is known. */
  lemma InstructionLeads(style: Style, font: Font, under: seq<Buf>, b: Buf, c: Place, operands: seq<int>, code: seq<Byte>,
                         c': Place, vs: seq<Vertex>, drawn: seq<Vertex>)
    requires Runs(under, b) && AllFit(operands) && code != [] && Has(b, PrintNumbers(style, operands) + code)
    requires var b1 := Advance(b, |PrintNumbers(style, operands)|);
             var st := At(under, b1, D.Reals(operands), c);
             st.Ok() && st.Top() == b1 && b1.Ok() && b1.Left() > 0 &&
             Step(font, st) == Next(At(under, Advance(b1, |code|), [], c'), vs)
    ensures Leads(font, under, b, Advance(b, |PrintNumbers(style, operands) + code|), c, c', drawn, vs)
  {
    hide Run, Step, At, Has, C.Whole, PrintNumbers, D.Reals;
    var b1 := Advance(b, |PrintNumbers(style, operands)|);
    var b2 := Advance(b1, |code|);
    HasSplit(b, PrintNumbers(style, operands), code);
    HasEnds(b1, code);
    assert Runs(under, b2);
    AtOk(under, b2, [], c');
    PushAll(style, font, under, b, [], c, operands, drawn);
    assert [] + D.Reals(operands) == D.Reals(operands);
    Takes(font, under, b1, D.Reals(operands), c, At(under, b2, [], c'), vs, drawn);
    assert b2 == Advance(b, |PrintNumbers(style, operands) + code|);
  }

  lemma MovePath(form: MoveForm, extra: seq<int>, c: Place, q: Point)
    requires CanMove(form, c.at, q)
    ensures var (c', vs) := Meaning(Move(form, extra, q), c);
            Path(MoveCode(form), D.Reals(extra + MoveOperands(form, c.at, q)), D.PenAt(c.at, c.first)) ==
            Some(Stroke(D.PenAt(c'.at, c'.first), vs))
  {
    var ops := extra + MoveOperands(form, c.at, q);
    var s, n := D.Reals(ops), |ops|;
    assert s[n - 1] == Units(ops[n - 1]);
    D.Between(c.at.x, q.x);
    D.Between(c.at.y, q.y);
  }

  lemma MoveLeads(style: Style, font: Font, form: MoveForm, extra: seq<int>, q: Point, c: Place,
                  under: seq<Buf>, b: Buf, drawn: seq<Vertex>)
    requires var it := Move(form, extra, q);
             Printable(style, font, it, c, |under|) && Runs(under, b) && Has(b, Print(style, font, it, c, |under|))
    ensures var it := Move(form, extra, q); var (c', vs) := Meaning(it, c);
            Leads(font, under, b, Advance(b, |Print(style, font, it, c, |under|)|), c, c', drawn, vs)
  {
    var it := Move(form, extra, q);
    var ops, code := extra + MoveOperands(form, c.at, q), [MoveCode(form)];
    var (c', vs) := Meaning(it, c);
    var b1 := Advance(b, |PrintNumbers(style, ops)|);
    HasSplit(b, PrintNumbers(style, ops), code);
    MovePath(form, extra, c, q);
    hide Path, Has, D.PenAt, D.Reals, Step, PrintNumbers, Meaning;
    HasEnds(b1, code);
    PathStep(font, under, b1, D.Reals(ops), c, MoveCode(form), Stroke(D.PenAt(c'.at, c'.first), vs));
    MoveContext(form, extra, q, c);
    InstructionLeads(style, font, under, b, c, ops, code, c', vs, drawn);
  }

  lemma MoveContext(form: MoveForm, extra: seq<int>, q: Point, c: Place)
    ensures var c' := Meaning(Move(form, extra, q), c).0; !c'.inHeader && c'.stems == c.stems && IsMoveOp(MoveCode(form))
  {
  }

  lemma DrawLeads(style: Style, font: Font, op: D.Operator, segs: seq<D.Segment>, c: Place, under: seq<Buf>,
                  b: Buf, drawn: seq<Vertex>)
    requires var it := Draw(op, segs);
             Printable(style, font, it, c, |under|) && Runs(under, b) && Has(b, Print(style, font, it, c, |under|))
    ensures var it := Draw(op, segs); var (c', vs) := Meaning(it, c);
            Leads(font, under, b, Advance(b, |Print(style, font, it, c, |under|)|), c, c', drawn, vs)
  {
    hide Path, Flex, Has, D.PenAt, D.Reals, Step, PrintNumbers, D.Operands, D.CanDraw, D.LastPoint, D.Vertices;
    var ops, code := D.Operands(op, c.at, segs), D.Opcode(op);
    var (c', vs) := Meaning(Draw(op, segs), c);
    var b1 := Advance(b, |PrintNumbers(style, ops)|);
    HasSplit(b, PrintNumbers(style, ops), code);
    D.OperatorDraws(op, c.at, c.first, segs);
    HasEnds(b1, code);
    var t := D.Drawn(c.at, c.first, segs);
    if op.FlexTo? {
      FlexStep(font, under, b1, D.Reals(ops), c, code[1], t);
    } else {
      assert code == [code[0]];
      PathStep(font, under, b1, D.Reals(ops), c, code[0], t);
    }
    InstructionLeads(style, font, under, b, c, ops, code, c', vs, drawn);
  }

  lemma HintLeads(style: Style, font: Font, it: Item, c: Place, under: seq<Buf>, b: Buf, drawn: seq<Vertex>)
    requires it.Stems? || it.Mask?
    requires Printable(style, font, it, c, |under|) && Runs(under, b) && Has(b, Print(style, font, it, c, |under|))
    ensures var (c', vs) := Meaning(it, c);
            Leads(font, under, b, Advance(b, |Print(style, font, it, c, |under|)|), c, c', drawn, vs)
  {
    hide Has, D.PenAt, D.Reals, Step, PrintNumbers;
    var ops, code := it.operands, if it.Stems? then [it.code] else [it.code] + it.bits;
    var b1 := Advance(b, |PrintNumbers(style, ops)|);
    HasSplit(b, PrintNumbers(style, ops), code);
    HasEnds(b1, code);
    if it.Stems? {
      StemsStep(font, under, b1, D.Reals(ops), c, it.code);
    } else {
      MaskStep(font, under, b1, D.Reals(ops), c, it.code, it.bits);
    }
    InstructionLeads(style, font, under, b, c, ops, code, Meaning(it, c).0, [], drawn);
  }

  lemma LeadsThrough(font: Font, under: seq<Buf>, b: Buf, b1: Buf, b2: Buf, c: Place, c1: Place, c2: Place,
                     drawn: seq<Vertex>, vs: seq<Vertex>, ws: seq<Vertex>)
    requires Leads(font, under, b, b1, c, c1, drawn, vs) && Leads(font, under, b1, b2, c1, c2, drawn + vs, ws)
    ensures Leads(font, under, b, b2, c, c2, drawn, vs + ws)
  {
    hide Run, At, C.Whole;
    assert drawn + vs + ws == drawn + (vs + ws);
  }

  /** Into a subroutine, through what it holds, and back behind the call. */
  lemma CallLeads(style: Style, font: Font, it: Item, c: Place, under: seq<Buf>, b: Buf, drawn: seq<Vertex>)
    requires it.Call?
    requires Printable(style, font, it, c, |under|) && Runs(under, b) && Has(b, Print(style, font, it, c, |under|))
    ensures var (c', vs) := Meaning(it, c);
            Leads(font, under, b, Advance(b, |Print(style, font, it, c, |under|)|), c, c', drawn, vs)
    decreases it, 2
  {
    hide Run, Step, At, Has, C.Whole, PrintNumber, Units, Fits;
    var index := Index(font, it.global);
    var d, code := Biased(it.k, |index|) * ONE, [if it.global then 29 else 10];
    var b1 := Advance(b, |PrintNumber(style, d)|);
    var b2 := Advance(b1, 1);
    HasSplit(b, PrintNumber(style, d), code);
    HasEnds(b1, code);
    PushOne(style, font, under, b, [], c, d, drawn);
    assert [] + [Units(d)] == [Units(d)];
    CallStep(font, under, b1, c, it.global, it.k);

    var (c', vs) := Meaning(it, c);
    var inner, sub := under + [b2], Buf(index[it.k], 0);
    var body := PrintAll(style, font, it.body, c, |inner|);
    assert Has(sub, body + [11]) by { HasAll(body + [11]); }
    HasSplit(sub, body, [11]);
    AtOk(inner, sub, [], c);
    Takes(font, under, b1, [Units(d)], c, At(inner, sub, [], c), [], drawn);
    assert drawn + [] == drawn;
    ItemsLead(style, font, it.body, c, inner, sub, drawn);
    var b3 := Advance(sub, |body|);
    ReturnStep(font, under, b2, b3, c');
    AtOk(under, b2, [], c');
    Takes(font, inner, b3, [], c', At(under, b2, [], c'), [], drawn + vs);
    assert drawn + vs + [] == drawn + vs;
  }

  lemma HasAll(code: seq<Byte>)
    ensures Has(Buf(code, 0), code)
  {
  }

  /** A list of items, printed anywhere in a program at any depth, leads where it means to and draws what it means. */
  lemma {:induction false} ItemsLead(style: Style, font: Font, items: Items, c: Place, under: seq<Buf>, b: Buf,
                                     drawn: seq<Vertex>)
    requires AllPrintable(style, font, items, c, |under|) && Runs(under, b)
    requires Has(b, PrintAll(style, font, items, c, |under|))
    ensures var (c', vs) := Meanings(items, c);
            Leads(font, under, b, Advance(b, |PrintAll(style, font, items, c, |under|)|), c, c', drawn, vs)
    decreases items, 3
  {
    match items
    case Done =>
      AtOk(under, b, [], c);
      assert drawn + [] == drawn;
    case Then(it, more) =>
      hide Run, At, Has, Leads, Print, Meaning;
      var (c1, vs) := Meaning(it, c);
      var (c2, ws) := Meanings(more, c1);
      var code, rest := Print(style, font, it, c, |under|), PrintAll(style, font, more, c1, |under|);
      var b1 := Advance(b, |code|);
      HasSplit(b, code, rest);
      HasEnds(b, code);
      ItemLeads(style, font, it, c, under, b, drawn);
      ItemsLead(style, font, more, c1, under, b1, drawn + vs);
      LeadsThrough(font, under, b, b1, Advance(b1, |rest|), c, c1, c2, drawn, vs, ws);
      assert Advance(b1, |rest|) == Advance(b, |code + rest|);
  }

  lemma ItemLeads(style: Style, font: Font, it: Item, c: Place, under: seq<Buf>, b: Buf, drawn: seq<Vertex>)
    requires Printable(style, font, it, c, |under|) && Runs(under, b) && Has(b, Print(style, font, it, c, |under|))
    ensures var (c', vs) := Meaning(it, c);
            Leads(font, under, b, Advance(b, |Print(style, font, it, c, |under|)|), c, c', drawn, vs)
    decreases it, 3
  {
    match it
    case Move(form, extra, q) => MoveLeads(style, font, form, extra, q, c, under, b, drawn);
    case Draw(op, segs) => DrawLeads(style, font, op, segs, c, under, b, drawn);
    case Call(_, _, _) => CallLeads(style, font, it, c, under, b, drawn);
    case _ => HintLeads(style, font, it, c, under, b, drawn);
  }

  lemma EndStep(font: Font, b: Buf, c: Place)
    requires Has(b, [14])
    ensures At([], b, [], c).Ok() && At([], b, [], c).Top() == b && b.Left() > 0
    ensures Step(font, At([], b, [], c)) == Finish(Closing(c))
  {
    hide Path, Number, GetSubr;
    AtOk([], b, [], c);
    HasAt(b, [14], 0);
  }

  /**
    The program written down for a list of moves, segments, hints and subroutines draws its picture: the numbers may
    be encoded in any form, the segments drawn by any operator that can, at any depth of calls.
   */
  lemma ProgramDraws(style: Style, font: Font, items: Items)
    requires AllPrintable(style, font, items, BEGIN, 0)
    ensures Run(font, Start(Program(style, font, items))) == Some(Picture(items))
  {
    hide Run, Step, Has, PrintAll, AllPrintable, Closing;
    var code := PrintAll(style, font, items, BEGIN, 0);
    var b := Buf(code + [14], 0);
    var (c, vs) := Meanings(items, BEGIN);
    HasAll(code + [14]);
    HasSplit(b, code, [14]);
    ItemsLead(style, font, items, BEGIN, [], b, []);
    EndStep(font, Advance(b, |code|), c);
    C.RunStep(font, At([], Advance(b, |code|), [], c), []);
    assert At([], b, [], BEGIN) == Start(Program(style, font, items));
    assert [] + vs == vs;
    var run := Run(font, Start(Program(style, font, items)));
    assert run.Some? && [] + run.value == run.value;
  }

  function JustMove(q: Point): Items { Then(Move(RMoveTo, [], q), Done) }

  lemma JustMoveCode(style: Style, font: Font, q: Point)
    requires AllFit([q.x, q.y])
    ensures AllPrintable(style, font, JustMove(q), BEGIN, 0)
    ensures Program(style, font, JustMove(q)) == PrintNumbers(style, [q.x, q.y]) + [21, 14]
  {
    hide PrintNumbers, AllFit, D.Operands, D.CanDraw;
    assert [] + MoveOperands(RMoveTo, BEGIN.at, q) == [q.x, q.y];
    var code := PrintNumbers(style, [q.x, q.y]);
    assert Print(style, font, JustMove(q).item, BEGIN, 0) == code + [21];
    assert PrintAll(style, font, JustMove(q), BEGIN, 0) == code + [21] + [];
    assert code + [21] + [] + [14] == code + [21, 14];
  }

  lemma OneAndZero(style: Style)
    requires forall d :: style(d) == OneByte
    ensures AllFit([ONE, 0]) && PrintNumbers(style, [ONE, 0]) == [140, 139]
  {
    Whole(0);
    Whole(1);
    assert PrintNumber(style, ONE) == [140] && PrintNumber(style, 0) == [139];
    hide PrintNumber;
    assert [ONE, 0][1..] == [0];
    assert PrintNumbers(style, [0]) == PrintNumber(style, 0) + PrintNumbers(style, []);
  }

  lemma JustMovePicture(q: Point)
    ensures Picture(JustMove(q)) == [Vertex(MOVE, D.Rounded(q.x), D.Rounded(q.y), 0, 0, 0, 0)]
  {
    hide D.Rounded;
    var move := [Vertex(MOVE, D.Rounded(q.x), D.Rounded(q.y), 0, 0, 0, 0)];
    assert Meaning(JustMove(q).item, BEGIN).1 == [] + move == move;
    assert Meanings(JustMove(q), BEGIN) == (Place(q, q, false, 0), move + []);
    assert move + [] + [] == move;
  }

  lemma RoundedWhole(v: int)
    ensures D.Rounded(v * ONE) == v
  {
    Whole(v);
  }

  /** `1 0 rmoveto endchar` moves one unit to the right. */
  lemma MoveOneRight(font: Font)
    ensures Run(font, Start([140, 139, 21, 14])) == Some([Vertex(MOVE, 1, 0, 0, 0, 0, 0)])
  {
    hide Run, Program, Picture, AllPrintable, PrintNumbers, D.Rounded, JustMove;
    var style: Style, q := d => OneByte, D.Point(ONE, 0);
    OneAndZero(style);
    JustMoveCode(style, font, q);
    ProgramDraws(style, font, JustMove(q));
    JustMovePicture(q);
    RoundedWhole(1);
    RoundedWhole(0);
    assert [140, 139] + [21, 14] == [140, 139, 21, 14];
  }
}
