/** Turning `if (c) return;` guards into one positive condition, as text.

    `NegText` and `CombineText` are the printers; `OrChain`, `AndPart` and `CombineTree` are
    the trees the parser builds from what they print, which differ from the source's own
    shape because nested `||` and `&&` are printed flat. */
module GuardInversion {
  import opened Optional
  import opened JsExpression
  import opened GuardText

  datatype Negated = Negated(text: seq<Tok>, prec: nat)

  const ATOM: nat := 3

  function SubText(e: Expr, rho: Substitution): seq<Tok> {
    Print(SubstExpr(e, rho))
  }

  function LogicalPrec(e: Expr): nat {
    match e
    case Paren(e1) => LogicalPrec(e1)
    case Or(_, _) => OR
    case And(_, _) => AND
    case _ => ATOM
  }

  function FlipOp(op: CmpOp): CmpOp {
    match op
    case StrictEq => StrictNe
    case StrictNe => StrictEq
    case LooseEq => LooseNe
    case LooseNe => LooseEq
    case Lt => Ge
    case Gt => Le
    case Le => Gt
    case Ge => Lt
  }

  function NegText(e: Expr, rho: Substitution): Negated {
    match e
    case Paren(e1) => NegText(e1, rho)
    case Not(e1) => Negated(SubText(e1, rho), LogicalPrec(e1))
    case Cmp(op, l, r) =>
      Negated(SubText(l, rho) + [TCmp(FlipOp(op))] + SubText(r, rho), ATOM)
    case And(l, r) => Negated(NegText(l, rho).text + [TOrOr] + NegText(r, rho).text, OR)
    case Or(l, r) =>
      Negated(Wrap(NegText(l, rho), AND) + [TAndAnd] + Wrap(NegText(r, rho), AND), AND)
    case _ => Negated([TBang, TOpen] + SubText(e, rho) + [TClose], ATOM)
  }

  function Wrap(part: Negated, minPrec: nat): seq<Tok> {
    if part.prec < minPrec then [TOpen] + part.text + [TClose] else part.text
  }

  function JoinParts(guards: seq<Expr>, rho: Substitution): seq<Tok>
    requires guards != []
  {
    var last := |guards| - 1;
    var part := Wrap(NegText(guards[last], rho), AND);
    if last == 0 then part else JoinParts(guards[..last], rho) + [TAndAnd] + part
  }

  function CombineText(guards: seq<Expr>, rho: Substitution): seq<Tok>
    requires guards != []
  {
    if |guards| == 1 then NegText(guards[0], rho).text else JoinParts(guards, rho)
  }

  // ---------------------------------------------------------------- the printers' loops

  method LogicalPrecOf(node: Expr) returns (prec: nat)
    ensures prec == LogicalPrec(node)
  {
    var n := node;
    while n.Paren?
      invariant LogicalPrec(n) == LogicalPrec(node)
      decreases n
    {
      n := n.e;
    }
    prec := if n.Or? then OR else if n.And? then AND else ATOM;
  }

  method Negate(expr: Expr, rho: Substitution) returns (r: Negated)
    ensures r == NegText(expr, rho)
    decreases expr
  {
    var e := expr;
    while e.Paren?
      invariant NegText(e, rho) == NegText(expr, rho)
      invariant e == expr || e < expr
      decreases e
    {
      e := e.e;
    }
    match e
    case Not(operand) =>
      var prec := LogicalPrecOf(operand);
      r := Negated(SubText(operand, rho), prec);
    case Cmp(op, left, right) =>
      r := Negated(SubText(left, rho) + [TCmp(FlipOp(op))] + SubText(right, rho), ATOM);
    case And(left, right) =>
      var l := Negate(left, rho);
      var r0 := Negate(right, rho);
      r := Negated(l.text + [TOrOr] + r0.text, OR);
    case Or(left, right) =>
      var l := Negate(left, rho);
      var r0 := Negate(right, rho);
      r := Negated(Wrap(l, AND) + [TAndAnd] + Wrap(r0, AND), AND);
    case _ =>
      r := Negated([TBang, TOpen] + SubText(e, rho) + [TClose], ATOM);
  }

  // ---------------------------------------------------------------- the trees read back

  function Join(p: nat, acc: Option<Expr>, e: Expr): Expr {
    match acc
    case None => e
    case Some(a) => if p == OR then Or(a, e) else And(a, e)
  }

  function Core(e: Expr): Expr {
    if e.Paren? then Core(e.e) else e
  }

  /** The negation of an expression that is not a logical one. */
  function NegOperand(e: Expr, rho: Substitution): Expr {
    match e
    case Not(e1) => SubstExpr(e1, rho)
    case Cmp(op, l, r) => Cmp(FlipOp(op), SubstExpr(l, rho), SubstExpr(r, rho))
    case _ => Not(Paren(SubstExpr(e, rho)))
  }

  /** The tree of `acc || negated e`, the text of the negation being spliced in flat. */
  function OrChain(acc: Option<Expr>, e: Expr, rho: Substitution): Expr
    decreases e, 1
  {
    match e
    case Paren(e1) => OrChain(acc, e1, rho)
    case And(l, r) => OrChain(Some(OrChain(acc, l, rho)), r, rho)
    case _ => Join(OR, acc, AndChain(None, e, rho))
  }

  function AndChain(acc: Option<Expr>, e: Expr, rho: Substitution): Expr
    requires !Core(e).And?
    decreases e, 0
  {
    match e
    case Paren(e1) => AndChain(acc, e1, rho)
    case Or(l, r) => AndPart(Some(AndPart(acc, l, rho)), r, rho)
    case _ => Join(AND, acc, NegOperand(e, rho))
  }

  function AndPart(acc: Option<Expr>, e: Expr, rho: Substitution): Expr
    decreases e, 2
  {
    if NegText(e, rho).prec < AND then Join(AND, acc, Paren(OrChain(None, e, rho)))
    else CorePrec(e, rho); AndChain(acc, e, rho)
  }

  lemma {:induction false} CorePrec(e: Expr, rho: Substitution)
    requires NegText(e, rho).prec >= AND
    ensures !Core(e).And?
  {
    if e.Paren? { CorePrec(e.e, rho); }
  }

  function CombineParts(guards: seq<Expr>, rho: Substitution): Expr
    requires guards != []
  {
    var last := |guards| - 1;
    AndPart(if last == 0 then None else Some(CombineParts(guards[..last], rho)), guards[last], rho)
  }

  function CombineTree(guards: seq<Expr>, rho: Substitution): Expr
    requires guards != []
  {
    if |guards| == 1 then OrChain(None, guards[0], rho) else CombineParts(guards, rho)
  }

  // ---------------------------------------------------------------- text to tree

  function Prefix(p: nat, acc: Option<Expr>): seq<Tok> {
    match acc
    case None => []
    case Some(a) => Print(a) + [if p == OR then TOrOr else TAndAnd]
  }

  predicate GoodAcc(p: nat, acc: Option<Expr>) {
    acc.Some? ==> Parsed(acc.value) && Level(acc.value) >= p
  }

  lemma {:induction e} SubstParsed(e: Expr, rho: Substitution)
    requires Parsed(e)
    ensures Parsed(SubstExpr(e, rho)) && Level(SubstExpr(e, rho)) == Level(e)
  {
  }

  lemma {:induction false} OperandText(e: Expr, rho: Substitution)
    requires Parsed(e) && !e.Paren? && !e.And? && !e.Or?
    ensures Parsed(NegOperand(e, rho)) && Level(NegOperand(e, rho)) > AND
    ensures Print(NegOperand(e, rho)) == NegText(e, rho).text
  {
    match e
    case Not(e1) => SubstParsed(e1, rho);
    case Cmp(_, l, r) => SubstParsed(l, rho); SubstParsed(r, rho);
    case _ => SubstParsed(e, rho);
  }

  lemma {:induction false} JoinText(p: nat, acc: Option<Expr>, e: Expr)
    requires p == OR || p == AND
    requires GoodAcc(p, acc) && Parsed(e) && Level(e) > p
    ensures Parsed(Join(p, acc, e)) && Level(Join(p, acc, e)) >= p
    ensures Print(Join(p, acc, e)) == Prefix(p, acc) + Print(e)
  {
  }

  lemma {:induction false} ParsedParts(e: Expr)
    requires Parsed(e)
    ensures e.Paren? ==> Parsed(e.e)
    ensures e.And? || e.Or? ==> Parsed(e.l) && Parsed(e.r)
  {
  }

  lemma {:induction false} NegTextParts(e: Expr, rho: Substitution)
    ensures e.Paren? ==> NegText(e, rho) == NegText(e.e, rho)
    ensures e.And? ==> NegText(e, rho) == Negated(NegText(e.l, rho).text + [TOrOr] + NegText(e.r, rho).text, OR)
    ensures e.Or? ==> (
      NegText(e, rho) == Negated(Wrap(NegText(e.l, rho), AND) + [TAndAnd] + Wrap(NegText(e.r, rho), AND), AND))
  {
  }

  lemma {:induction false} OrChainText(acc: Option<Expr>, e: Expr, rho: Substitution)
    requires Parsed(e) && GoodAcc(OR, acc)
    ensures var x := OrChain(acc, e, rho);
      Parsed(x) && Level(x) >= OR && Print(x) == Prefix(OR, acc) + NegText(e, rho).text
    decreases e, 1
  {
    hide Parsed, Print, NegText, Level;
    ParsedParts(e);
    NegTextParts(e, rho);
    match e
    case Paren(e1) => OrChainText(acc, e1, rho);
    case And(l, r) =>
      var x := OrChain(acc, l, rho);
      OrChainText(acc, l, rho);
      OrChainText(Some(x), r, rho);
      assert Prefix(OR, acc) + (NegText(l, rho).text + [TOrOr] + NegText(r, rho).text)
        == (Prefix(OR, acc) + NegText(l, rho).text + [TOrOr]) + NegText(r, rho).text;
    case _ =>
      AndChainText(None, e, rho);
      ChainAlone(e, rho);
      JoinText(OR, acc, AndChain(None, e, rho));
  }

  lemma {:induction false} ChainAlone(e: Expr, rho: Substitution)
    requires !e.Paren? && !e.And?
    requires Print(AndChain(None, e, rho)) == Prefix(AND, None) + NegText(e, rho).text
    ensures Print(AndChain(None, e, rho)) == NegText(e, rho).text
  {
    assert [] + NegText(e, rho).text == NegText(e, rho).text;
  }

  lemma {:induction false} AndChainText(acc: Option<Expr>, e: Expr, rho: Substitution)
    requires Parsed(e) && GoodAcc(AND, acc) && !Core(e).And?
    ensures Parsed(AndChain(acc, e, rho)) && Level(AndChain(acc, e, rho)) >= AND
    ensures Print(AndChain(acc, e, rho)) == Prefix(AND, acc) + NegText(e, rho).text
    ensures acc == None && !e.Paren? ==> Level(AndChain(acc, e, rho)) > OR
    decreases e, 0
  {
    hide Parsed, Print, NegText, Level, AndPart;
    ParsedParts(e);
    NegTextParts(e, rho);
    match e
    case Paren(e1) => AndChainText(acc, e1, rho);
    case Or(l, r) =>
      var x := AndPart(acc, l, rho);
      AndPartText(acc, l, rho);
      AndPartText(Some(x), r, rho);
      var a, b := Wrap(NegText(l, rho), AND), Wrap(NegText(r, rho), AND);
      assert Prefix(AND, acc) + (a + [TAndAnd] + b) == (Prefix(AND, acc) + a + [TAndAnd]) + b;
    case _ =>
      OperandText(e, rho);
      JoinText(AND, acc, NegOperand(e, rho));
  }

  lemma {:induction false} AndPartText(acc: Option<Expr>, e: Expr, rho: Substitution)
    requires Parsed(e) && GoodAcc(AND, acc)
    ensures Parsed(AndPart(acc, e, rho)) && Level(AndPart(acc, e, rho)) >= AND
    ensures Print(AndPart(acc, e, rho)) == Prefix(AND, acc) + Wrap(NegText(e, rho), AND)
    decreases e, 2
  {
    hide Parsed, Print, NegText, Level, OrChain, AndChain;
    if NegText(e, rho).prec < AND {
      OrChainText(None, e, rho);
      WrappedChain(e, rho);
      JoinText(AND, acc, Paren(OrChain(None, e, rho)));
    } else {
      CorePrec(e, rho);
      AndChainText(acc, e, rho);
    }
  }

  lemma {:induction false} WrappedChain(e: Expr, rho: Substitution)
    requires NegText(e, rho).prec < AND
    requires Parsed(OrChain(None, e, rho))
    requires Print(OrChain(None, e, rho)) == Prefix(OR, None) + NegText(e, rho).text
    ensures var p := Paren(OrChain(None, e, rho));
      Parsed(p) && Level(p) > AND && Print(p) == Wrap(NegText(e, rho), AND)
  {
    hide OrChain, NegText;
    assert [] + NegText(e, rho).text == NegText(e, rho).text;
  }

  lemma {:induction false} CombinePartsText(guards: seq<Expr>, rho: Substitution)
    requires guards != [] && forall g <- guards :: Parsed(g)
    ensures Parsed(CombineParts(guards, rho)) && Level(CombineParts(guards, rho)) >= AND
    ensures Print(CombineParts(guards, rho)) == JoinParts(guards, rho)
  {
    var last := |guards| - 1;
    if last > 0 {
      CombinePartsText(guards[..last], rho);
      AndPartText(Some(CombineParts(guards[..last], rho)), guards[last], rho);
    } else {
      AndPartText(None, guards[last], rho);
    }
  }

  /** The combined condition, as printed, is a well-formed condition. */
  lemma {:induction false} CombineReadsBack(guards: seq<Expr>, rho: Substitution)
    requires guards != [] && forall g <- guards :: Parsed(g)
    ensures ParseCondition(CombineText(guards, rho)) == Some(CombineTree(guards, rho))
  {
    if |guards| == 1 {
      OrChainText(None, guards[0], rho);
      assert Prefix(OR, None) + NegText(guards[0], rho).text == NegText(guards[0], rho).text;
    } else {
      CombinePartsText(guards, rho);
    }
    ConditionRoundTrip(CombineTree(guards, rho));
  }

  // ---------------------------------------------------------------- tree to meaning

  /** Running a printed negation by the shape of the expression it came from. */
  function NegTest(m: Machine, e: Expr, rho: Substitution, s: State): (Verdict, State) {
    match e
    case Paren(e1) => NegTest(m, e1, rho, s)
    case And(l, r) =>
      var (v, s1) := NegTest(m, l, rho, s);
      if v == No then NegTest(m, r, rho, s1) else (v, s1)
    case Or(l, r) =>
      var (v, s1) := NegTest(m, l, rho, s);
      if v == Yes then NegTest(m, r, rho, s1) else (v, s1)
    case _ => Test(m, NegOperand(e, rho), s)
  }

  /** A chain decided up to its next operand, which runs only on the verdict `go`. */
  function Extend(m: Machine, go: Verdict, acc: Option<Expr>, e: Expr, rho: Substitution, s: State)
    : (Verdict, State)
  {
    match acc
    case None => NegTest(m, e, rho, s)
    case Some(a) =>
      var (v, s1) := Test(m, a, s);
      if v == go then NegTest(m, e, rho, s1) else (v, s1)
  }

  lemma {:induction false} JoinRuns(
    m: Machine, p: nat, acc: Option<Expr>, x: Expr, e: Expr, rho: Substitution, s: State)
    requires p == OR || p == AND
    requires forall s1 :: Test(m, x, s1) == NegTest(m, e, rho, s1)
    ensures Test(m, Join(p, acc, x), s) == Extend(m, if p == OR then No else Yes, acc, e, rho, s)
  {
    assert Test(m, x, s) == NegTest(m, e, rho, s);
    if acc.Some? {
      var (v, s1) := Test(m, acc.value, s);
      assert Test(m, x, s1) == NegTest(m, e, rho, s1);
    }
  }

  /** The trees the parser builds run like the negations they were printed from, although
      flat text reassociates nested operators. */
  lemma {:induction false} OrChainRuns(m: Machine, acc: Option<Expr>, e: Expr, rho: Substitution, s: State)
    ensures Test(m, OrChain(acc, e, rho), s) == Extend(m, No, acc, e, rho, s)
    decreases e, 1
  {
    if e.Paren? {
      OrChainRuns(m, acc, e.e, rho, s);
    } else if e.And? {
      OrChainRuns(m, acc, e.l, rho, s);
      OrChainRuns(m, Some(OrChain(acc, e.l, rho)), e.r, rho, s);
    } else {
      var x := AndChain(None, e, rho);
      forall s1 ensures Test(m, x, s1) == NegTest(m, e, rho, s1) {
        AndChainRuns(m, None, e, rho, s1);
      }
      JoinRuns(m, OR, acc, x, e, rho, s);
    }
  }

  lemma {:induction false} AndChainRuns(m: Machine, acc: Option<Expr>, e: Expr, rho: Substitution, s: State)
    requires !Core(e).And?
    ensures Test(m, AndChain(acc, e, rho), s) == Extend(m, Yes, acc, e, rho, s)
    decreases e, 0
  {
    if e.Paren? {
      AndChainRuns(m, acc, e.e, rho, s);
    } else if e.Or? {
      AndPartRuns(m, acc, e.l, rho, s);
      AndPartRuns(m, Some(AndPart(acc, e.l, rho)), e.r, rho, s);
    } else {
      JoinRuns(m, AND, acc, NegOperand(e, rho), e, rho, s);
    }
  }

  lemma {:induction false} AndPartRuns(m: Machine, acc: Option<Expr>, e: Expr, rho: Substitution, s: State)
    ensures Test(m, AndPart(acc, e, rho), s) == Extend(m, Yes, acc, e, rho, s)
    decreases e, 2
  {
    if NegText(e, rho).prec < AND {
      var x := Paren(OrChain(None, e, rho));
      forall s1 ensures Test(m, x, s1) == NegTest(m, e, rho, s1) {
        OrChainRuns(m, None, e, rho, s1);
      }
      JoinRuns(m, AND, acc, x, e, rho, s);
    } else {
      CorePrec(e, rho);
      AndChainRuns(m, acc, e, rho, s);
    }
  }

  /** No comparison that inversion flips comes out undefined when `e` runs from `s`. */
  predicate Clean(m: Machine, e: Expr, s: State) {
    match e
    case Paren(e1) => Clean(m, e1, s)
    case Cmp(op, l, r) =>
      var (x, s1) := Eval(m, l, s);
      var (y, _) := Eval(m, r, s1);
      x.Ok? && y.Ok? ==> ComparisonDefined(m, op, x.v, y.v)
    case And(l, r) =>
      var (v, s1) := Test(m, l, s);
      Clean(m, l, s) && (v == Yes ==> Clean(m, r, s1))
    case Or(l, r) =>
      var (v, s1) := Test(m, l, s);
      Clean(m, l, s) && (v == No ==> Clean(m, r, s1))
    case _ => true
  }

  /** A flipped comparator is the complement of the original exactly when the comparison
      has a defined result. */
  lemma {:induction false} FlippedComparator(m: Machine, op: CmpOp, x: Value, y: Value)
    ensures Compare(m, FlipOp(op), x, y) == !Compare(m, op, x, y) <==> ComparisonDefined(m, op, x, y)
  {
  }

  lemma {:induction false} NegTestFlips(m: Machine, e: Expr, rho: Substitution, s: State)
    requires Clean(m, SubstExpr(e, rho), s)
    ensures NegTest(m, e, rho, s) == Flip(Test(m, SubstExpr(e, rho), s))
  {
    match e
    case Paren(e1) => NegTestFlips(m, e1, rho, s);
    case And(l, r) =>
      NegTestFlips(m, l, rho, s);
      var (v, s1) := Test(m, SubstExpr(l, rho), s);
      if v == Yes { NegTestFlips(m, r, rho, s1); }
    case Or(l, r) =>
      NegTestFlips(m, l, rho, s);
      var (v, s1) := Test(m, SubstExpr(l, rho), s);
      if v == No { NegTestFlips(m, r, rho, s1); }
    case Cmp(op, l, r) =>
      var (x, s1) := Eval(m, SubstExpr(l, rho), s);
      var (y, _) := Eval(m, SubstExpr(r, rho), s1);
      FlippedComparator(m, op, x.v, y.v);
    case Not(e1) =>
    case Leaf(_) => NotParen(m, SubstExpr(e, rho), s);
    case Cond(_, _, _) => NotParen(m, SubstExpr(e, rho), s);
  }

  lemma {:induction false} NotParen(m: Machine, e: Expr, s: State)
    ensures Test(m, Not(Paren(e)), s) == Flip(Test(m, e, s))
  {
    assert Eval(m, Paren(e), s) == Eval(m, e, s);
  }

  /** Guard inversion through text: what `negate` prints is read back as a condition that
      evaluates the same leaves in the same order, has the same effects, throws when the
      original throws, and is otherwise true exactly when the original is false. */
  lemma {:induction false} GuardInverts(m: Machine, e: Expr, rho: Substitution, s: State)
    requires Parsed(e) && Clean(m, SubstExpr(e, rho), s)
    ensures ParseCondition(NegText(e, rho).text) == Some(OrChain(None, e, rho))
    ensures Test(m, OrChain(None, e, rho), s) == Flip(Test(m, SubstExpr(e, rho), s))
  {
    CombineReadsBack([e], rho);
    OrChainRuns(m, None, e, rho, s);
    NegTestFlips(m, e, rho, s);
  }

  // ---------------------------------------------------------------- runs of guards

  /** `if (g0) return; if (g1) return; ...`: `Yes` when the tail is reached. */
  function RunGuards(m: Machine, guards: seq<Expr>, rho: Substitution, s: State): (Verdict, State) {
    if guards == [] then (Yes, s) else
    var last := |guards| - 1;
    var (v, s1) := RunGuards(m, guards[..last], rho, s);
    if v == Yes then Flip(Test(m, SubstExpr(guards[last], rho), s1)) else (v, s1)
  }

  /** Every guard that is reached is clean where it is reached. */
  predicate CleanGuards(m: Machine, guards: seq<Expr>, rho: Substitution, s: State) {
    guards != [] ==>
      var last := |guards| - 1;
      var (v, s1) := RunGuards(m, guards[..last], rho, s);
      CleanGuards(m, guards[..last], rho, s)
      && (v == Yes ==> Clean(m, SubstExpr(guards[last], rho), s1))
  }

  lemma {:induction false} CombinePartsMeaning(m: Machine, guards: seq<Expr>, rho: Substitution, s: State)
    requires guards != [] && CleanGuards(m, guards, rho, s)
    ensures Test(m, CombineParts(guards, rho), s) == RunGuards(m, guards, rho, s)
  {
    var last := |guards| - 1;
    var (v, s1) := RunGuards(m, guards[..last], rho, s);
    if v == Yes {
      NegTestFlips(m, guards[last], rho, s1);
    }
    if last > 0 {
      CombinePartsMeaning(m, guards[..last], rho, s);
      AndPartRuns(m, Some(CombineParts(guards[..last], rho)), guards[last], rho, s);
    } else {
      AndPartRuns(m, None, guards[last], rho, s);
    }
  }

  /** Sequential guards with early return and the one combined condition agree: same guards
      in the same order with the same effects, the tail running exactly when none is truthy. */
  lemma {:induction false} CombinedGuards(m: Machine, guards: seq<Expr>, rho: Substitution, s: State)
    requires guards != [] && (forall g <- guards :: Parsed(g)) && CleanGuards(m, guards, rho, s)
    ensures ParseCondition(CombineText(guards, rho)) == Some(CombineTree(guards, rho))
    ensures Test(m, CombineTree(guards, rho), s) == RunGuards(m, guards, rho, s)
  {
    CombineReadsBack(guards, rho);
    if |guards| == 1 {
      assert guards[..0] == [];
      OrChainRuns(m, None, guards[0], rho, s);
      NegTestFlips(m, guards[0], rho, s);
    } else {
      CombinePartsMeaning(m, guards, rho, s);
    }
  }
}
