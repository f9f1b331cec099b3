/** Printing conditions as tokens, and the precedence grammar that reads them back
    (ECMA-262, 2022, sections 13.5, 13.10, 13.11, 13.13 and 13.14). */
module GuardText {
  import opened Optional
  import opened JsExpression

  /** An atom is one token: inversion never looks inside it. */
  datatype Tok =
    | TAtom(atom: Atom) | TOpen | TClose | TBang | TCmp(op: CmpOp)
    | TAndAnd | TOrOr | TQuestion | TColon

  function Print(e: Expr): (ts: seq<Tok>)
    ensures ts != []
  {
    match e
    case Leaf(a) => [TAtom(a)]
    case Paren(e1) => [TOpen] + Print(e1) + [TClose]
    case Not(e1) => [TBang] + Print(e1)
    case Cmp(op, l, r) => Print(l) + [TCmp(op)] + Print(r)
    case And(l, r) => Print(l) + [TAndAnd] + Print(r)
    case Or(l, r) => Print(l) + [TOrOr] + Print(r)
    case Cond(c, t, f) => Print(c) + [TQuestion] + Print(t) + [TColon] + Print(f)
  }

  // Grammar levels, loosest first.
  const COND: nat := 0
  const OR: nat := 1
  const AND: nat := 2
  const EQUALITY: nat := 3
  const RELATION: nat := 4
  const UNARY: nat := 5
  const PRIMARY: nat := 6

  function CmpLevel(op: CmpOp): nat {
    if Relational(op) then RELATION else EQUALITY
  }

  function Level(e: Expr): nat {
    match e
    case Cond(_, _, _) => COND
    case Or(_, _) => OR
    case And(_, _) => AND
    case Cmp(op, _, _) => CmpLevel(op)
    case Not(_) => UNARY
    case _ => PRIMARY
  }

  /** The trees a parse can produce: each operand sits at a level its operator accepts. */
  predicate Parsed(e: Expr) {
    match e
    case Leaf(_) => true
    case Paren(e1) => Parsed(e1)
    case Not(e1) => Parsed(e1) && Level(e1) >= UNARY
    case Cmp(op, l, r) =>
      Parsed(l) && Parsed(r) && Level(l) >= CmpLevel(op) && Level(r) > CmpLevel(op)
    case And(l, r) => Parsed(l) && Parsed(r) && Level(l) >= AND && Level(r) > AND
    case Or(l, r) => Parsed(l) && Parsed(r) && Level(l) >= OR && Level(r) > OR
    case Cond(c, t, f) => Parsed(c) && Parsed(t) && Parsed(f) && Level(c) > COND
  }

  // ---------------------------------------------------------------- the parser

  /** The level of the binary operator a token is, or 0 for any other token. */
  function OpLevel(t: Tok): nat {
    match t
    case TOrOr => OR
    case TAndAnd => AND
    case TCmp(op) => CmpLevel(op)
    case _ => 0
  }

  function Binary(t: Tok, l: Expr, r: Expr): Expr
    requires OpLevel(t) != 0
  {
    match t
    case TOrOr => Or(l, r)
    case TAndAnd => And(l, r)
    case TCmp(op) => Cmp(op, l, r)
  }

  /** Recursive descent: the expression at level `p` that starts `ts`, and the tokens after it. */
  function Parse(p: nat, ts: seq<Tok>): (r: Option<(Expr, seq<Tok>)>)
    requires p <= PRIMARY
    ensures r.Some? ==> |r.value.1| < |ts|
    decreases |ts|, 10 - p
  {
    if ts == [] then None
    else if p == COND then
      match Parse(OR, ts) {
        case None => None
        case Some((c, rest)) =>
          if rest == [] || rest[0] != TQuestion then Some((c, rest)) else
          match Parse(COND, rest[1..]) {
            case None => None
            case Some((t, rest1)) =>
              if rest1 == [] || rest1[0] != TColon then None else
              match Parse(COND, rest1[1..]) {
                case None => None
                case Some((f, rest2)) => Some((Cond(c, t, f), rest2))
              }
          }
      }
    else if p < UNARY then
      match Parse(p + 1, ts) {
        case None => None
        case Some((l, rest)) => Tail(p, l, rest)
      }
    else if p == UNARY then
      if ts[0] == TBang then
        match Parse(UNARY, ts[1..]) {
          case None => None
          case Some((e, rest)) => Some((Not(e), rest))
        }
      else Parse(PRIMARY, ts)
    else
      match ts[0] {
        case TAtom(a) => Some((Leaf(a), ts[1..]))
        case TOpen =>
          (match Parse(COND, ts[1..]) {
            case None => None
            case Some((e, rest)) =>
              if rest == [] || rest[0] != TClose then None else Some((Paren(e), rest[1..]))
          })
        case _ => None
      }
  }

  /** The left-associative loop at one binary level. */
  function Tail(p: nat, acc: Expr, ts: seq<Tok>): (r: Option<(Expr, seq<Tok>)>)
    requires COND < p < UNARY
    ensures r.Some? ==> |r.value.1| <= |ts|
    decreases |ts|, 0
  {
    if ts == [] || OpLevel(ts[0]) != p then Some((acc, ts)) else
    match Parse(p + 1, ts[1..]) {
      case None => None
      case Some((r, rest)) => Tail(p, Binary(ts[0], acc, r), rest)
    }
  }

  /** A whole condition: the parser must consume every token. */
  function ParseCondition(ts: seq<Tok>): Option<Expr> {
    match Parse(COND, ts)
    case Some((e, rest)) => if rest == [] then Some(e) else None
    case None => None
  }

  // ---------------------------------------------------------------- printing then parsing

  function HeadLevel(ts: seq<Tok>): nat {
    if ts == [] then 0 else OpLevel(ts[0])
  }

  /** No token of `rest` extends an expression at level `p`. */
  predicate Stops(p: nat, rest: seq<Tok>) {
    (p < UNARY ==> HeadLevel(rest) < (if p == COND then OR else p))
    && (p == COND ==> rest == [] || rest[0] != TQuestion)
  }

  /** The printed text of a parsed expression is read back exactly, at every level that
      admits it and before any continuation that does not extend it. */
  lemma {:induction false} ParsePrint(e: Expr, p: nat, rest: seq<Tok>)
    requires Parsed(e) && p <= PRIMARY && Level(e) >= p && Stops(p, rest)
    ensures Parse(p, Print(e) + rest) == Some((e, rest))
    decreases e, 21 - 2 * p
  {
    if p == COND {
      if e.Cond? {
        ParseConditional(e, rest);
      } else {
        ParsePrint(e, OR, rest);
      }
    } else if p < UNARY {
      ParseTail(e, p, rest);
    } else {
      ParseOperand(e, p, rest);
    }
  }

  lemma {:induction false} ParseConditional(e: Expr, rest: seq<Tok>)
    requires Parsed(e) && e.Cond? && Stops(COND, rest)
    ensures Parse(COND, Print(e) + rest) == Some((e, rest))
    decreases e, 0
  {
    hide Parse;
    var c, t, f := e.c, e.t, e.f;
    var r2 := [TColon] + (Print(f) + rest);
    var r1 := [TQuestion] + (Print(t) + r2);
    assert Print(e) + rest == Print(c) + r1;
    hide Print;
    ParsePrint(c, OR, r1);
    assert r1[1..] == Print(t) + r2;
    ParsePrint(t, COND, r2);
    assert r2[1..] == Print(f) + rest;
    ParsePrint(f, COND, rest);
    ConditionalStep(Print(c) + r1, c, r1, t, r2, f, rest);
  }

  /** How the parser puts a conditional together. */
  lemma {:induction false} ConditionalStep(
    ts: seq<Tok>, c: Expr, r1: seq<Tok>, t: Expr, r2: seq<Tok>, f: Expr, rest: seq<Tok>)
    requires ts != [] && Parse(OR, ts) == Some((c, r1)) && r1 != [] && r1[0] == TQuestion
    requires Parse(COND, r1[1..]) == Some((t, r2)) && r2 != [] && r2[0] == TColon
    requires Parse(COND, r2[1..]) == Some((f, rest))
    ensures Parse(COND, ts) == Some((Cond(c, t, f), rest))
  {
    hide Tail;
  }

  /** ... and a binary operand, and one turn of the binary loop. */
  lemma {:induction false} BinaryStep(p: nat, ts: seq<Tok>, l: Expr, rest: seq<Tok>)
    requires COND < p < UNARY && ts != [] && Parse(p + 1, ts) == Some((l, rest))
    ensures Parse(p, ts) == Tail(p, l, rest)
  {
    hide Tail;
  }

  lemma {:induction false} TailStep(p: nat, acc: Expr, ts: seq<Tok>, r: Expr, rest: seq<Tok>)
    requires COND < p < UNARY && ts != [] && OpLevel(ts[0]) == p && Parse(p + 1, ts[1..]) == Some((r, rest))
    ensures Tail(p, acc, ts) == Tail(p, Binary(ts[0], acc, r), rest)
  {
    hide Parse;
  }

  lemma {:induction false} ParseOperand(e: Expr, p: nat, rest: seq<Tok>)
    requires Parsed(e) && UNARY <= p <= PRIMARY && Level(e) >= p
    ensures Parse(p, Print(e) + rest) == Some((e, rest))
    decreases e, 1
  {
    var ts := Print(e) + rest;
    match e
    case Not(e1) =>
      assert ts[1..] == Print(e1) + rest;
      ParseOperand(e1, UNARY, rest);
    case Paren(e1) =>
      var r1 := [TClose] + rest;
      assert ts[1..] == Print(e1) + r1;
      ParsePrint(e1, COND, r1);
      assert r1[1..] == rest;
      assert Parse(PRIMARY, ts) == Some((e, rest));
    case Leaf(a) =>
      assert ts[1..] == rest;
      assert Parse(PRIMARY, ts) == Some((e, rest));
  }

  /** At a binary level the text leaves the parser inside its loop, holding exactly `e`. */
  lemma {:induction false} ParseTail(e: Expr, p: nat, rest: seq<Tok>)
    requires Parsed(e) && COND < p < UNARY && Level(e) >= p && HeadLevel(rest) <= p
    ensures Parse(p, Print(e) + rest) == Tail(p, e, rest)
    decreases e, 20 - 2 * p
  {
    hide Parse, Tail;
    if Level(e) > p {
      ParsePrint(e, p + 1, rest);
      BinaryStep(p, Print(e) + rest, e, rest);
    } else {
      var op := if e.Or? then TOrOr else if e.And? then TAndAnd else TCmp(e.op);
      var r1 := [op] + (Print(e.r) + rest);
      assert Print(e) + rest == Print(e.l) + r1;
      assert Parsed(e.l) && Parsed(e.r) && Level(e.l) >= p && Level(e.r) > p;
      hide Print, Parsed;
      ParseTail(e.l, p, r1);
      assert r1[1..] == Print(e.r) + rest;
      ParsePrint(e.r, p + 1, rest);
      TailStep(p, e.l, r1, e.r, rest);
    }
  }

  lemma {:induction false} ConditionRoundTrip(e: Expr)
    requires Parsed(e)
    ensures ParseCondition(Print(e)) == Some(e)
  {
    ParsePrint(e, COND, []);
    assert Print(e) + [] == Print(e);
  }

  /** How operators bind, tightest first: not, relations, equalities, and, or. */
  lemma {:induction false} Precedences(a: Expr, b: Expr, c: Expr, rel: CmpOp, eq: CmpOp)
    requires a.Leaf? && b.Leaf? && c.Leaf? && Relational(rel) && !Relational(eq)
    ensures ParseCondition([TBang] + Print(a) + [TCmp(rel)] + Print(b)) == Some(Cmp(rel, Not(a), b))
    ensures ParseCondition(Print(a) + [TCmp(eq)] + (Print(b) + [TCmp(rel)] + Print(c)))
      == Some(Cmp(eq, a, Cmp(rel, b, c)))
    ensures ParseCondition(Print(a) + [TCmp(rel)] + Print(b) + [TCmp(eq)] + Print(c))
      == Some(Cmp(eq, Cmp(rel, a, b), c))
    ensures ParseCondition(Print(a) + [TAndAnd] + (Print(b) + [TCmp(eq)] + Print(c))) == Some(And(a, Cmp(eq, b, c)))
    ensures ParseCondition(Print(a) + [TOrOr] + (Print(b) + [TAndAnd] + Print(c))) == Some(Or(a, And(b, c)))
    ensures ParseCondition(Print(a) + [TAndAnd] + Print(b) + [TOrOr] + Print(c)) == Some(Or(And(a, b), c))
  {
    hide ParseCondition;
    ConditionRoundTrip(Cmp(rel, Not(a), b));
    ConditionRoundTrip(Cmp(eq, a, Cmp(rel, b, c)));
    ConditionRoundTrip(Cmp(eq, Cmp(rel, a, b), c));
    ConditionRoundTrip(And(a, Cmp(eq, b, c)));
    ConditionRoundTrip(Or(a, And(b, c)));
    ConditionRoundTrip(Or(And(a, b), c));
  }

  /** Equal ones group to the left, and a conditional takes what it can. */
  lemma {:induction false} Grouping(a: Expr, b: Expr, c: Expr)
    requires a.Leaf? && b.Leaf? && c.Leaf?
    ensures ParseCondition(Print(a) + [TAndAnd] + Print(b) + [TAndAnd] + Print(c)) == Some(And(And(a, b), c))
    ensures ParseCondition(Print(a) + [TOrOr] + Print(b) + [TOrOr] + Print(c)) == Some(Or(Or(a, b), c))
    ensures ParseCondition((Print(a) + [TOrOr] + Print(b)) + [TQuestion] + Print(c) + [TColon] + Print(a))
      == Some(Cond(Or(a, b), c, a))
  {
    hide ParseCondition;
    ConditionRoundTrip(And(And(a, b), c));
    ConditionRoundTrip(Or(Or(a, b), c));
    ConditionRoundTrip(Cond(Or(a, b), c, a));
  }
}
