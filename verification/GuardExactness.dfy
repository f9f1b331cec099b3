/** Exactly which conditions can be inverted by flipping comparators.

    `!(a < b)` is not `a >= b` when the comparison is undefined (a NaN, an `undefined`, an
    object). `NoUnorderedFlip` reads off the source text whether such a value can reach a
    relational comparison that `negate` flips, and it is the exact condition. */
module GuardExactness {
  import opened Optional
  import opened JsExpression
  import opened GuardText
  import opened GuardInversion

  // ---------------------------------------------------------------- JavaScript's own order

  function ToNumber(v: Value): Option<int> {
    match v
    case Undefined => None
    case Null => Some(0)
    case Bool(b) => Some(if b then 1 else 0)
    case Num(n) => Some(n)
    case NaN => None
    case Ref(_) => None
  }

  function JsLess(x: Value, y: Value): Option<bool> {
    match (ToNumber(x), ToNumber(y))
    case (Some(a), Some(b)) => Some(a < b)
    case _ => None
  }

  ghost predicate JsMachine(m: Machine) {
    forall x, y :: m.less(x, y) == JsLess(x, y)
  }

  predicate Unordered(v: Value) {
    ToNumber(v).None?
  }

  /** Can `e` evaluate to an unordered value of the given truthiness? */
  predicate MayBeUnordered(e: Expr, truthy: bool) {
    match e
    case Leaf(_) => true
    case Paren(e1) => MayBeUnordered(e1, truthy)
    case Not(_) => false
    case Cmp(_, _, _) => false
    case And(l, r) => MayBeUnordered(r, truthy) || (!truthy && MayBeUnordered(l, false))
    case Or(l, r) => MayBeUnordered(r, truthy) || (truthy && MayBeUnordered(l, true))
    case Cond(_, t, f) => MayBeUnordered(t, truthy) || MayBeUnordered(f, truthy)
  }

  predicate AlwaysOrdered(e: Expr) {
    !MayBeUnordered(e, true) && !MayBeUnordered(e, false)
  }

  predicate NoUnorderedFlip(e: Expr) {
    match e
    case Paren(e1) => NoUnorderedFlip(e1)
    case Cmp(op, l, r) => Relational(op) ==> AlwaysOrdered(l) && AlwaysOrdered(r)
    case And(l, r) => NoUnorderedFlip(l) && NoUnorderedFlip(r)
    case Or(l, r) => NoUnorderedFlip(l) && NoUnorderedFlip(r)
    case _ => true
  }

  // ---------------------------------------------------------------- sufficient

  lemma {:induction false} UnorderedValues(m: Machine, e: Expr, s: State)
    ensures var (o, _) := Eval(m, e, s);
      o.Ok? && Unordered(o.v) ==> MayBeUnordered(e, Truthy(o.v))
  {
    match e
    case Paren(e1) => UnorderedValues(m, e1, s);
    case And(l, r) =>
      UnorderedValues(m, l, s);
      UnorderedValues(m, r, Eval(m, l, s).1);
    case Or(l, r) =>
      UnorderedValues(m, l, s);
      UnorderedValues(m, r, Eval(m, l, s).1);
    case Cond(c, t, f) =>
      UnorderedValues(m, t, Eval(m, c, s).1);
      UnorderedValues(m, f, Eval(m, c, s).1);
    case _ =>
  }

  lemma {:induction false} StaticallyClean(m: Machine, e: Expr, s: State)
    requires JsMachine(m) && NoUnorderedFlip(e)
    ensures Clean(m, e, s)
  {
    match e
    case Paren(e1) => StaticallyClean(m, e1, s);
    case Cmp(op, l, r) =>
      UnorderedValues(m, l, s);
      UnorderedValues(m, r, Eval(m, l, s).1);
    case And(l, r) =>
      StaticallyClean(m, l, s);
      StaticallyClean(m, r, Test(m, l, s).1);
    case Or(l, r) =>
      StaticallyClean(m, l, s);
      StaticallyClean(m, r, Test(m, l, s).1);
    case _ =>
  }

  lemma {:induction false} TotalOrderClean(m: Machine, e: Expr, s: State)
    requires forall x, y :: m.less(x, y).Some?
    ensures Clean(m, e, s)
  {
    match e
    case Paren(e1) => TotalOrderClean(m, e1, s);
    case And(l, r) =>
      TotalOrderClean(m, l, s);
      TotalOrderClean(m, r, Test(m, l, s).1);
    case Or(l, r) =>
      TotalOrderClean(m, l, s);
      TotalOrderClean(m, r, Test(m, l, s).1);
    case Cmp(op, l, r) =>
      var (x, s1) := Eval(m, l, s);
      var (y, _) := Eval(m, r, s1);
      assert m.less(x.v, y.v).Some? && m.less(y.v, x.v).Some?;
    case _ =>
  }

  // ---------------------------------------------------------------- necessary

  /** Every leaf is an operation the inliner knows nothing about. */
  predicate OpaqueLeaves(e: Expr) {
    match e
    case Leaf(a) => a.Op? && a.args == []
    case Paren(e1) => OpaqueLeaves(e1)
    case Not(e1) => OpaqueLeaves(e1)
    case Cmp(_, l, r) => OpaqueLeaves(l) && OpaqueLeaves(r)
    case And(l, r) => OpaqueLeaves(l) && OpaqueLeaves(r)
    case Or(l, r) => OpaqueLeaves(l) && OpaqueLeaves(r)
    case Cond(c, t, f) => OpaqueLeaves(c) && OpaqueLeaves(t) && OpaqueLeaves(f)
  }

  /** A world whose operations answer from a script, one entry per call. */
  function Scripted(script: seq<Value>): Machine {
    Machine(
      (id, args, w: World) =>
        (Ok(if |w.trace| < |script| then script[|w.trace|] else Undefined), w.globals),
      JsLess,
      (x, y) => x == y,
      (x, y) => x == y)
  }

  function Steps(s: State): nat {
    |s.world.trace|
  }

  /** From `s` on, the script says `answers`. */
  predicate Next(script: seq<Value>, answers: seq<Value>, s: State) {
    var k := |s.world.trace|;
    k + |answers| <= |script| && script[k..k + |answers|] == answers
  }

  lemma {:induction false} NextSplit(script: seq<Value>, a: seq<Value>, b: seq<Value>, s: State)
    requires Next(script, a + b, s)
    ensures Next(script, a, s)
    ensures forall s1: State :: |s1.world.trace| == |s.world.trace| + |a| ==> Next(script, b, s1)
  {
    var k := |s.world.trace|;
    assert script[k..k + |a|] == (a + b)[..|a|] == a;
    assert script[k + |a|..k + |a| + |b|] == (a + b)[|a|..] == b;
  }

  /** The most leaves one evaluation of `e` can reach. */
  function Size(e: Expr): nat {
    match e
    case Leaf(_) => 1
    case Paren(e1) => Size(e1)
    case Not(e1) => Size(e1)
    case Cmp(_, l, r) => Size(l) + Size(r)
    case And(l, r) => Size(l) + Size(r)
    case Or(l, r) => Size(l) + Size(r)
    case Cond(c, t, f) => Size(c) + if Size(t) >= Size(f) then Size(t) else Size(f)
  }

  /** Two booleans that make a comparison come out as wanted. */
  function Operands(op: CmpOp, want: bool): (bool, bool) {
    match op
    case StrictEq => (true, want)
    case StrictNe => (true, !want)
    case LooseEq => (true, want)
    case LooseNe => (true, !want)
    case Lt => (!want, true)
    case Gt => (true, !want)
    case Le => (true, want)
    case Ge => (want, true)
  }

  /** Answers that drive `e` to the given boolean. */
  function Drive(e: Expr, want: bool): (answers: seq<Value>)
    ensures |answers| == Size(e)
  {
    match e
    case Leaf(_) => [Bool(want)]
    case Paren(e1) => Drive(e1, want)
    case Not(e1) => Drive(e1, !want)
    case Cmp(op, l, r) => Drive(l, Operands(op, want).0) + Drive(r, Operands(op, want).1)
    case And(l, r) => Drive(l, true) + Drive(r, want)
    case Or(l, r) => Drive(l, false) + Drive(r, want)
    case Cond(c, t, f) =>
      if Size(t) >= Size(f) then Drive(c, true) + Drive(t, want) else Drive(c, false) + Drive(f, want)
  }

  lemma {:induction false} ScriptedLeaf(script: seq<Value>, a: Atom, v: Value, s: State)
    requires a.Op? && a.args == [] && Next(script, [v], s)
    ensures var (o, s1) := EvalAtom(Scripted(script), a, s);
      o == Ok(v) && |s1.world.trace| == |s.world.trace| + 1
  {
    var m := Scripted(script);
    assert EvalAtoms(m, [], s) == ([], None, s);
    var k := |s.world.trace|;
    assert script[k] == script[k..k + 1][0];
    assert m.op(a.id, [], s.world) == (Ok(v), s.world.globals);
    assert EvalAtom(m, a, s) == RunOp(m, a.id, [], s);
  }

  lemma {:induction false} OperandsCompare(script: seq<Value>, op: CmpOp, want: bool)
    ensures var (x, y) := Operands(op, want);
      && Compare(Scripted(script), op, Bool(x), Bool(y)) == want
      && ComparisonDefined(Scripted(script), op, Bool(x), Bool(y))
  {
  }

  lemma {:induction false} DriveWorks(script: seq<Value>, e: Expr, want: bool, s: State)
    requires OpaqueLeaves(e) && Next(script, Drive(e, want), s)
    ensures var (o, s1) := Eval(Scripted(script), e, s);
      o == Ok(Bool(want)) && Steps(s1) == Steps(s) + Size(e)
    decreases e, 2
  {
    hide Scripted, Compare, EvalAtom, Operands, Next;
    match e
    case Leaf(a) => ScriptedLeaf(script, a, Bool(want), s);
    case Paren(e1) => DriveWorks(script, e1, want, s);
    case Not(e1) => DriveWorks(script, e1, !want, s);
    case Cmp(op, l, r) => DriveComparison(script, op, l, r, want, s);
    case _ => DriveLogical(script, e, want, s);
  }

  lemma {:induction false} DriveComparison(script: seq<Value>, op: CmpOp, l: Expr, r: Expr, want: bool, s: State)
    requires OpaqueLeaves(l) && OpaqueLeaves(r)
    requires Next(script, Drive(l, Operands(op, want).0) + Drive(r, Operands(op, want).1), s)
    ensures var (o, s1) := Eval(Scripted(script), Cmp(op, l, r), s);
      o == Ok(Bool(want)) && Steps(s1) == Steps(s) + Size(l) + Size(r)
    decreases Cmp(op, l, r), 1
  {
    hide Scripted, Compare, Operands, Next, Drive, OpaqueLeaves, Size;
    var (x, y) := Operands(op, want);
    DriveTwo(script, Cmp(op, l, r), l, x, r, y, s);
    OperandsCompare(script, op, want);
  }

  lemma {:induction false} DriveLogical(script: seq<Value>, e: Expr, want: bool, s: State)
    requires OpaqueLeaves(e) && (e.And? || e.Or? || e.Cond?) && Next(script, Drive(e, want), s)
    ensures var (o, s1) := Eval(Scripted(script), e, s);
      o == Ok(Bool(want)) && Steps(s1) == Steps(s) + Size(e)
    decreases e, 1
  {
    hide Scripted, Next;
    match e
    case And(l, r) => DriveTwo(script, e, l, true, r, want, s);
    case Or(l, r) => DriveTwo(script, e, l, false, r, want, s);
    case Cond(c, t, f) =>
      var first := Size(t) >= Size(f);
      DriveTwo(script, e, c, first, if first then t else f, want, s);
  }

  lemma {:induction false} DriveTwo(
    script: seq<Value>, e: Expr, l: Expr, x: bool, r: Expr, y: bool, s: State)
    requires l < e && r < e && OpaqueLeaves(l) && OpaqueLeaves(r)
    requires Next(script, Drive(l, x) + Drive(r, y), s)
    ensures var (o, s1) := Eval(Scripted(script), l, s);
      o == Ok(Bool(x)) && Steps(s1) == Steps(s) + Size(l)
    ensures var (o, s2) := Eval(Scripted(script), r, Eval(Scripted(script), l, s).1);
      o == Ok(Bool(y)) && Steps(s2) == Steps(s) + Size(l) + Size(r)
    ensures Next(script, Drive(l, x), s) && Next(script, Drive(r, y), Eval(Scripted(script), l, s).1)
    decreases e, 0
  {
    NextSplit(script, Drive(l, x), Drive(r, y), s);
    DriveWorks(script, l, x, s);
    DriveWorks(script, r, y, Eval(Scripted(script), l, s).1);
  }

  lemma {:induction false} DriveClean(script: seq<Value>, e: Expr, want: bool, s: State)
    requires OpaqueLeaves(e) && Next(script, Drive(e, want), s)
    ensures Clean(Scripted(script), e, s)
  {
    match e
    case Paren(e1) => DriveClean(script, e1, want, s);
    case Cmp(op, l, r) =>
      var (x, y) := Operands(op, want);
      NextSplit(script, Drive(l, x), Drive(r, y), s);
      DriveTwo(script, e, l, x, r, y, s);
      OperandsCompare(script, op, want);
    case And(l, r) =>
      DriveTwo(script, e, l, true, r, want, s);
      DriveClean(script, l, true, s);
      DriveClean(script, r, want, Test(Scripted(script), l, s).1);
    case Or(l, r) =>
      DriveTwo(script, e, l, false, r, want, s);
      DriveClean(script, l, false, s);
      DriveClean(script, r, want, Test(Scripted(script), l, s).1);
    case _ =>
  }

  /** Answers that drive `e` to an unordered value of the given truthiness. */
  function DriveUnordered(e: Expr, truthy: bool): seq<Value>
    requires MayBeUnordered(e, truthy)
  {
    match e
    case Leaf(_) => [if truthy then Ref(0) else NaN]
    case Paren(e1) => DriveUnordered(e1, truthy)
    case And(l, r) =>
      if MayBeUnordered(r, truthy) then Drive(l, true) + DriveUnordered(r, truthy)
      else DriveUnordered(l, false)
    case Or(l, r) =>
      if MayBeUnordered(r, truthy) then Drive(l, false) + DriveUnordered(r, truthy)
      else DriveUnordered(l, true)
    case Cond(c, t, f) =>
      if MayBeUnordered(t, truthy) then Drive(c, true) + DriveUnordered(t, truthy)
      else Drive(c, false) + DriveUnordered(f, truthy)
  }

  lemma {:induction false} DriveUnorderedWorks(script: seq<Value>, e: Expr, truthy: bool, s: State)
    requires OpaqueLeaves(e) && MayBeUnordered(e, truthy) && Next(script, DriveUnordered(e, truthy), s)
    ensures var (o, s1) := Eval(Scripted(script), e, s);
      && o.Ok? && Unordered(o.v) && Truthy(o.v) == truthy
      && |s1.world.trace| == |s.world.trace| + |DriveUnordered(e, truthy)|
  {
    hide Scripted, Compare, EvalAtom, Drive, Next;
    var m := Scripted(script);
    match e
    case Leaf(a) => ScriptedLeaf(script, a, if truthy then Ref(0) else NaN, s);
    case Paren(e1) => DriveUnorderedWorks(script, e1, truthy, s);
    case And(l, r) =>
      if MayBeUnordered(r, truthy) {
        NextSplit(script, Drive(l, true), DriveUnordered(r, truthy), s);
        DriveWorks(script, l, true, s);
        DriveUnorderedWorks(script, r, truthy, Eval(m, l, s).1);
      } else {
        DriveUnorderedWorks(script, l, false, s);
      }
    case Or(l, r) =>
      if MayBeUnordered(r, truthy) {
        NextSplit(script, Drive(l, false), DriveUnordered(r, truthy), s);
        DriveWorks(script, l, false, s);
        DriveUnorderedWorks(script, r, truthy, Eval(m, l, s).1);
      } else {
        DriveUnorderedWorks(script, l, true, s);
      }
    case Cond(c, t, f) =>
      var first := MayBeUnordered(t, truthy);
      NextSplit(script, Drive(c, first), DriveUnordered(if first then t else f, truthy), s);
      DriveWorks(script, c, first, s);
      DriveUnorderedWorks(script, if first then t else f, truthy, Eval(m, c, s).1);
  }

  // ---------------------------------------------------------------- the distinguishing run

  lemma {:induction false} SizeBounds(script: seq<Value>, e: Expr, s: State)
    requires OpaqueLeaves(e)
    ensures Size(e) > 0
    ensures var (o, s1) := Eval(Scripted(script), e, s);
      o.Ok? && Steps(s1) <= Steps(s) + Size(e)
  {
    var m := Scripted(script);
    match e
    case Leaf(a) => assert EvalAtoms(m, [], s) == ([], None, s);
    case Paren(e1) => SizeBounds(script, e1, s);
    case Not(e1) => SizeBounds(script, e1, s);
    case Cmp(_, l, r) => SizeBounds(script, l, s); SizeBounds(script, r, Eval(m, l, s).1);
    case And(l, r) => SizeBounds(script, l, s); SizeBounds(script, r, Eval(m, l, s).1);
    case Or(l, r) => SizeBounds(script, l, s); SizeBounds(script, r, Eval(m, l, s).1);
    case Cond(c, t, f) =>
      SizeBounds(script, c, s);
      SizeBounds(script, t, Eval(m, c, s).1);
      SizeBounds(script, f, Eval(m, c, s).1);
  }

  lemma {:induction false} NegSizeBounds(script: seq<Value>, e: Expr, s: State)
    requires OpaqueLeaves(e)
    ensures var (v, s1) := NegTest(Scripted(script), e, IDENTITY, s);
      !v.Threw? && Steps(s1) <= Steps(s) + Size(e)
  {
    var m := Scripted(script);
    match e
    case Paren(e1) => NegSizeBounds(script, e1, s);
    case And(l, r) => NegSizeBounds(script, l, s); NegSizeBounds(script, r, NegTest(m, l, IDENTITY, s).1);
    case Or(l, r) => NegSizeBounds(script, l, s); NegSizeBounds(script, r, NegTest(m, l, IDENTITY, s).1);
    case _ =>
      OperandKeepsLeaves(e);
      SizeBounds(script, NegOperand(e, IDENTITY), s);
  }

  lemma {:induction false} OperandKeepsLeaves(e: Expr)
    requires OpaqueLeaves(e) && !e.Paren? && !e.And? && !e.Or?
    ensures OpaqueLeaves(NegOperand(e, IDENTITY)) && Size(NegOperand(e, IDENTITY)) == Size(e)
  {
    SameExpr(e);
    match e
    case Not(e1) => SameExpr(e1);
    case Cmp(_, l, r) => SameExpr(l); SameExpr(r);
    case _ =>
  }

  /** Answers that reach an unordered comparison and then keep the side that goes on
      running through every remaining leaf. */
  function Spoil(e: Expr, want: bool): seq<Value>
    requires !NoUnorderedFlip(e)
  {
    match e
    case Paren(e1) => Spoil(e1, want)
    case Cmp(_, l, r) =>
      if MayBeUnordered(l, true) then DriveUnordered(l, true) + Drive(r, true)
      else if MayBeUnordered(l, false) then DriveUnordered(l, false) + Drive(r, true)
      else if MayBeUnordered(r, true) then Drive(l, true) + DriveUnordered(r, true)
      else Drive(l, true) + DriveUnordered(r, false)
    case And(l, r) =>
      if !NoUnorderedFlip(l) then Spoil(l, true) + Drive(r, want)
      else Drive(l, true) + Spoil(r, want)
    case Or(l, r) =>
      if !NoUnorderedFlip(l) then Spoil(l, false) + Drive(r, want)
      else Drive(l, false) + Spoil(r, want)
  }

  function VerdictOf(b: bool): Verdict {
    if b then Yes else No
  }

  /** Both runs false after the same leaves, or one run complete and the other cut short. */
  ghost predicate Diverges(script: seq<Value>, e: Expr, want: bool, end: nat, s: State) {
    var (v, s1) := Test(Scripted(script), e, s);
    var (nv, s2) := NegTest(Scripted(script), e, IDENTITY, s);
    || (v == No && nv == No && Steps(s1) == end && Steps(s2) == end)
    || (v == VerdictOf(want) && Steps(s1) == end && Steps(s2) < end)
    || (nv == VerdictOf(!want) && Steps(s2) == end && Steps(s1) < end)
  }

  /** A driven operand runs in full and its negation answers the opposite. */
  lemma {:induction false} DriveBoth(script: seq<Value>, e: Expr, want: bool, s: State)
    requires OpaqueLeaves(e) && Next(script, Drive(e, want), s)
    ensures var (v, s1) := Test(Scripted(script), e, s);
      && v == VerdictOf(want) && Steps(s1) == Steps(s) + Size(e)
      && NegTest(Scripted(script), e, IDENTITY, s) == (VerdictOf(!want), s1)
  {
    DriveWorks(script, e, want, s);
    DriveClean(script, e, want, s);
    SameExpr(e);
    NegTestFlips(Scripted(script), e, IDENTITY, s);
  }

  lemma {:induction false} SpoiledComparison(script: seq<Value>, e: Expr, s: State)
    requires OpaqueLeaves(e) && e.Cmp? && !NoUnorderedFlip(e) && Next(script, Spoil(e, true), s)
    ensures Diverges(script, e, true, Steps(s) + |Spoil(e, true)|, s)
    ensures Diverges(script, e, false, Steps(s) + |Spoil(e, false)|, s)
  {
    hide Scripted, EvalAtom, Drive, DriveUnordered, OpaqueLeaves, Next, MayBeUnordered;
    var m := Scripted(script);
    var l, r := e.l, e.r;
    SpoilComparisonParts(e);
    SameExpr(l);
    SameExpr(r);
    if MayBeUnordered(l, true) || MayBeUnordered(l, false) {
      var t := MayBeUnordered(l, true);
      NextSplit(script, DriveUnordered(l, t), Drive(r, true), s);
      DriveUnorderedWorks(script, l, t, s);
      DriveWorks(script, r, true, Eval(m, l, s).1);
    } else {
      var t := MayBeUnordered(r, true);
      NextSplit(script, Drive(l, true), DriveUnordered(r, t), s);
      DriveWorks(script, l, true, s);
      DriveUnorderedWorks(script, r, t, Eval(m, l, s).1);
    }
    var (x, s1) := Eval(m, l, s);
    var (y, s2) := Eval(m, r, s1);
    UnorderedComparesFalse(script, x.v, y.v, e.op);
  }

  lemma {:induction false} SpoilComparisonParts(e: Expr)
    requires OpaqueLeaves(e) && e.Cmp? && !NoUnorderedFlip(e)
    ensures OpaqueLeaves(e.l) && OpaqueLeaves(e.r) && Relational(e.op)
    ensures MayBeUnordered(e.l, true) || MayBeUnordered(e.l, false)
      || MayBeUnordered(e.r, true) || MayBeUnordered(e.r, false)
  {
  }

  lemma {:induction false} UnorderedComparesFalse(script: seq<Value>, x: Value, y: Value, op: CmpOp)
    requires Relational(op) && (Unordered(x) || Unordered(y))
    ensures !Compare(Scripted(script), op, x, y) && !Compare(Scripted(script), FlipOp(op), x, y)
  {
    var m := Scripted(script);
    assert m.less(x, y).None? && m.less(y, x).None?;
  }

  lemma {:induction false} SpoilWorks(script: seq<Value>, e: Expr, want: bool, s: State)
    requires OpaqueLeaves(e) && !NoUnorderedFlip(e) && Next(script, Spoil(e, want), s)
    ensures Diverges(script, e, want, Steps(s) + |Spoil(e, want)|, s)
    decreases e, 1
  {
    match e
    case Paren(e1) => SpoilWorks(script, e1, want, s);
    case Cmp(_, _, _) => SpoiledComparison(script, e, s);
    case And(l, r) => SpoilOperands(script, e, l, r, true, want, s);
    case Or(l, r) => SpoilOperands(script, e, l, r, false, want, s);
  }

  lemma {:induction false} TestOperands(m: Machine, e: Expr, s: State)
    requires e.And? || e.Or?
    ensures var (v, s1) := Test(m, e.l, s);
      Test(m, e, s) == if v == (if e.And? then Yes else No) then Test(m, e.r, s1) else (v, s1)
  {
  }

  lemma {:induction false} OpaqueOperands(e: Expr)
    requires OpaqueLeaves(e) && (e.And? || e.Or?)
    ensures OpaqueLeaves(e.l) && OpaqueLeaves(e.r)
  {
  }

  /** `pass` is the value of the left operand on which the right one runs. */
  lemma {:induction false} SpoilOperands(
    script: seq<Value>, e: Expr, l: Expr, r: Expr, pass: bool, want: bool, s: State)
    requires e == if pass then And(l, r) else Or(l, r)
    requires OpaqueLeaves(e) && !NoUnorderedFlip(e) && Next(script, Spoil(e, want), s)
    ensures Diverges(script, e, want, Steps(s) + |Spoil(e, want)|, s)
    decreases e, 0
  {
    hide Scripted, Drive, Eval, Next, OpaqueLeaves, Size;
    var m := Scripted(script);
    assert l < e && r < e;
    OpaqueOperands(e);
    TestOperands(m, e, s);
    if !NoUnorderedFlip(l) {
      NextSplit(script, Spoil(l, pass), Drive(r, want), s);
      SpoilWorks(script, l, pass, s);
      var (v, s1) := Test(m, l, s);
      var (nv, s2) := NegTest(m, l, IDENTITY, s);
      SizeBounds(script, r, s1);
      NegSizeBounds(script, r, s2);
      if Steps(s1) == Steps(s) + |Spoil(l, pass)| { DriveBoth(script, r, want, s1); }
      if Steps(s2) == Steps(s) + |Spoil(l, pass)| { DriveBoth(script, r, want, s2); }
    } else {
      NextSplit(script, Drive(l, pass), Spoil(r, want), s);
      DriveBoth(script, l, pass, s);
      SpoilWorks(script, r, want, Test(m, l, s).1);
    }
  }

  // ---------------------------------------------------------------- the exact condition

  /** Inversion is right for `e` in every run of every JavaScript world. */
  ghost predicate AlwaysInverts(e: Expr) {
    forall m: Machine, s: State | JsMachine(m) ::
      Test(m, OrChain(None, e, IDENTITY), s) == Flip(Test(m, e, s))
  }

  lemma {:induction false} InversionIsSound(e: Expr)
    requires NoUnorderedFlip(e)
    ensures AlwaysInverts(e)
  {
    forall m: Machine, s: State | JsMachine(m)
      ensures Test(m, OrChain(None, e, IDENTITY), s) == Flip(Test(m, e, s))
    {
      SameExpr(e);
      StaticallyClean(m, e, s);
      OrChainRuns(m, None, e, IDENTITY, s);
      NegTestFlips(m, e, IDENTITY, s);
    }
  }

  /** The exact condition: with leaves the inliner knows nothing about, the printed negation
      complements the guard in every run if and only if no comparison that gets flipped can
      meet an unordered value. */
  lemma {:induction false} InversionExact(e: Expr)
    requires Parsed(e) && OpaqueLeaves(e)
    ensures ParseCondition(NegText(e, IDENTITY).text) == Some(OrChain(None, e, IDENTITY))
    ensures NoUnorderedFlip(e) <==> AlwaysInverts(e)
  {
    CombineReadsBack([e], IDENTITY);
    if NoUnorderedFlip(e) {
      InversionIsSound(e);
    } else {
      var script := Spoil(e, true);
      var m := Scripted(script);
      var s := State(map[], World(map[], []));
      assert script[0..|script|] == script;
      SpoilWorks(script, e, true, s);
      OrChainRuns(m, None, e, IDENTITY, s);
      assert JsMachine(m);
    }
  }

  /** `if (a < b) return;` inlines to `if (a >= b) { ... }`, which skips the tail when `a`
      is NaN although the original runs it. */
  lemma {:induction false} NaNIsNotFlipped()
    ensures var guard := Cmp(Lt, Leaf(Op(0, [])), Leaf(Op(1, [])));
      !NoUnorderedFlip(guard) && !AlwaysInverts(guard)
  {
    InversionExact(Cmp(Lt, Leaf(Op(0, [])), Leaf(Op(1, []))));
  }
}
