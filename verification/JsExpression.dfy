/** The fragment of JavaScript expressions that guard inversion looks at, and what
    evaluating one does.

    Everything the inliner never looks inside (calls, member access, literals,
    arithmetic) is an `Atom`; an atom prints as one token. Evaluation follows
    ECMA-262 (2022), sections 13.5.7, 13.10, 13.11, 13.13 and 13.14. */
module JsExpression {

  import opened Optional

  /** Runtime values. `Ref` stands for objects and strings that convert to NaN. */
  datatype Value = Undefined | Null | Bool(b: bool) | Num(n: int) | NaN | Ref(id: nat)

  predicate Truthy(v: Value) {
    match v
    case Undefined => false
    case Null => false
    case Bool(b) => b
    case Num(n) => n != 0
    case NaN => false
    case Ref(_) => true
  }

  /** A lexical binding: a `let` or `const` is uninitialised until its declaration runs. */
  datatype Cell = Uninit | Init(v: Value)

  type Frame = map<string, Cell>

  /** One call into code outside the model, with the argument values it saw. */
  datatype Event = Event(op: nat, args: seq<Value>)

  datatype World = World(globals: map<string, Value>, trace: seq<Event>)

  datatype State = State(frame: Frame, world: World)

  datatype Outcome = Ok(v: Value) | Throw(v: Value)

  /** The surroundings of a program. `op` is what an external operation does: it may depend
      on everything that happened so far, rewrite every global, and throw. `less` is the
      abstract operation IsLessThan, `None` being its undefined result. */
  datatype Machine = Machine(
    op: (nat, seq<Value>, World) -> (Outcome, map<string, Value>),
    less: (Value, Value) -> Option<bool>,
    looseEq: (Value, Value) -> bool,
    strictEq: (Value, Value) -> bool)

  /** Operand expressions. `Set` is an assignment, so evaluating an atom may change variables. */
  datatype Atom =
    | Var(name: string)
    | UndefinedLit
    | Lit(v: Value)
    | Op(id: nat, args: seq<Atom>)
    | Set(target: string, rhs: Atom)

  datatype CmpOp = StrictEq | StrictNe | LooseEq | LooseNe | Lt | Gt | Le | Ge

  datatype Expr =
    | Leaf(atom: Atom)
    | Paren(e: Expr)
    | Not(e: Expr)
    | Cmp(op: CmpOp, l: Expr, r: Expr)
    | And(l: Expr, r: Expr)
    | Or(l: Expr, r: Expr)
    | Cond(c: Expr, t: Expr, f: Expr)

  predicate Relational(op: CmpOp) {
    op in {Lt, Gt, Le, Ge}
  }

  // ---------------------------------------------------------------- evaluation

  function Lookup(x: string, s: State): Outcome {
    if x in s.frame then
      match s.frame[x]
      case Uninit => Throw(Undefined)
      case Init(v) => Ok(v)
    else if x in s.world.globals then Ok(s.world.globals[x])
    else Throw(Undefined)
  }

  function Store(x: string, v: Value, s: State): (Outcome, State) {
    if x in s.frame then
      if s.frame[x].Uninit? then (Throw(Undefined), s)
      else (Ok(v), s.(frame := s.frame[x := Init(v)]))
    else (Ok(v), s.(world := s.world.(globals := s.world.globals[x := v])))
  }

  function EvalAtom(m: Machine, a: Atom, s: State): (Outcome, State)
    decreases a, 1
  {
    match a
    case Var(x) => (Lookup(x, s), s)
    case UndefinedLit => (Ok(Undefined), s)
    case Lit(v) => (Ok(v), s)
    case Op(id, args) =>
      var (vs, thrown, s1) := EvalAtoms(m, args, s);
      if thrown.Some? then (Throw(thrown.value), s1)
      else RunOp(m, id, vs, s1)
    case Set(x, rhs) =>
      var (o, s1) := EvalAtom(m, rhs, s);
      if o.Throw? then (o, s1) else Store(x, o.v, s1)
  }

  function RunOp(m: Machine, id: nat, vs: seq<Value>, s: State): (Outcome, State) {
    var (o, globals) := m.op(id, vs, s.world);
    (o, s.(world := World(globals, s.world.trace + [Event(id, vs)])))
  }

  /** Arguments left to right; evaluation stops at the first one that throws. */
  function EvalAtoms(m: Machine, args: seq<Atom>, s: State): (seq<Value>, Option<Value>, State)
    decreases args, 0
  {
    if args == [] then ([], None, s) else
    var (o, s1) := EvalAtom(m, args[0], s);
    if o.Throw? then ([], Some(o.v), s1) else
    var (vs, thrown, s2) := EvalAtoms(m, args[1..], s1);
    ([o.v] + vs, thrown, s2)
  }

  predicate Answers(r: Option<bool>, expected: bool) {
    r.Some? && r.value == expected
  }

  /** Sections 13.10.1 and 13.11.1: an undefined IsLessThan makes all four relational
      operators answer false. */
  function Compare(m: Machine, op: CmpOp, x: Value, y: Value): bool {
    match op
    case StrictEq => m.strictEq(x, y)
    case StrictNe => !m.strictEq(x, y)
    case LooseEq => m.looseEq(x, y)
    case LooseNe => !m.looseEq(x, y)
    case Lt => Answers(m.less(x, y), true)
    case Gt => Answers(m.less(y, x), true)
    case Le => Answers(m.less(y, x), false)
    case Ge => Answers(m.less(x, y), false)
  }

  predicate ComparisonDefined(m: Machine, op: CmpOp, x: Value, y: Value) {
    match op
    case Lt => m.less(x, y).Some?
    case Ge => m.less(x, y).Some?
    case Gt => m.less(y, x).Some?
    case Le => m.less(y, x).Some?
    case _ => true
  }

  function Eval(m: Machine, e: Expr, s: State): (Outcome, State) {
    match e
    case Leaf(a) => EvalAtom(m, a, s)
    case Paren(e1) => Eval(m, e1, s)
    case Not(e1) =>
      var (o, s1) := Eval(m, e1, s);
      if o.Throw? then (o, s1) else (Ok(Bool(!Truthy(o.v))), s1)
    case Cmp(op, l, r) =>
      var (x, s1) := Eval(m, l, s);
      if x.Throw? then (x, s1) else
      var (y, s2) := Eval(m, r, s1);
      if y.Throw? then (y, s2) else (Ok(Bool(Compare(m, op, x.v, y.v))), s2)
    case And(l, r) =>
      var (x, s1) := Eval(m, l, s);
      if x.Throw? || !Truthy(x.v) then (x, s1) else Eval(m, r, s1)
    case Or(l, r) =>
      var (x, s1) := Eval(m, l, s);
      if x.Throw? || Truthy(x.v) then (x, s1) else Eval(m, r, s1)
    case Cond(c, t, f) =>
      var (x, s1) := Eval(m, c, s);
      if x.Throw? then (x, s1)
      else if Truthy(x.v) then Eval(m, t, s1) else Eval(m, f, s1)
  }

  /** Evaluation changes what variables hold, never which are in scope. */
  lemma {:induction false} AtomKeepsScope(m: Machine, a: Atom, s: State)
    ensures EvalAtom(m, a, s).1.frame.Keys == s.frame.Keys
    decreases a, 1
  {
    match a
    case Op(_, args) => AtomsKeepScope(m, args, s);
    case Set(_, rhs) => AtomKeepsScope(m, rhs, s);
    case _ =>
  }

  lemma {:induction false} AtomsKeepScope(m: Machine, args: seq<Atom>, s: State)
    ensures EvalAtoms(m, args, s).2.frame.Keys == s.frame.Keys
    decreases args, 0
  {
    if args != [] {
      AtomKeepsScope(m, args[0], s);
      AtomsKeepScope(m, args[1..], EvalAtom(m, args[0], s).1);
    }
  }

  lemma {:induction false} EvalKeepsScope(m: Machine, e: Expr, s: State)
    ensures Eval(m, e, s).1.frame.Keys == s.frame.Keys
  {
    match e
    case Leaf(a) => AtomKeepsScope(m, a, s);
    case Paren(e1) => EvalKeepsScope(m, e1, s);
    case Not(e1) => EvalKeepsScope(m, e1, s);
    case Cmp(_, l, r) => EvalKeepsScope(m, l, s); EvalKeepsScope(m, r, Eval(m, l, s).1);
    case And(l, r) => EvalKeepsScope(m, l, s); EvalKeepsScope(m, r, Eval(m, l, s).1);
    case Or(l, r) => EvalKeepsScope(m, l, s); EvalKeepsScope(m, r, Eval(m, l, s).1);
    case Cond(c, t, f) =>
      EvalKeepsScope(m, c, s);
      EvalKeepsScope(m, t, Eval(m, c, s).1);
      EvalKeepsScope(m, f, Eval(m, c, s).1);
  }

  // ---------------------------------------------------------------- conditions

  /** What a condition position sees of an expression. */
  datatype Verdict = Yes | No | Threw(v: Value)

  function Test(m: Machine, e: Expr, s: State): (Verdict, State) {
    var (o, s1) := Eval(m, e, s);
    (if o.Throw? then Threw(o.v) else if Truthy(o.v) then Yes else No, s1)
  }

  function Flip(r: (Verdict, State)): (Verdict, State) {
    match r.0
    case Yes => (No, r.1)
    case No => (Yes, r.1)
    case Threw(_) => r
  }

  // ---------------------------------------------------------------- substitution

  type Substitution = map<string, Atom>

  function SubstName(x: string, rho: Substitution): string {
    if x in rho && rho[x].Var? then rho[x].name else x
  }

  /** Replace every variable of `rho`; an assignment target follows a renaming. */
  function SubstAtom(a: Atom, rho: Substitution): Atom {
    match a
    case Var(x) => if x in rho then rho[x] else a
    case UndefinedLit => a
    case Lit(_) => a
    case Op(id, args) => Op(id, SubstAtoms(args, rho))
    case Set(x, rhs) => Set(SubstName(x, rho), SubstAtom(rhs, rho))
  }

  function SubstAtoms(args: seq<Atom>, rho: Substitution): (r: seq<Atom>)
    ensures |r| == |args|
  {
    if args == [] then [] else [SubstAtom(args[0], rho)] + SubstAtoms(args[1..], rho)
  }

  function SubstExpr(e: Expr, rho: Substitution): Expr {
    match e
    case Leaf(a) => Leaf(SubstAtom(a, rho))
    case Paren(e1) => Paren(SubstExpr(e1, rho))
    case Not(e1) => Not(SubstExpr(e1, rho))
    case Cmp(op, l, r) => Cmp(op, SubstExpr(l, rho), SubstExpr(r, rho))
    case And(l, r) => And(SubstExpr(l, rho), SubstExpr(r, rho))
    case Or(l, r) => Or(SubstExpr(l, rho), SubstExpr(r, rho))
    case Cond(c, t, f) => Cond(SubstExpr(c, rho), SubstExpr(t, rho), SubstExpr(f, rho))
  }

  const IDENTITY: Substitution := map[]

  lemma {:induction false} SameAtom(a: Atom)
    ensures SubstAtom(a, IDENTITY) == a
    decreases a, 1
  {
    match a
    case Op(_, args) => SameAtoms(args);
    case Set(_, rhs) => SameAtom(rhs);
    case _ =>
  }

  lemma {:induction false} SameAtoms(args: seq<Atom>)
    ensures SubstAtoms(args, IDENTITY) == args
    decreases args, 0
  {
    if args != [] {
      SameAtom(args[0]);
      SameAtoms(args[1..]);
    }
  }

  lemma {:induction e} SameExpr(e: Expr)
    ensures SubstExpr(e, IDENTITY) == e
  {
    if e.Leaf? {
      SameAtom(e.atom);
    }
  }
}
