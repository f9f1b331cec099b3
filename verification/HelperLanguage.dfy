/** Helper functions and their callers: statements with block scopes, loops, switches, labels,
    nested functions and calls, and what running them does. */
module HelperLanguage {
  import opened Optional
  import opened JsExpression

  datatype Clause = Clause(test: Option<Value>, body: seq<Stmt>)

  /** `Nested` is a function literal that runs where it stands (a callback, say): a `return`
      inside it is its own. `Call` is a statement-position call of the helper. */
  datatype Stmt =
    | Do(e: Expr)
    | Declare(name: string, init: Expr)
    | Return(result: Option<Expr>)
    | Break(target: Option<string>)
    | Continue(target: Option<string>)
    | If(c: Expr, t: Stmt, f: Option<Stmt>)
    | Block(body: seq<Stmt>)
    | While(c: Expr, loopBody: Stmt)
    | Switch(on: Expr, clauses: seq<Clause>)
    | Labeled(name: string, s: Stmt)
    | Nested(body: seq<Stmt>)
    | Call(args: seq<Expr>)

  datatype Helper = Helper(params: seq<string>, body: seq<Stmt>)

  datatype Env = Env(m: Machine, helper: Option<Helper>)

  datatype Completion =
    | Normal | Returned | Broke(target: Option<string>) | Continued(target: Option<string>)
    | Raised(v: Value) | OutOfFuel

  /** The clauses of a switch one after the other: control falls through. */
  function Bodies(cs: seq<Clause>): seq<Stmt> {
    if cs == [] then [] else cs[0].body + Bodies(cs[1..])
  }

  // ---------------------------------------------------------------- scopes

  function Declared(body: seq<Stmt>): set<string> {
    if body == [] then {} else
    (if body[0].Declare? then {body[0].name} else {}) + Declared(body[1..])
  }

  function DeclaredClauses(cs: seq<Clause>): set<string> {
    if cs == [] then {} else Declared(cs[0].body) + DeclaredClauses(cs[1..])
  }

  function Push(fr: Frame, names: set<string>): (r: Frame)
    ensures r.Keys == fr.Keys + names
  {
    fr + map x | x in names :: Uninit
  }

  /** Leaving a block: its own names disappear, outer bindings come back into view. */
  function Pop(outer: Frame, inner: Frame, names: set<string>): (r: Frame)
    requires outer.Keys <= inner.Keys
    ensures r.Keys == outer.Keys
  {
    map x | x in outer :: if x in names then outer[x] else inner[x]
  }

  /** A declaration initialises the binding its block already holds. */
  function Initialise(fr: Frame, x: string, v: Value): (r: Frame)
    ensures r.Keys == fr.Keys
  {
    if x in fr then fr[x := Init(v)] else fr
  }

  // ---------------------------------------------------------------- running

  function Select(v: Value, cs: seq<Clause>): (r: Option<nat>)
    ensures r.Some? ==> r.value < |cs|
  {
    match Matching(Some(v), cs)
    case Some(k) => Some(k)
    case None => Matching(None, cs)
  }

  function Matching(test: Option<Value>, cs: seq<Clause>): (r: Option<nat>)
    ensures r.Some? ==> r.value < |cs|
  {
    if cs == [] then None
    else if cs[0].test == test then Some(0)
    else match Matching(test, cs[1..]) { case Some(k) => Some(k + 1) case None => None }
  }

  /** Completions of a loop body after which the loop goes round again. */
  predicate NextRound(k: Completion, labels: set<string>) {
    k == Normal || (k.Continued? && (k.target.None? || k.target.value in labels))
  }

  function Depth(env: Env): nat {
    if env.helper.Some? then 1 else 0
  }

  /** `labels` are the labels standing directly on `s`. Fuel is spent only on loop rounds. */
  function Run(env: Env, s: Stmt, labels: set<string>, st: State, fuel: nat): (r: (Completion, State))
    ensures r.1.frame.Keys == st.frame.Keys
    decreases fuel, Depth(env), s, 1
  {
    match s
    case Do(e) =>
      EvalKeepsScope(env.m, e, st);
      var (o, s1) := Eval(env.m, e, st);
      (if o.Throw? then Raised(o.v) else Normal, s1)
    case Declare(x, e) =>
      EvalKeepsScope(env.m, e, st);
      var (o, s1) := Eval(env.m, e, st);
      if o.Throw? then (Raised(o.v), s1)
      else (Normal, s1.(frame := Initialise(s1.frame, x, o.v)))
    case Return(None) => (Returned, st)
    case Return(Some(e)) =>
      EvalKeepsScope(env.m, e, st);
      var (o, s1) := Eval(env.m, e, st);
      (if o.Throw? then Raised(o.v) else Returned, s1)
    case Break(l) => (Broke(l), st)
    case Continue(l) => (Continued(l), st)
    case If(c, t, f) =>
      EvalKeepsScope(env.m, c, st);
      var (v, s1) := Test(env.m, c, st);
      if v.Threw? then (Raised(v.v), s1)
      else if v == Yes then Run(env, t, {}, s1, fuel)
      else if f.Some? then Run(env, f.value, {}, s1, fuel)
      else (Normal, s1)
    case Block(body) => RunScope(env, body, st, fuel)
    case While(c, body) =>
      if fuel == 0 then (OutOfFuel, st) else
      EvalKeepsScope(env.m, c, st);
      var (v, s1) := Test(env.m, c, st);
      if v.Threw? then (Raised(v.v), s1)
      else if v == No then (Normal, s1) else
      var (k, s2) := Run(env, body, {}, s1, fuel);
      if NextRound(k, labels) then Run(env, s, labels, s2, fuel - 1)
      else if k == Broke(None) then (Normal, s2)
      else (k, s2)
    case Switch(on, cs) =>
      EvalKeepsScope(env.m, on, st);
      var (o, s1) := Eval(env.m, on, st);
      if o.Throw? then (Raised(o.v), s1) else
      (match Select(o.v, cs)
       case None => (Normal, s1)
       case Some(k) =>
         var (c, s2) := RunClauses(env, cs, k, s1.(frame := Push(s1.frame, DeclaredClauses(cs))), fuel);
         (if c == Broke(None) then Normal else c,
          s2.(frame := Pop(s1.frame, s2.frame, DeclaredClauses(cs)))))
    case Labeled(l, s1) =>
      var (k, st1) := Run(env, s1, labels + {l}, st, fuel);
      (if k == Broke(Some(l)) then Normal else k, st1)
    case Nested(body) =>
      var (k, st1) := RunScope(env, body, st, fuel);
      (if k == Returned then Normal else k, st1)
    case Call(args) =>
      var (vs, thrown, s1) := EvalArgs(env.m, args, st);
      if thrown.Some? then (Raised(thrown.value), s1)
      else if env.helper.None? then (Normal, s1)
      else
        var h := env.helper.value;
        var (k, s2) := RunSeq(env.(helper := None), h.body, State(HelperFrame(h, vs), s1.world), fuel);
        (if k == Returned then Normal else k, State(s1.frame, s2.world))
  }

  function RunScope(env: Env, body: seq<Stmt>, st: State, fuel: nat): (r: (Completion, State))
    ensures r.1.frame.Keys == st.frame.Keys
    decreases fuel, Depth(env), body, 2
  {
    var (k, s1) := RunSeq(env, body, st.(frame := Push(st.frame, Declared(body))), fuel);
    (k, s1.(frame := Pop(st.frame, s1.frame, Declared(body))))
  }

  function RunSeq(env: Env, body: seq<Stmt>, st: State, fuel: nat): (r: (Completion, State))
    ensures r.1.frame.Keys == st.frame.Keys
    decreases fuel, Depth(env), body, 1
  {
    if body == [] then (Normal, st) else
    var (k, s1) := Run(env, body[0], {}, st, fuel);
    if k == Normal then RunSeq(env, body[1..], s1, fuel) else (k, s1)
  }

  /** From clause `k` on, falling through. */
  function RunClauses(env: Env, cs: seq<Clause>, k: nat, st: State, fuel: nat): (r: (Completion, State))
    requires k <= |cs|
    ensures r.1.frame.Keys == st.frame.Keys
    decreases fuel, Depth(env), cs, 1, |cs| - k
  {
    if k == |cs| then (Normal, st) else
    var (c, s1) := RunSeq(env, cs[k].body, st, fuel);
    if c == Normal then RunClauses(env, cs, k + 1, s1, fuel) else (c, s1)
  }

  /** Call arguments, left to right, by value. */
  function EvalArgs(m: Machine, args: seq<Expr>, st: State): (r: (seq<Value>, Option<Value>, State))
    ensures r.2.frame.Keys == st.frame.Keys
    ensures r.1.None? ==> |r.0| == |args|
  {
    if args == [] then ([], None, st) else
    EvalKeepsScope(m, args[0], st);
    var (o, s1) := Eval(m, args[0], st);
    if o.Throw? then ([], Some(o.v), s1) else
    var (vs, thrown, s2) := EvalArgs(m, args[1..], s1);
    ([o.v] + vs, thrown, s2)
  }

  /** Parameters hold the arguments, `undefined` where one is missing; the body's own
      declarations are in scope but not yet initialised. */
  function HelperFrame(h: Helper, vs: seq<Value>): Frame {
    Push(Bind(h.params, vs), Declared(h.body))
  }

  function Bind(params: seq<string>, vs: seq<Value>): Frame {
    if params == [] then map[] else
    var last := |params| - 1;
    Bind(params[..last], vs)[params[last] := Init(if last < |vs| then vs[last] else Undefined)]
  }

  // ---------------------------------------------------------------- names

  function AtomNames(a: Atom): set<string>
    decreases a, 1
  {
    match a
    case Var(x) => {x}
    case UndefinedLit => {}
    case Lit(_) => {}
    case Op(_, args) => AtomsNames(args)
    case Set(x, rhs) => {x} + AtomNames(rhs)
  }

  function AtomsNames(args: seq<Atom>): set<string>
    decreases args, 0
  {
    if args == [] then {} else AtomNames(args[0]) + AtomsNames(args[1..])
  }

  function AtomWrites(a: Atom): set<string>
    decreases a, 1
  {
    match a
    case Op(_, args) => AtomsWrites(args)
    case Set(x, rhs) => {x} + AtomWrites(rhs)
    case _ => {}
  }

  function AtomsWrites(args: seq<Atom>): set<string>
    decreases args, 0
  {
    if args == [] then {} else AtomWrites(args[0]) + AtomsWrites(args[1..])
  }

  function ExprNames(e: Expr): set<string> {
    match e
    case Leaf(a) => AtomNames(a)
    case Paren(e1) => ExprNames(e1)
    case Not(e1) => ExprNames(e1)
    case Cmp(_, l, r) => ExprNames(l) + ExprNames(r)
    case And(l, r) => ExprNames(l) + ExprNames(r)
    case Or(l, r) => ExprNames(l) + ExprNames(r)
    case Cond(c, t, f) => ExprNames(c) + ExprNames(t) + ExprNames(f)
  }

  function ExprWrites(e: Expr): set<string> {
    match e
    case Leaf(a) => AtomWrites(a)
    case Paren(e1) => ExprWrites(e1)
    case Not(e1) => ExprWrites(e1)
    case Cmp(_, l, r) => ExprWrites(l) + ExprWrites(r)
    case And(l, r) => ExprWrites(l) + ExprWrites(r)
    case Or(l, r) => ExprWrites(l) + ExprWrites(r)
    case Cond(c, t, f) => ExprWrites(c) + ExprWrites(t) + ExprWrites(f)
  }

  function ArgsNames(args: seq<Expr>): set<string> {
    if args == [] then {} else ExprNames(args[0]) + ArgsNames(args[1..])
  }

  function ArgsWrites(args: seq<Expr>): set<string> {
    if args == [] then {} else ExprWrites(args[0]) + ArgsWrites(args[1..])
  }

  /** Names a statement refers to that no scope inside it binds. A declaration refers to the
      name its own block binds. */
  function Free(s: Stmt): set<string>
    decreases s, 1
  {
    match s
    case Do(e) => ExprNames(e)
    case Declare(x, e) => {x} + ExprNames(e)
    case Return(None) => {}
    case Return(Some(e)) => ExprNames(e)
    case Break(_) => {}
    case Continue(_) => {}
    case If(c, t, f) => ExprNames(c) + Free(t) + (if f.Some? then Free(f.value) else {})
    case Block(body) => FreeSeq(body) - Declared(body)
    case While(c, body) => ExprNames(c) + Free(body)
    case Switch(on, cs) => ExprNames(on) + (FreeClauses(cs) - DeclaredClauses(cs))
    case Labeled(_, s1) => Free(s1)
    case Nested(body) => FreeSeq(body) - Declared(body)
    case Call(args) => ArgsNames(args)
  }

  function FreeSeq(body: seq<Stmt>): set<string>
    decreases body, 0
  {
    if body == [] then {} else Free(body[0]) + FreeSeq(body[1..])
  }

  function FreeClauses(cs: seq<Clause>): set<string>
    decreases cs, 0
  {
    if cs == [] then {} else FreeSeq(cs[0].body) + FreeClauses(cs[1..])
  }

  /** Free names that are assigned or initialised. */
  function Writes(s: Stmt): set<string>
    decreases s, 1
  {
    match s
    case Do(e) => ExprWrites(e)
    case Declare(x, e) => {x} + ExprWrites(e)
    case Return(None) => {}
    case Return(Some(e)) => ExprWrites(e)
    case Break(_) => {}
    case Continue(_) => {}
    case If(c, t, f) => ExprWrites(c) + Writes(t) + (if f.Some? then Writes(f.value) else {})
    case Block(body) => WritesSeq(body) - Declared(body)
    case While(c, body) => ExprWrites(c) + Writes(body)
    case Switch(on, cs) => ExprWrites(on) + (WritesClauses(cs) - DeclaredClauses(cs))
    case Labeled(_, s1) => Writes(s1)
    case Nested(body) => WritesSeq(body) - Declared(body)
    case Call(args) => ArgsWrites(args)
  }

  function WritesSeq(body: seq<Stmt>): set<string>
    decreases body, 0
  {
    if body == [] then {} else Writes(body[0]) + WritesSeq(body[1..])
  }

  function WritesClauses(cs: seq<Clause>): set<string>
    decreases cs, 0
  {
    if cs == [] then {} else WritesSeq(cs[0].body) + WritesClauses(cs[1..])
  }

  /** Every name declared anywhere inside. */
  function Binders(s: Stmt): set<string>
    decreases s, 1
  {
    match s
    case Declare(x, _) => {x}
    case If(_, t, f) => Binders(t) + (if f.Some? then Binders(f.value) else {})
    case Block(body) => BindersSeq(body)
    case While(_, body) => Binders(body)
    case Switch(_, cs) => BindersClauses(cs)
    case Labeled(_, s1) => Binders(s1)
    case Nested(body) => BindersSeq(body)
    case _ => {}
  }

  function BindersSeq(body: seq<Stmt>): (r: set<string>)
    ensures Declared(body) <= r
    decreases body, 0
  {
    if body == [] then {} else Binders(body[0]) + BindersSeq(body[1..])
  }

  function BindersClauses(cs: seq<Clause>): (r: set<string>)
    ensures DeclaredClauses(cs) <= r
    decreases cs, 0
  {
    if cs == [] then {} else BindersSeq(cs[0].body) + BindersClauses(cs[1..])
  }

  // ---------------------------------------------------------------- substitution

  /** Text substitution by binding: a scope that redeclares a name hides it. */
  function SubstStmt(s: Stmt, rho: Substitution): Stmt
    decreases s, 1
  {
    match s
    case Do(e) => Do(SubstExpr(e, rho))
    case Declare(x, e) => Declare(SubstName(x, rho), SubstExpr(e, rho))
    case Return(None) => s
    case Return(Some(e)) => Return(Some(SubstExpr(e, rho)))
    case Break(_) => s
    case Continue(_) => s
    case If(c, t, f) =>
      If(SubstExpr(c, rho), SubstStmt(t, rho), if f.Some? then Some(SubstStmt(f.value, rho)) else None)
    case Block(body) => Block(SubstSeq(body, rho - Declared(body)))
    case While(c, body) => While(SubstExpr(c, rho), SubstStmt(body, rho))
    case Switch(on, cs) => Switch(SubstExpr(on, rho), SubstClauses(cs, rho - DeclaredClauses(cs)))
    case Labeled(l, s1) => Labeled(l, SubstStmt(s1, rho))
    case Nested(body) => Nested(SubstSeq(body, rho - Declared(body)))
    case Call(args) => Call(SubstArgs(args, rho))
  }

  function SubstSeq(body: seq<Stmt>, rho: Substitution): (r: seq<Stmt>)
    ensures |r| == |body|
    decreases body, 0
  {
    if body == [] then [] else [SubstStmt(body[0], rho)] + SubstSeq(body[1..], rho)
  }

  function SubstClauses(cs: seq<Clause>, rho: Substitution): (r: seq<Clause>)
    ensures |r| == |cs|
    ensures forall i | 0 <= i < |cs| :: r[i] == Clause(cs[i].test, SubstSeq(cs[i].body, rho))
    decreases cs, 0
  {
    if cs == [] then [] else [Clause(cs[0].test, SubstSeq(cs[0].body, rho))] + SubstClauses(cs[1..], rho)
  }

  function SubstArgs(args: seq<Expr>, rho: Substitution): (r: seq<Expr>)
    ensures |r| == |args|
  {
    if args == [] then [] else [SubstExpr(args[0], rho)] + SubstArgs(args[1..], rho)
  }
}
