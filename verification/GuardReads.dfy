/** Guards that mention a local of the tail. In the helper such a read meets a local that is not
    initialised yet and throws; in the inlined text, where the condition stands outside the tail's
    block, it reads whatever the caller has under that name. */
module GuardReads {
  import opened Optional
  import opened JsExpression
  import opened HelperLanguage
  import opened GuardText
  import opened GuardInversion
  import opened GuardExactness
  import opened EscapeAnalysis
  import opened FreshNames
  import opened InlinePlan
  import opened InlineCorrect
  import opened InlineTheorem
  import opened InsertedStatements
  import opened Weakening

  // ---------------------------------------------------------------- operations on variables

  predicate PlainAtom(a: Atom) {
    a.Var? || a.Lit? || a.UndefinedLit?
  }

  /** Every leaf is an operation the inliner knows nothing about, on variables and literals. */
  predicate OperationLeaves(e: Expr) {
    match e
    case Leaf(a) => a.Op? && forall x <- a.args :: PlainAtom(x)
    case Paren(e1) => OperationLeaves(e1)
    case Not(e1) => OperationLeaves(e1)
    case Cmp(_, l, r) => OperationLeaves(l) && OperationLeaves(r)
    case And(l, r) => OperationLeaves(l) && OperationLeaves(r)
    case Or(l, r) => OperationLeaves(l) && OperationLeaves(r)
    case Cond(c, t, f) => OperationLeaves(c) && OperationLeaves(t) && OperationLeaves(f)
  }

  ghost predicate CanRead(names: set<string>, s: State) {
    forall x <- names :: Lookup(x, s).Ok?
  }

  /** Only the trace has grown. */
  ghost predicate Onward(s: State, s1: State, n: nat) {
    s1.frame == s.frame && s1.world.globals == s.world.globals && Steps(s1) == Steps(s) + n
  }

  lemma {:induction false} PlainArguments(m: Machine, args: seq<Atom>, s: State)
    requires forall x <- args :: PlainAtom(x)
    ensures EvalAtoms(m, args, s).2 == s
    ensures CanRead(AtomsNames(args), s) <==> EvalAtoms(m, args, s).1 == None
  {
    if args != [] {
      assert args[0] in args && forall x <- args[1..] :: x in args;
      PlainArguments(m, args[1..], s);
      assert AtomNames(args[0]) == if args[0].Var? then {args[0].name} else {};
      assert CanRead(AtomsNames(args), s) <==> CanRead(AtomNames(args[0]), s) && CanRead(AtomsNames(args[1..]), s);
    }
  }

  lemma {:induction false} ScriptedOperation(script: seq<Value>, a: Atom, v: Value, s: State)
    requires a.Op? && (forall x <- a.args :: PlainAtom(x)) && Next(script, [v], s)
    ensures var (o, s1) := EvalAtom(Scripted(script), a, s);
      if CanRead(AtomNames(a), s) then o == Ok(v) && Onward(s, s1, 1) else o.Throw?
  {
    var m := Scripted(script);
    PlainArguments(m, a.args, s);
    var vs, k := EvalAtoms(m, a.args, s).0, |s.world.trace|;
    assert script[k] == script[k..k + 1][0];
    assert m.op(a.id, vs, s.world) == (Ok(v), s.world.globals);
  }

  // ---------------------------------------------------------------- driving a condition

  predicate Touches(e: Expr, locals: set<string>) {
    !(ExprNames(e) !! locals)
  }

  /** Answers that drive `e` to the given boolean by way of a leaf that mentions one of `locals`,
      if there is one. */
  function DriveInto(e: Expr, locals: set<string>, want: bool): seq<Value> {
    match e
    case Leaf(_) => [Bool(want)]
    case Paren(e1) => DriveInto(e1, locals, want)
    case Not(e1) => DriveInto(e1, locals, !want)
    case Cmp(op, l, r) => DriveInto(l, locals, Operands(op, want).0) + DriveInto(r, locals, Operands(op, want).1)
    case And(l, r) => DriveInto(l, locals, true) + DriveInto(r, locals, want)
    case Or(l, r) => DriveInto(l, locals, false) + DriveInto(r, locals, want)
    case Cond(c, t, f) =>
      DriveInto(c, locals, Touches(t, locals)) + DriveInto(if Touches(t, locals) then t else f, locals, want)
  }

  /** In a state where exactly `locals` cannot be read, a condition that mentions one of them
      throws, and any other comes out as driven. */
  ghost predicate Driven(script: seq<Value>, e: Expr, locals: set<string>, want: bool, s: State) {
    var (o, s1) := Eval(Scripted(script), e, s);
    if Touches(e, locals) && !CanRead(locals, s) then o.Throw?
    else o == Ok(Bool(want)) && Onward(s, s1, |DriveInto(e, locals, want)|)
  }

  /** The names of `names` outside `locals` can be read, and of `locals` all or none. */
  ghost predicate AllOrNone(names: set<string>, locals: set<string>, s: State) {
    && CanRead(names - locals, s)
    && (CanRead(locals, s) || forall x <- locals :: Lookup(x, s).Throw?)
  }

  lemma {:induction false} Stays(names: set<string>, locals: set<string>, s: State, s1: State, n: nat)
    requires AllOrNone(names, locals, s) && Onward(s, s1, n)
    ensures AllOrNone(names, locals, s1) && (CanRead(locals, s1) <==> CanRead(locals, s))
  {
    assert forall x :: Lookup(x, s) == Lookup(x, s1);
  }

  lemma {:induction false} DriveIntoWorks(script: seq<Value>, e: Expr, locals: set<string>, want: bool, s: State)
    requires OperationLeaves(e) && AllOrNone(ExprNames(e), locals, s) && Next(script, DriveInto(e, locals, want), s)
    ensures Driven(script, e, locals, want, s)
    decreases e, 1
  {
    hide Scripted, Compare, EvalAtom, Operands, Next, Lookup;
    match e
    case Leaf(a) => ScriptedOperation(script, a, Bool(want), s);
    case Paren(e1) => DriveIntoWorks(script, e1, locals, want, s);
    case Not(e1) => DriveIntoWorks(script, e1, locals, !want, s);
    case Cmp(op, l, r) =>
      var (x, y) := Operands(op, want);
      OperandsCompare(script, op, want);
      DriveBothParts(script, e, l, x, r, y, locals, s);
    case And(l, r) => DriveBothParts(script, e, l, true, r, want, locals, s);
    case Or(l, r) => DriveBothParts(script, e, l, false, r, want, locals, s);
    case Cond(c, t, f) =>
      var first := Touches(t, locals);
      DriveBothParts(script, e, c, first, if first then t else f, want, locals, s);
  }

  /** Two parts evaluated one after the other. */
  lemma {:induction false} DriveBothParts(
    script: seq<Value>, e: Expr, l: Expr, x: bool, r: Expr, y: bool, locals: set<string>, s: State)
    requires l < e && r < e && OperationLeaves(l) && OperationLeaves(r)
    requires ExprNames(l) + ExprNames(r) <= ExprNames(e) && AllOrNone(ExprNames(e), locals, s)
    requires Next(script, DriveInto(l, locals, x) + DriveInto(r, locals, y), s)
    ensures Driven(script, l, locals, x, s)
    ensures var (o, s1) := Eval(Scripted(script), l, s);
      (o.Ok? ==> Driven(script, r, locals, y, s1) && (CanRead(locals, s1) <==> CanRead(locals, s)))
      && |DriveInto(l, locals, x) + DriveInto(r, locals, y)| == |DriveInto(l, locals, x)| + |DriveInto(r, locals, y)|
    decreases e, 0
  {
    hide Scripted, DriveInto, Eval, Next, OperationLeaves, ExprNames, Lookup;
    NextSplit(script, DriveInto(l, locals, x), DriveInto(r, locals, y), s);
    DriveIntoWorks(script, l, locals, x, s);
    var (o, s1) := Eval(Scripted(script), l, s);
    if o.Ok? {
      Stays(ExprNames(e), locals, s, s1, |DriveInto(l, locals, x)|);
      DriveIntoWorks(script, r, locals, y, s1);
    }
  }

  // ---------------------------------------------------------------- the substituted text

  /** With no arguments every used parameter becomes `undefined`. */
  ghost predicate Blank(rho: Substitution, locals: set<string>) {
    rho.Keys !! locals && forall p <- rho :: rho[p] == UndefinedLit
  }

  lemma {:induction false} BlankAtoms(args: seq<Atom>, rho: Substitution, locals: set<string>)
    requires Blank(rho, locals) && forall x <- args :: PlainAtom(x)
    ensures forall x <- SubstAtoms(args, rho) :: PlainAtom(x)
    ensures AtomsNames(SubstAtoms(args, rho)) == AtomsNames(args) - rho.Keys
  {
    if args != [] {
      assert args[0] in args && forall x <- args[1..] :: x in args;
      BlankAtoms(args[1..], rho, locals);
      assert AtomNames(args[0]) == if args[0].Var? then {args[0].name} else {};
    }
  }

  /** Such a text mentions the same names but for the parameters, and is driven by the same answers. */
  lemma {:induction false} BlankText(e: Expr, rho: Substitution, locals: set<string>, want: bool)
    requires Blank(rho, locals) && OperationLeaves(e)
    ensures var text := SubstExpr(e, rho);
      && OperationLeaves(text) && ExprNames(text) == ExprNames(e) - rho.Keys
      && (Touches(text, locals) <==> Touches(e, locals))
      && DriveInto(text, locals, want) == DriveInto(e, locals, want)
  {
    match e
    case Leaf(a) => BlankAtoms(a.args, rho, locals);
    case Paren(e1) => BlankText(e1, rho, locals, want);
    case Not(e1) => BlankText(e1, rho, locals, !want);
    case Cmp(op, l, r) =>
      BlankText(l, rho, locals, Operands(op, want).0);
      BlankText(r, rho, locals, Operands(op, want).1);
    case And(l, r) => BlankText(l, rho, locals, true); BlankText(r, rho, locals, want);
    case Or(l, r) => BlankText(l, rho, locals, false); BlankText(r, rho, locals, want);
    case Cond(c, t, f) =>
      BlankText(c, rho, locals, Touches(t, locals));
      BlankText(t, rho, locals, want);
      BlankText(f, rho, locals, want);
  }

  // ---------------------------------------------------------------- runs of guards

  /** Answers that make the guards falsy, one after the other. */
  function PassAnswers(guards: seq<Expr>, locals: set<string>): seq<Value> {
    if guards == [] then [] else
    var last := |guards| - 1;
    PassAnswers(guards[..last], locals) + DriveInto(guards[last], locals, false)
  }

  lemma {:induction false} NamesOf(guards: seq<Expr>, i: nat)
    requires i < |guards|
    ensures ExprNames(guards[i]) <= ArgsNames(guards)
  {
    GuardIn(guards, i);
  }

  /** Guards that mention no local are passed, as text or in the helper. */
  lemma {:induction false} GuardsPassed(
    script: seq<Value>, guards: seq<Expr>, n: nat, rho: Substitution, locals: set<string>, s: State)
    requires n <= |guards| && Blank(rho, locals)
    requires forall g <- guards :: OperationLeaves(g)
    requires forall i | 0 <= i < n :: !Touches(guards[i], locals)
    requires AllOrNone(ArgsNames(guards) - rho.Keys, locals, s)
    requires Next(script, PassAnswers(guards[..n], locals), s)
    ensures var (v, s1) := RunGuards(Scripted(script), guards[..n], rho, s);
      v == Yes && Onward(s, s1, |PassAnswers(guards[..n], locals)|)
  {
    if n > 0 {
      var g := guards[n - 1];
      assert guards[..n][..n - 1] == guards[..n - 1] && g in guards;
      NextSplit(script, PassAnswers(guards[..n - 1], locals), DriveInto(g, locals, false), s);
      GuardsPassed(script, guards, n - 1, rho, locals, s);
      var (_, s1) := RunGuards(Scripted(script), guards[..n - 1], rho, s);
      hide Scripted, Next, Lookup;
      GuardDriven(script, guards, n - 1, rho, locals, false, s, s1, |PassAnswers(guards[..n - 1], locals)|);
    }
  }

  /** One guard, where the run of guards has come to it. */
  lemma {:induction false} GuardDriven(
    script: seq<Value>, guards: seq<Expr>, i: nat, rho: Substitution, locals: set<string>, want: bool,
    s: State, s1: State, n: nat)
    requires i < |guards| && Blank(rho, locals) && forall g <- guards :: OperationLeaves(g)
    requires AllOrNone(ArgsNames(guards) - rho.Keys, locals, s) && Onward(s, s1, n)
    requires Next(script, DriveInto(guards[i], locals, want), s1)
    ensures Driven(script, SubstExpr(guards[i], rho), locals, want, s1)
    ensures Touches(SubstExpr(guards[i], rho), locals) <==> Touches(guards[i], locals)
    ensures |DriveInto(SubstExpr(guards[i], rho), locals, want)| == |DriveInto(guards[i], locals, want)|
    ensures CanRead(locals, s1) <==> CanRead(locals, s)
  {
    hide Scripted, DriveInto, Eval, Next, OperationLeaves, ExprNames, Lookup, SubstExpr;
    NamesOf(guards, i);
    assert guards[i] in guards;
    BlankText(guards[i], rho, locals, want);
    Stays(ArgsNames(guards) - rho.Keys, locals, s, s1, n);
    DriveIntoWorks(script, SubstExpr(guards[i], rho), locals, want, s1);
  }

  /** A run of guards that has ended stays ended. */
  lemma {:induction false} GuardsEnded(m: Machine, guards: seq<Expr>, n: nat, rho: Substitution, s: State)
    requires n <= |guards| && RunGuards(m, guards[..n], rho, s).0 != Yes
    ensures RunGuards(m, guards, rho, s) == RunGuards(m, guards[..n], rho, s)
  {
    if n < |guards| {
      assert guards[..|guards| - 1][..n] == guards[..n];
      GuardsEnded(m, guards[..|guards| - 1], n, rho, s);
    } else {
      assert guards[..n] == guards;
    }
  }

  /** The first guard that mentions a local, reached and driven to be truthy: where locals can be
      read it returns, where they cannot it throws. */
  lemma {:induction false} GuardsReach(
    script: seq<Value>, guards: seq<Expr>, i: nat, rho: Substitution, locals: set<string>, s: State)
    requires i < |guards| && Touches(guards[i], locals) && forall j | 0 <= j < i :: !Touches(guards[j], locals)
    requires Blank(rho, locals) && forall g <- guards :: OperationLeaves(g)
    requires AllOrNone(ArgsNames(guards) - rho.Keys, locals, s)
    requires Next(script, PassAnswers(guards[..i], locals) + DriveInto(guards[i], locals, true), s)
    ensures var v := RunGuards(Scripted(script), guards, rho, s).0; if CanRead(locals, s) then v == No else v.Threw?
  {
    hide Scripted, Next, Lookup;
    var m := Scripted(script);
    NextSplit(script, PassAnswers(guards[..i], locals), DriveInto(guards[i], locals, true), s);
    GuardsPassed(script, guards, i, rho, locals, s);
    var (_, s1) := RunGuards(m, guards[..i], rho, s);
    GuardDriven(script, guards, i, rho, locals, true, s, s1, |PassAnswers(guards[..i], locals)|);
    assert guards[..i + 1][..i] == guards[..i];
    GuardsEnded(m, guards, i + 1, rho, s);
  }

  // ---------------------------------------------------------------- a call without arguments

  lemma {:induction false} NothingHoistedFor(h: Helper, n: nat, taken: set<string>)
    requires n <= |h.params|
    ensures Hoist(h, [], n, taken).prefix == [] && Hoist(h, [], n, taken).taken == taken
  {
    if n > 0 { NothingHoistedFor(h, n - 1, taken); }
  }

  lemma {:induction false} BlankPlan(h: Helper)
    requires Syntactic(h)
    ensures var plan := Hoist(h, [], |h.params|, {});
      plan.prefix == [] && plan.taken == {} && Blank(plan.rho, Declared(h.body))
  {
    NothingHoistedFor(h, |h.params|, {});
    HoistPlanned(h, [], |h.params|, {});
    PlanKeys(h, [], {});
  }

  /** A world in which every name the body mentions is a global. */
  function Everything(h: Helper): World {
    World(map x | x in FreeSeq(h.body) :: Undefined, [])
  }

  /** In the helper the tail's locals cannot be read while the guards run, in the caller they can. */
  lemma {:induction false} TwoScopes(h: Helper)
    requires Syntactic(h) && !GuardsApart(h)
    ensures var names, locals := ArgsNames(Guards(h.body)), Declared(h.body);
      var rho := Hoist(h, [], |h.params|, {}).rho;
      var inner, outer := State(HelperFrame(h, []), Everything(h)), State(map[], Everything(h));
      && AllOrNone(names, locals * names, inner) && !CanRead(locals * names, inner)
      && AllOrNone(names - rho.Keys, locals * names, outer) && CanRead(locals * names, outer)
  {
    var names, locals := ArgsNames(Guards(h.body)), Declared(h.body);
    BodyNames(h.body);
    hide Guards, FreeSeq, HelperFrame, Lookup, Declared, Hoist;
    forall x <- names
      ensures Lookup(x, State(HelperFrame(h, []), Everything(h))).Throw? <==> x in locals
      ensures Lookup(x, State(map[], Everything(h))).Ok?
    {
      Lookups(h, x);
    }
    assert !(names !! locals);
    var x :| x in names && x in locals;
    assert x in locals * names;
  }

  lemma {:induction false} Lookups(h: Helper, x: string)
    requires Syntactic(h) && x in FreeSeq(h.body)
    ensures Lookup(x, State(HelperFrame(h, []), Everything(h))).Throw? <==> x in Declared(h.body)
    ensures Lookup(x, State(map[], Everything(h))).Ok?
  {
    hide FreeSeq, Declared;
    BindAt(h.params, []);
  }

  /** The lines up to the first guard that mentions a local. */
  lemma {:induction false} FirstTouch(guards: seq<Expr>, locals: set<string>) returns (i: nat)
    requires !(ArgsNames(guards) !! locals)
    ensures i < |guards| && Touches(guards[i], locals) && forall j | 0 <= j < i :: !Touches(guards[j], locals)
  {
    if Touches(guards[0], locals) {
      i := 0;
    } else {
      var k := FirstTouch(guards[1..], locals);
      i := k + 1;
      forall j | 0 <= j < i ensures !Touches(guards[j], locals) {
        if j > 0 { assert guards[j] == guards[1..][j - 1]; }
      }
    }
  }

  // ---------------------------------------------------------------- the exact condition

  /** Replacing a call of the helper is right in every run of every JavaScript world in which the
      names are apart. */
  ghost predicate AlwaysInlines(h: Helper) {
    forall m: Machine, args: seq<Expr>, taken: set<string>, a: Frame, b: Frame, w: World, fuel: nat |
      JsMachine(m) && |args| <= |h.params| && CallReady(h, args, taken, a, b) ::
      CallMatches(Env(m, Some(h)), args, InsertedAt(h, args, taken), Added(h, args, taken), a, b, w, fuel)
  }

  /** A script on which the guards throw in the helper and return in the caller. */
  lemma {:induction false} GuardsDisagree(h: Helper) returns (script: seq<Value>)
    requires Syntactic(h) && !GuardsApart(h) && forall g <- Guards(h.body) :: OperationLeaves(g)
    ensures RunGuards(Scripted(script), Guards(h.body), IDENTITY, State(HelperFrame(h, []), Everything(h))).0.Threw?
    ensures RunGuards(Scripted(script), Guards(h.body), Hoist(h, [], |h.params|, {}).rho,
      State(map[], Everything(h))).0 == No
  {
    BlankPlan(h);
    TwoScopes(h);
    hide *;
    var guards, locals := Guards(h.body), Declared(h.body) * ArgsNames(Guards(h.body));
    SomeTouched(h);
    var i := FirstTouch(guards, locals);
    script := PassAnswers(guards[..i], locals) + DriveInto(guards[i], locals, true);
    WholeScript(script, h);
    BlankLess(Hoist(h, [], |h.params|, {}).rho, Declared(h.body), locals);
    GuardsReach(script, guards, i, IDENTITY, locals, State(HelperFrame(h, []), Everything(h)));
    GuardsReach(script, guards, i, Hoist(h, [], |h.params|, {}).rho, locals, State(map[], Everything(h)));
  }

  lemma {:induction false} SomeTouched(h: Helper)
    requires !GuardsApart(h)
    ensures !(ArgsNames(Guards(h.body)) !! Declared(h.body) * ArgsNames(Guards(h.body)))
  {
    hide ArgsNames, Guards, Declared;
    var x :| x in ArgsNames(Guards(h.body)) && x in Declared(h.body);
    assert x in Declared(h.body) * ArgsNames(Guards(h.body));
  }

  lemma {:induction false} WholeScript(script: seq<Value>, h: Helper)
    ensures Next(script, script, State(HelperFrame(h, []), Everything(h)))
    ensures Next(script, script, State(map[], Everything(h)))
  {
    assert script[0..|script|] == script;
  }

  lemma {:induction false} BlankLess(rho: Substitution, locals: set<string>, fewer: set<string>)
    requires Blank(rho, locals) && fewer <= locals
    ensures Blank(rho, fewer) && Blank(IDENTITY, fewer)
    ensures forall names: set<string> :: names - IDENTITY.Keys == names
  {
  }

  /** A run in which the call throws and its replacement completes. */
  lemma {:induction false} ReadsDiffer(h: Helper)
    requires Accepted(h) && Syntactic(h) && !GuardsApart(h)
    requires forall g <- Guards(h.body) :: OperationLeaves(g) && NoUnorderedFlip(g)
    ensures !AlwaysInlines(h)
  {
    var script := GuardsDisagree(h);
    var w, env := Everything(h), Env(Scripted(script), Some(h));
    assert JsMachine(env.m) && Guards(h.body) != [];
    hide Scripted, RunGuards, Hoist, Guards, Accepted, Syntactic, Everything, HelperFrame,
      CallReady, CallMatches, Lookup, ArgsNames, Declared, InsertedAt, Added, Run, RunSeq;
    CallThrows(env, h, w);
    TextReturns(env, h, w);
    WitnessReady(h);
    NotAlike(env, h, w);
  }

  lemma {:induction false} NotAlike(env: Env, h: Helper, w: World)
    requires Run(env, Call([]), {}, State(map[], w), 0).0.Raised?
    requires RunSeq(env, InsertedAt(h, [], {}), State(map[], w), 0).0 == Normal
    ensures !CallMatches(env, [], InsertedAt(h, [], {}), Added(h, [], {}), map[], map[], w, 0)
  {
    hide Run, RunSeq, InsertedAt, Added;
  }

  lemma {:induction false} CallThrows(env: Env, h: Helper, w: World)
    requires env.helper == Some(h)
    requires RunGuards(env.m, Guards(h.body), IDENTITY, State(HelperFrame(h, []), w)).0.Threw?
    ensures Run(env, Call([]), {}, State(map[], w), 0).0.Raised?
  {
    assert EvalArgs(env.m, [], State(map[], w)) == ([], None, State(map[], w));
    RunCall(env, h, [], State(map[], w), 0);
    BodyRun(Env(env.m, None), h.body, State(HelperFrame(h, []), w), 0);
    hide RunGuards, HelperFrame, RunSeq;
  }

  lemma {:induction false} TextReturns(env: Env, h: Helper, w: World)
    requires Accepted(h) && Syntactic(h) && Guards(h.body) != [] && JsMachine(env.m)
    requires forall g <- Guards(h.body) :: NoUnorderedFlip(g)
    requires RunGuards(env.m, Guards(h.body), Hoist(h, [], |h.params|, {}).rho, State(map[], w)).0 == No
    ensures RunSeq(env, InsertedAt(h, [], {}), State(map[], w), 0).0 == Normal
  {
    var guards, rho := Guards(h.body), Hoist(h, [], |h.params|, {}).rho;
    InsertedText(h, [], {});
    NothingHoistedFor(h, |h.params|, {});
    var text := RestText(h, [], {});
    assert [] + text == text && |text| == 1;
    assert text == [text[0]];
    InvertibleClean(env.m, guards, rho, State(map[], w));
    CombinedGuards(env.m, guards, rho, State(map[], w));
    hide RunGuards, Guards, CombineTree, Hoist, SubstSeq;
    RunOne(env, text[0], State(map[], w), 0);
  }

  lemma {:induction false} WitnessReady(h: Helper)
    requires Syntactic(h) && Guards(h.body) != []
    ensures CallReady(h, [], {}, map[], map[]) && Added(h, [], {}) == {}
  {
    NothingHoistedFor(h, |h.params|, {});
  }

  /** The exact condition: with guards made of operations on variables, none of whose flipped
      comparisons can meet an unordered value, replacing a call is right in every run if and only
      if no guard mentions a local of the tail. */
  lemma {:induction false} GuardReadsExact(h: Helper)
    requires Accepted(h) && Syntactic(h)
    requires forall g <- Guards(h.body) :: OperationLeaves(g) && NoUnorderedFlip(g)
    ensures AlwaysInlines(h) <==> GuardsApart(h)
  {
    if GuardsApart(h) {
      forall m: Machine, args: seq<Expr>, taken: set<string>, a: Frame, b: Frame, w: World, fuel: nat |
        JsMachine(m) && |args| <= |h.params| && CallReady(h, args, taken, a, b)
        ensures CallMatches(Env(m, Some(h)), args, InsertedAt(h, args, taken), Added(h, args, taken), a, b, w, fuel)
      {
        assert CallOk(Env(m, Some(h)), h, args);
        hide *;
        InlinedAt(Env(m, Some(h)), h, args, taken, a, b, w, fuel);
      }
    } else {
      ReadsDiffer(h);
    }
  }

  lemma {:induction false} InlinedAt(
    env: Env, h: Helper, args: seq<Expr>, taken: set<string>, a: Frame, b: Frame, w: World, fuel: nat)
    requires CallOk(env, h, args) && CallReady(h, args, taken, a, b) && GuardsApart(h)
    ensures CallMatches(env, args, InsertedAt(h, args, taken), Added(h, args, taken), a, b, w, fuel)
  {
    CallInlined(env, h, args, taken, a, b, w, fuel);
  }

  // ---------------------------------------------------------------- two helpers

  /** `if (c) return; const x = 1;` */
  function Guarded(c: Expr): Helper {
    Helper([], [If(c, Return(None), None), Declare("x", Leaf(Lit(Num(1))))])
  }

  lemma {:induction false} GuardedParts(c: Expr)
    requires Parsed(c) && ExprNames(c) == {"x"}
    ensures var h := Guarded(c);
      && Guards(h.body) == [c] && TailOf(h.body) == [Declare("x", Leaf(Lit(Num(1))))]
      && Declared(h.body) == {"x"} && !GuardsApart(h) && Syntactic(h)
      && HelperFrame(h, []) == map["x" := Uninit]
  {
    var h := Guarded(c);
    var guard, decl := h.body[0], h.body[1];
    assert h.body[1..] == [decl] && [decl][1..] == [];
    assert AsGuard(guard) == Some(c) && AsGuard(decl) == None;
    assert GuardCount(h.body) == 1;
    assert Declared([]) == {} && Declared([decl]) == {"x"} + Declared([decl][1..]);
    assert Declared(h.body) == {} + Declared(h.body[1..]);
    assert Guards(h.body) == [c];
    assert [c][1..] == [] && ArgsNames([c]) == {"x"};
    assert "x" in ArgsNames([c]) * {"x"};
  }

  lemma {:induction false} GuardedReady(c: Expr, b: Frame)
    requires Parsed(c) && ExprNames(c) == {"x"} && b.Keys == {"x"}
    ensures CallReady(Guarded(c), [], {}, b, b)
  {
    var h := Guarded(c);
    GuardedParts(c);
    BodyNames(h.body);
    assert [c][1..] == [] && TailOf(h.body)[1..] == [];
    assert Free(Declare("x", Leaf(Lit(Num(1))))) == {"x"};
    assert FreeSeq(h.body) <= {"x"};
    hide FreeSeq, Guards, TailOf, Declared, BindersSeq;
    NothingHoistedFor(h, 0, {});
  }

  /** What the call and its replacement do, by what the condition does in either scope. */
  lemma {:induction false} GuardedRuns(env: Env, c: Expr, b: Frame, w: World)
    requires env.helper == Some(Guarded(c)) && Parsed(c) && ExprNames(c) == {"x"}
    requires CleanGuards(env.m, [c], map[], State(b, w))
    ensures Run(env, Call([]), {}, State(b, w), 0).0
      == var v := Test(env.m, c, State(map["x" := Uninit], w)).0; if v.Threw? then Raised(v.v) else Normal
    ensures RunSeq(env, InsertedAt(Guarded(c), [], {}), State(b, w), 0).0
      == var v := Test(env.m, c, State(b, w)).0; if v.Threw? then Raised(v.v) else Normal
  {
    GuardedCall(env, c, b, w);
    GuardedText(env, c, b, w);
  }

  lemma {:induction false} OneGuard(m: Machine, c: Expr, s: State)
    ensures RunGuards(m, [c], IDENTITY, s) == Flip(Test(m, c, s))
  {
    assert [c][..0] == [];
    assert RunGuards(m, [], IDENTITY, s) == (Yes, s);
    SameExpr(c);
  }

  lemma {:induction false} GuardedCall(env: Env, c: Expr, b: Frame, w: World)
    requires env.helper == Some(Guarded(c)) && Parsed(c) && ExprNames(c) == {"x"}
    ensures Run(env, Call([]), {}, State(b, w), 0).0
      == var v := Test(env.m, c, State(map["x" := Uninit], w)).0; if v.Threw? then Raised(v.v) else Normal
  {
    var h, s := Guarded(c), State(map["x" := Uninit], w);
    GuardedParts(c);
    assert EvalArgs(env.m, [], State(b, w)) == ([], None, State(b, w));
    hide Guards, TailOf, HelperFrame, Test;
    RunCall(env, h, [], State(b, w), 0);
    BodyRun(Env(env.m, None), h.body, s, 0);
    OneGuard(env.m, c, s);
    RunOne(Env(env.m, None), Declare("x", Leaf(Lit(Num(1)))), Test(env.m, c, s).1, 0);
    assert Eval(env.m, Leaf(Lit(Num(1))), Test(env.m, c, s).1).0 == Ok(Num(1));
  }

  lemma {:induction false} GuardedText(env: Env, c: Expr, b: Frame, w: World)
    requires Parsed(c) && ExprNames(c) == {"x"} && CleanGuards(env.m, [c], map[], State(b, w))
    ensures RunSeq(env, InsertedAt(Guarded(c), [], {}), State(b, w), 0).0
      == var v := Test(env.m, c, State(b, w)).0; if v.Threw? then Raised(v.v) else Normal
  {
    var h, s, decl := Guarded(c), State(b, w), Declare("x", Leaf(Lit(Num(1))));
    GuardedParts(c);
    hide Guards, TailOf;
    InsertedText(h, [], {});
    assert Hoist(h, [], 0, {}) == Plan([], map[], {});
    var rest := RestText(h, [], {});
    assert [] + rest == rest;
    CombinedGuards(env.m, [c], map[], s);
    OneGuard(env.m, c, s);
    var cond := CombineTree([c], map[]);
    assert SubstSeq([decl], map[] - Declared([decl])) == [decl] by { assert [decl][1..] == []; }
    assert rest == [If(cond, Block([decl]), None)];
    hide CombineTree, Test, InsertedAt;
    RunOne(env, rest[0], s, 0);
    var s1 := Test(env.m, cond, s).1;
    ShortBlock(env, decl, s1);
  }

  lemma {:induction false} ShortBlock(env: Env, decl: Stmt, s: State)
    requires decl == Declare("x", Leaf(Lit(Num(1))))
    ensures Run(env, Block([decl]), {}, s, 0).0 == Normal
  {
    var inner := s.(frame := Push(s.frame, Declared([decl])));
    RunOne(env, decl, inner, 0);
    assert Eval(env.m, Leaf(Lit(Num(1))), inner).0 == Ok(Num(1));
  }

  lemma {:induction false} ReadsX(m: Machine, w: World)
    ensures var c, b := Leaf(Var("x")), map["x" := Init(Num(5))];
      && Parsed(c) && ExprNames(c) == {"x"} && CleanGuards(m, [c], map[], State(b, w))
      && Test(m, c, State(map["x" := Uninit], w)).0.Threw? && Test(m, c, State(b, w)).0 == Yes
  {
    assert [Leaf(Var("x"))][..0] == [];
  }

  lemma {:induction false} SkipsX(m: Machine, fr: Frame, w: World)
    ensures var c := And(Leaf(Lit(Bool(false))), Leaf(Var("x")));
      && Parsed(c) && ExprNames(c) == {"x"} && CleanGuards(m, [c], map[], State(fr, w))
      && Test(m, c, State(fr, w)).0 == No
  {
    var c := And(Leaf(Lit(Bool(false))), Leaf(Var("x")));
    assert [c][..0] == [];
  }

  /** `if (x) return; const x = 1;` throws when called; inlined where the caller has an `x`, it
      completes. */
  lemma {:induction false} GuardReadsCallersVariable(env: Env, w: World)
    requires env.helper == Some(Guarded(Leaf(Var("x"))))
    ensures var h, b := Guarded(Leaf(Var("x"))), map["x" := Init(Num(5))];
      && CallReady(h, [], {}, b, b) && !GuardsApart(h)
      && Run(env, Call([]), {}, State(b, w), 0).0.Raised?
      && RunSeq(env, InsertedAt(h, [], {}), State(b, w), 0).0 == Normal
  {
    hide *;
    var c, b := Leaf(Var("x")), map["x" := Init(Num(5))];
    ReadsX(env.m, w);
    GuardedParts(c);
    GuardedReady(c, b);
    GuardedRuns(env, c, b, w);
  }

  /** `if (false && x) return; const x = 1;` mentions the local without ever reading it: the call and
      its replacement both complete. */
  lemma {:induction false} GuardNeedNotRead(env: Env, w: World)
    requires env.helper == Some(Guarded(And(Leaf(Lit(Bool(false))), Leaf(Var("x")))))
    ensures var h, b := Guarded(And(Leaf(Lit(Bool(false))), Leaf(Var("x")))), map["x" := Init(Num(5))];
      && CallReady(h, [], {}, b, b) && !GuardsApart(h)
      && Run(env, Call([]), {}, State(b, w), 0).0 == Normal
      && RunSeq(env, InsertedAt(h, [], {}), State(b, w), 0).0 == Normal
  {
    hide *;
    var c, b := And(Leaf(Lit(Bool(false))), Leaf(Var("x"))), map["x" := Init(Num(5))];
    SkipsX(env.m, b, w);
    SkipsX(env.m, map["x" := Uninit], w);
    GuardedParts(c);
    GuardedReady(c, b);
    GuardedRuns(env, c, b, w);
  }
}
