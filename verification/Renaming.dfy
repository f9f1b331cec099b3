/** Substituting names by binding does not change what a program does.

    `Rel` ties the frame a helper body runs in to the caller frame its substituted text runs
    in. `base` holds the caller's own variables, which the text must leave alone. */
module Renaming {
  import opened Optional
  import opened JsExpression
  import opened HelperLanguage

  /** Parameters whose argument is missing: their uses become `undefined`. */
  predicate Dropped(rho: Substitution, x: string) {
    x in rho && rho[x] == UndefinedLit
  }

  predicate Carried(rho: Substitution, fr: Frame, fr2: Frame, x: string)
    requires x in fr
  {
    if Dropped(rho, x) then fr[x] == Init(Undefined)
    else SubstName(x, rho) in fr2 && fr2[SubstName(x, rho)] == fr[x]
  }

  ghost function Images(rho: Substitution, fr: Frame): set<string> {
    set x | x in fr && !Dropped(rho, x) :: SubstName(x, rho)
  }

  ghost predicate Injective(rho: Substitution, fr: Frame) {
    forall x, y | x in fr && y in fr && x != y && !Dropped(rho, x) && !Dropped(rho, y) ::
      SubstName(x, rho) != SubstName(y, rho)
  }

  ghost predicate Rel(rho: Substitution, fr: Frame, fr2: Frame, base: Frame) {
    && (forall x <- rho :: x in fr && (rho[x].Var? || rho[x] == UndefinedLit))
    && (forall x <- fr :: Carried(rho, fr, fr2, x))
    && Injective(rho, fr)
    && fr2.Keys == base.Keys
    && (forall z <- fr2 :: z in Images(rho, fr) || fr2[z] == base[z])
  }

  /** Names bound outside the helper body must not meet a binding of the caller. */
  ghost predicate Uncaptured(names: set<string>, fr: Frame, fr2: Frame) {
    forall x <- names :: x !in fr ==> x !in fr2
  }

  ghost predicate NoDroppedWrite(names: set<string>, rho: Substitution) {
    forall x <- names :: !Dropped(rho, x)
  }

  ghost predicate NoBinderClash(binders: set<string>, rho: Substitution) {
    forall x <- rho :: rho[x].Var? ==> rho[x].name !in binders
  }

  ghost predicate SameRun(
    rho: Substitution, base: Frame, w1: World, fr1: Frame, w2: World, fr2: Frame)
  {
    w1 == w2 && Rel(rho, fr1, fr2, base)
  }

  // ---------------------------------------------------------------- expressions

  lemma {:induction false} RelWrite(rho: Substitution, fr: Frame, fr2: Frame, base: Frame, x: string, c: Cell)
    requires Rel(rho, fr, fr2, base) && x in fr && !Dropped(rho, x)
    ensures SubstName(x, rho) in fr2
    ensures Rel(rho, fr[x := c], fr2[SubstName(x, rho) := c], base)
  {
    var y := SubstName(x, rho);
    var gr, gr2 := fr[x := c], fr2[y := c];
    assert Carried(rho, fr, fr2, x);
    assert y in Images(rho, fr);
    SameKeys(rho, fr, gr);
    hide Images;
    forall z <- gr ensures Carried(rho, gr, gr2, z) {
      assert Carried(rho, fr, fr2, z);
    }
    hide Injective;
  }

  lemma {:induction false} LookupRenamed(
    rho: Substitution, fr: Frame, fr2: Frame, base: Frame, w: World, m: Machine, x: string)
    requires Rel(rho, fr, fr2, base) && (x !in fr ==> x !in fr2)
    ensures EvalAtom(m, SubstAtom(Var(x), rho), State(fr2, w)).0 == Lookup(x, State(fr, w))
    ensures EvalAtom(m, SubstAtom(Var(x), rho), State(fr2, w)).1 == State(fr2, w)
  {
    if x in fr { assert Carried(rho, fr, fr2, x); }
  }

  lemma {:induction false} StoreRenamed(
    rho: Substitution, fr: Frame, fr2: Frame, base: Frame, w: World, x: string, v: Value)
    requires Rel(rho, fr, fr2, base) && (x !in fr ==> x !in fr2) && !Dropped(rho, x)
    ensures var (o1, s1) := Store(x, v, State(fr, w));
      var (o2, s2) := Store(SubstName(x, rho), v, State(fr2, w));
      o1 == o2 && SameRun(rho, base, s1.world, s1.frame, s2.world, s2.frame)
  {
    if x in fr {
      assert Carried(rho, fr, fr2, x);
      RelWrite(rho, fr, fr2, base, x, Init(v));
    }
  }

  lemma {:induction false} AtomRenamed(
    m: Machine, a: Atom, rho: Substitution, fr: Frame, fr2: Frame, base: Frame, w: World)
    requires Rel(rho, fr, fr2, base)
    requires Uncaptured(AtomNames(a), fr, fr2) && NoDroppedWrite(AtomWrites(a), rho)
    ensures var (o1, s1) := EvalAtom(m, a, State(fr, w));
      var (o2, s2) := EvalAtom(m, SubstAtom(a, rho), State(fr2, w));
      o1 == o2 && SameRun(rho, base, s1.world, s1.frame, s2.world, s2.frame)
    decreases a, 1
  {
    hide Rel;
    match a
    case Var(x) => LookupRenamed(rho, fr, fr2, base, w, m, x);
    case UndefinedLit =>
    case Lit(_) =>
    case Op(id, args) => AtomsRenamed(m, args, rho, fr, fr2, base, w);
    case Set(x, rhs) =>
      AtomRenamed(m, rhs, rho, fr, fr2, base, w);
      AtomKeepsScope(m, rhs, State(fr, w));
      AtomKeepsScope(m, SubstAtom(rhs, rho), State(fr2, w));
      var (o, s1) := EvalAtom(m, rhs, State(fr, w));
      var (_, s2) := EvalAtom(m, SubstAtom(rhs, rho), State(fr2, w));
      if o.Ok? {
        assert s2 == State(s2.frame, s1.world);
        StoreRenamed(rho, s1.frame, s2.frame, base, s1.world, x, o.v);
      }
  }

  lemma {:induction false} AtomsRenamed(
    m: Machine, args: seq<Atom>, rho: Substitution, fr: Frame, fr2: Frame, base: Frame, w: World)
    requires Rel(rho, fr, fr2, base)
    requires Uncaptured(AtomsNames(args), fr, fr2) && NoDroppedWrite(AtomsWrites(args), rho)
    ensures var (vs1, t1, s1) := EvalAtoms(m, args, State(fr, w));
      var (vs2, t2, s2) := EvalAtoms(m, SubstAtoms(args, rho), State(fr2, w));
      vs1 == vs2 && t1 == t2 && SameRun(rho, base, s1.world, s1.frame, s2.world, s2.frame)
    decreases args, 0
  {
    hide Rel;
    if args != [] {
      AtomRenamed(m, args[0], rho, fr, fr2, base, w);
      AtomKeepsScope(m, args[0], State(fr, w));
      AtomKeepsScope(m, SubstAtom(args[0], rho), State(fr2, w));
      var (_, s1) := EvalAtom(m, args[0], State(fr, w));
      var (_, s2) := EvalAtom(m, SubstAtom(args[0], rho), State(fr2, w));
      AtomsRenamed(m, args[1..], rho, s1.frame, s2.frame, base, s1.world);
    }
  }

  lemma {:induction false} ExprRenamed(
    m: Machine, e: Expr, rho: Substitution, fr: Frame, fr2: Frame, base: Frame, w: World)
    requires Rel(rho, fr, fr2, base)
    requires Uncaptured(ExprNames(e), fr, fr2) && NoDroppedWrite(ExprWrites(e), rho)
    ensures var (o1, s1) := Eval(m, e, State(fr, w));
      var (o2, s2) := Eval(m, SubstExpr(e, rho), State(fr2, w));
      o1 == o2 && SameRun(rho, base, s1.world, s1.frame, s2.world, s2.frame)
    decreases e, 1
  {
    hide Rel, EvalAtom, Compare;
    match e
    case Leaf(a) => AtomRenamed(m, a, rho, fr, fr2, base, w);
    case Paren(e1) => ExprRenamed(m, e1, rho, fr, fr2, base, w);
    case Not(e1) => ExprRenamed(m, e1, rho, fr, fr2, base, w);
    case Cmp(_, l, r) => PairRenamed(m, l, r, e, rho, fr, fr2, base, w);
    case And(l, r) => PairRenamed(m, l, r, e, rho, fr, fr2, base, w);
    case Or(l, r) => PairRenamed(m, l, r, e, rho, fr, fr2, base, w);
    case Cond(c, t, f) =>
      PairRenamed(m, c, t, e, rho, fr, fr2, base, w);
      PairRenamed(m, c, f, e, rho, fr, fr2, base, w);
  }

  /** Two operands in sequence. */
  lemma {:induction false} PairRenamed(
    m: Machine, l: Expr, r: Expr, e: Expr,
    rho: Substitution, fr: Frame, fr2: Frame, base: Frame, w: World)
    requires l < e && r < e && Rel(rho, fr, fr2, base)
    requires Uncaptured(ExprNames(l), fr, fr2) && NoDroppedWrite(ExprWrites(l), rho)
    requires Uncaptured(ExprNames(r), fr, fr2) && NoDroppedWrite(ExprWrites(r), rho)
    ensures var (o1, s1) := Eval(m, l, State(fr, w));
      var (o2, s2) := Eval(m, SubstExpr(l, rho), State(fr2, w));
      && o1 == o2 && SameRun(rho, base, s1.world, s1.frame, s2.world, s2.frame)
      && var (p1, u1) := Eval(m, r, s1);
         var (p2, u2) := Eval(m, SubstExpr(r, rho), s2);
         p1 == p2 && SameRun(rho, base, u1.world, u1.frame, u2.world, u2.frame)
    decreases e, 0
  {
    hide Rel;
    ExprRenamed(m, l, rho, fr, fr2, base, w);
    EvalKeepsScope(m, l, State(fr, w));
    EvalKeepsScope(m, SubstExpr(l, rho), State(fr2, w));
    var (_, s1) := Eval(m, l, State(fr, w));
    var (_, s2) := Eval(m, SubstExpr(l, rho), State(fr2, w));
    assert s2 == State(s2.frame, s1.world);
    ExprRenamed(m, r, rho, s1.frame, s2.frame, base, s1.world);
  }

  lemma {:induction false} ArgsRenamed(
    m: Machine, args: seq<Expr>, rho: Substitution, fr: Frame, fr2: Frame, base: Frame, w: World)
    requires Rel(rho, fr, fr2, base)
    requires Uncaptured(ArgsNames(args), fr, fr2) && NoDroppedWrite(ArgsWrites(args), rho)
    ensures var (vs1, t1, s1) := EvalArgs(m, args, State(fr, w));
      var (vs2, t2, s2) := EvalArgs(m, SubstArgs(args, rho), State(fr2, w));
      vs1 == vs2 && t1 == t2 && SameRun(rho, base, s1.world, s1.frame, s2.world, s2.frame)
  {
    hide Rel;
    if args != [] {
      ExprRenamed(m, args[0], rho, fr, fr2, base, w);
      EvalKeepsScope(m, args[0], State(fr, w));
      EvalKeepsScope(m, SubstExpr(args[0], rho), State(fr2, w));
      var (_, s1) := Eval(m, args[0], State(fr, w));
      var (_, s2) := Eval(m, SubstExpr(args[0], rho), State(fr2, w));
      ArgsRenamed(m, args[1..], rho, s1.frame, s2.frame, base, s1.world);
    }
  }

  // ---------------------------------------------------------------- scopes

  lemma {:induction false} SubstDeclared(body: seq<Stmt>, rho: Substitution)
    requires rho.Keys !! Declared(body)
    ensures Declared(SubstSeq(body, rho)) == Declared(body)
  {
    if body != [] {
      SubstDeclared(body[1..], rho);
    }
  }

  lemma {:induction false} SubstDeclaredClauses(cs: seq<Clause>, rho: Substitution)
    requires rho.Keys !! DeclaredClauses(cs)
    ensures DeclaredClauses(SubstClauses(cs, rho)) == DeclaredClauses(cs)
  {
    if cs != [] {
      SubstDeclared(cs[0].body, rho);
      SubstDeclaredClauses(cs[1..], rho);
    }
  }

  /** Where a name goes inside a scope that declares `names`. */
  lemma {:induction false} InnerName(rho: Substitution, names: set<string>, x: string)
    ensures Dropped(rho - names, x) == (x !in names && Dropped(rho, x))
    ensures SubstName(x, rho - names) == if x in names then x else SubstName(x, rho)
  {
  }

  lemma {:induction false} InnerInjective(rho: Substitution, fr: Frame, names: set<string>)
    requires Injective(rho, fr) && NoBinderClash(names, rho)
    ensures Injective(rho - names, Push(fr, names))
  {
    var sub, gr := rho - names, Push(fr, names);
    forall x, y | x in gr && y in gr && x != y && !Dropped(sub, x) && !Dropped(sub, y)
      ensures SubstName(x, sub) != SubstName(y, sub)
    {
      InnerName(rho, names, x);
      InnerName(rho, names, y);
    }
  }

  lemma {:induction false} RelPush(rho: Substitution, fr: Frame, fr2: Frame, base: Frame, names: set<string>)
    requires Rel(rho, fr, fr2, base) && NoBinderClash(names, rho)
    ensures Rel(rho - names, Push(fr, names), Push(fr2, names), Push(fr2, names))
  {
    hide Injective, Images;
    var sub, gr, gr2 := rho - names, Push(fr, names), Push(fr2, names);
    InnerInjective(rho, fr, names);
    forall x <- gr ensures Carried(sub, gr, gr2, x) {
      InnerName(rho, names, x);
      if x in fr { assert Carried(rho, fr, fr2, x); }
    }
  }

  /** A name outside the scope is an inner image only if it is an outer image. */
  lemma {:induction false} InnerImage(rho: Substitution, fr: Frame, gr: Frame, names: set<string>, z: string)
    requires gr.Keys == fr.Keys + names && z !in names && z in Images(rho - names, gr)
    ensures exists x :: x in fr && x !in names && !Dropped(rho, x) && SubstName(x, rho) == z
  {
    var x :| x in gr && !Dropped(rho - names, x) && SubstName(x, rho - names) == z;
    InnerName(rho, names, x);
  }

  lemma {:induction false} RelPop(
    rho: Substitution, fr: Frame, fr2: Frame, base: Frame, names: set<string>, gr: Frame, gr2: Frame)
    requires Rel(rho, fr, fr2, base) && NoBinderClash(names, rho)
    requires gr.Keys == fr.Keys + names && gr2.Keys == fr2.Keys + names
    requires Rel(rho - names, gr, gr2, Push(fr2, names))
    ensures Rel(rho, Pop(fr, gr, names), Pop(fr2, gr2, names), base)
  {
    var pr, pr2 := Pop(fr, gr, names), Pop(fr2, gr2, names);
    SameKeys(rho, fr, pr);
    forall x <- pr ensures Carried(rho, pr, pr2, x) {
      PopCarried(rho, fr, fr2, base, names, gr, gr2, x);
    }
    forall z <- pr2 | z !in Images(rho, pr) ensures pr2[z] == base[z] {
      PopBase(rho, fr, fr2, base, names, gr, gr2, z);
    }
  }

  lemma {:induction false} PopCarried(
    rho: Substitution, fr: Frame, fr2: Frame, base: Frame, names: set<string>, gr: Frame, gr2: Frame, x: string)
    requires Rel(rho, fr, fr2, base) && NoBinderClash(names, rho)
    requires gr.Keys == fr.Keys + names && gr2.Keys == fr2.Keys + names
    requires Rel(rho - names, gr, gr2, Push(fr2, names)) && x in fr
    ensures Carried(rho, Pop(fr, gr, names), Pop(fr2, gr2, names), x)
  {
    InnerName(rho, names, x);
    assert Carried(rho, fr, fr2, x);
    assert Carried(rho - names, gr, gr2, x);
    var y := SubstName(x, rho);
    if x in names && x in rho && !Dropped(rho, x) && y in Images(rho - names, gr) {
      InnerImage(rho, fr, gr, names, y);
    }
  }

  lemma {:induction false} PopBase(
    rho: Substitution, fr: Frame, fr2: Frame, base: Frame, names: set<string>, gr: Frame, gr2: Frame, z: string)
    requires Rel(rho, fr, fr2, base) && NoBinderClash(names, rho)
    requires gr.Keys == fr.Keys + names && gr2.Keys == fr2.Keys + names
    requires Rel(rho - names, gr, gr2, Push(fr2, names)) && z in fr2 && z !in Images(rho, fr)
    ensures Pop(fr2, gr2, names)[z] == base[z]
  {
    if z !in names && z in Images(rho - names, gr) {
      InnerImage(rho, fr, gr, names, z);
    }
  }

  lemma {:induction false} SameKeys(rho: Substitution, fr: Frame, gr: Frame)
    requires fr.Keys == gr.Keys
    ensures Images(rho, fr) == Images(rho, gr) && Injective(rho, fr) == Injective(rho, gr)
  {
  }

  // ---------------------------------------------------------------- statements

  ghost predicate Renamable(
    free: set<string>, writes: set<string>, binders: set<string>,
    rho: Substitution, fr: Frame, fr2: Frame)
  {
    Uncaptured(free, fr, fr2) && NoDroppedWrite(writes, rho) && NoBinderClash(binders, rho)
  }

  /** Parts of a statement are renamable where the whole is, before and after other parts run. */
  lemma {:induction false} Narrow(
    free: set<string>, writes: set<string>, binders: set<string>,
    free1: set<string>, writes1: set<string>, binders1: set<string>,
    rho: Substitution, fr: Frame, fr2: Frame, gr: Frame, gr2: Frame)
    requires Renamable(free, writes, binders, rho, fr, fr2)
    requires free1 <= free && writes1 <= writes && binders1 <= binders
    requires fr.Keys == gr.Keys && fr2.Keys == gr2.Keys
    ensures Renamable(free1, writes1, binders1, rho, gr, gr2)
  {
  }

  lemma {:induction false} InnerRenamable(
    free: set<string>, writes: set<string>, binders: set<string>, names: set<string>,
    rho: Substitution, fr: Frame, fr2: Frame)
    requires Renamable(free - names, writes - names, binders, rho, fr, fr2)
    ensures Renamable(free, writes, binders, rho - names, Push(fr, names), Push(fr2, names))
  {
    forall x <- writes ensures !Dropped(rho - names, x) {
      InnerName(rho, names, x);
      if x !in names { assert x in writes - names; }
    }
  }

  ghost predicate SameOutcome(
    rho: Substitution, base: Frame, r1: (Completion, State), r2: (Completion, State))
  {
    r1.0 == r2.0 && r1.1.world == r2.1.world && Rel(rho, r1.1.frame, r2.1.frame, base)
  }

  /** `ExprRenamed`, with the scopes unchanged. */
  lemma {:induction false} EvalRenamed(
    m: Machine, e: Expr, rho: Substitution, fr: Frame, fr2: Frame, base: Frame, w: World)
    requires Rel(rho, fr, fr2, base)
    requires Uncaptured(ExprNames(e), fr, fr2) && NoDroppedWrite(ExprWrites(e), rho)
    ensures var (o1, s1) := Eval(m, e, State(fr, w));
      var (o2, s2) := Eval(m, SubstExpr(e, rho), State(fr2, w));
      && o1 == o2 && s2 == State(s2.frame, s1.world) && Rel(rho, s1.frame, s2.frame, base)
      && s1.frame.Keys == fr.Keys && s2.frame.Keys == fr2.Keys
  {
    hide Rel;
    ExprRenamed(m, e, rho, fr, fr2, base, w);
    EvalKeepsScope(m, e, State(fr, w));
    EvalKeepsScope(m, SubstExpr(e, rho), State(fr2, w));
  }

  /** Running substituted text in the caller's frame does what the original does in the
      helper's: same completion, same effects, and the caller's other variables untouched. */
  lemma {:induction false} RunRenamed(
    env: Env, s: Stmt, labels: set<string>, fuel: nat,
    rho: Substitution, fr: Frame, fr2: Frame, base: Frame, w: World)
    requires Rel(rho, fr, fr2, base)
    requires Renamable(Free(s), Writes(s), Binders(s), rho, fr, fr2)
    ensures SameOutcome(rho, base,
      Run(env, s, labels, State(fr, w), fuel),
      Run(env, SubstStmt(s, rho), labels, State(fr2, w), fuel))
    decreases fuel, Depth(env), s, 1
  {
    hide Rel, Eval, EvalArgs, SubstExpr, SubstArgs, ExprNames, ExprWrites, ArgsNames, ArgsWrites;
    match s
    case Do(e) => EvalRenamed(env.m, e, rho, fr, fr2, base, w);
    case Declare(x, e) => DeclareRenamed(env, s, labels, fuel, rho, fr, fr2, base, w);
    case Return(None) =>
    case Return(Some(e)) => EvalRenamed(env.m, e, rho, fr, fr2, base, w);
    case Break(_) =>
    case Continue(_) =>
    case If(_, _, _) => IfRenamed(env, s, labels, fuel, rho, fr, fr2, base, w);
    case Block(body) => ScopeRenamed(env, body, fuel, rho, fr, fr2, base, w);
    case While(c, body) => WhileRenamed(env, s, labels, fuel, rho, fr, fr2, base, w);
    case Switch(on, cs) => SwitchRenamed(env, s, labels, fuel, rho, fr, fr2, base, w);
    case Labeled(l, s1) => RunRenamed(env, s1, labels + {l}, fuel, rho, fr, fr2, base, w);
    case Nested(body) => ScopeRenamed(env, body, fuel, rho, fr, fr2, base, w);
    case Call(args) => ArgsRenamed(env.m, args, rho, fr, fr2, base, w);
  }

  lemma {:induction false} IfRenamed(
    env: Env, s: Stmt, labels: set<string>, fuel: nat,
    rho: Substitution, fr: Frame, fr2: Frame, base: Frame, w: World)
    requires s.If? && Rel(rho, fr, fr2, base)
    requires Renamable(Free(s), Writes(s), Binders(s), rho, fr, fr2)
    ensures SameOutcome(rho, base,
      Run(env, s, labels, State(fr, w), fuel),
      Run(env, SubstStmt(s, rho), labels, State(fr2, w), fuel))
    decreases fuel, Depth(env), s, 0
  {
    hide Rel, Eval, EvalArgs, SubstExpr, SubstArgs, ExprNames, ExprWrites, ArgsNames, ArgsWrites;
    var c, t, f := s.c, s.t, s.f;
    EvalRenamed(env.m, c, rho, fr, fr2, base, w);
    var (v, s1) := Test(env.m, c, State(fr, w));
    var (_, s2) := Test(env.m, SubstExpr(c, rho), State(fr2, w));
    assert s2 == State(s2.frame, s1.world);
    if v == Yes {
      RunRenamed(env, t, {}, fuel, rho, s1.frame, s2.frame, base, s1.world);
    } else if v == No && f.Some? {
      RunRenamed(env, f.value, {}, fuel, rho, s1.frame, s2.frame, base, s1.world);
    }
  }

  lemma {:induction false} DeclareRenamed(
    env: Env, s: Stmt, labels: set<string>, fuel: nat,
    rho: Substitution, fr: Frame, fr2: Frame, base: Frame, w: World)
    requires s.Declare? && Rel(rho, fr, fr2, base)
    requires Renamable(Free(s), Writes(s), Binders(s), rho, fr, fr2)
    ensures SameOutcome(rho, base,
      Run(env, s, labels, State(fr, w), fuel),
      Run(env, SubstStmt(s, rho), labels, State(fr2, w), fuel))
  {
    var x, e := s.name, s.init;
    EvalRenamed(env.m, e, rho, fr, fr2, base, w);
    var (o, s1) := Eval(env.m, e, State(fr, w));
    var (_, s2) := Eval(env.m, SubstExpr(e, rho), State(fr2, w));
    assert x in Free(s) && x in Writes(s);
    if x in fr {
      RelWrite(rho, s1.frame, s2.frame, base, x, Init(o.v));
    }
  }

  lemma {:induction false} ScopeRenamed(
    env: Env, body: seq<Stmt>, fuel: nat,
    rho: Substitution, fr: Frame, fr2: Frame, base: Frame, w: World)
    requires Rel(rho, fr, fr2, base)
    requires Renamable(
      FreeSeq(body) - Declared(body), WritesSeq(body) - Declared(body), BindersSeq(body), rho, fr, fr2)
    ensures SameOutcome(rho, base,
      RunScope(env, body, State(fr, w), fuel),
      RunScope(env, SubstSeq(body, rho - Declared(body)), State(fr2, w), fuel))
    decreases fuel, Depth(env), body, 2
  {
    hide Rel, Eval, EvalArgs, SubstExpr, SubstArgs, ExprNames, ExprWrites, ArgsNames, ArgsWrites;
    var d := Declared(body);
    RelPush(rho, fr, fr2, base, d);
    SubstDeclared(body, rho - d);
    InnerRenamable(FreeSeq(body), WritesSeq(body), BindersSeq(body), d, rho, fr, fr2);
    SeqRenamed(env, body, fuel, rho - d, Push(fr, d), Push(fr2, d), Push(fr2, d), w);
    var r1 := RunSeq(env, body, State(Push(fr, d), w), fuel);
    var r2 := RunSeq(env, SubstSeq(body, rho - d), State(Push(fr2, d), w), fuel);
    RelPop(rho, fr, fr2, base, d, r1.1.frame, r2.1.frame);
  }

  lemma {:induction false} SeqRenamed(
    env: Env, body: seq<Stmt>, fuel: nat,
    rho: Substitution, fr: Frame, fr2: Frame, base: Frame, w: World)
    requires Rel(rho, fr, fr2, base)
    requires Renamable(FreeSeq(body), WritesSeq(body), BindersSeq(body), rho, fr, fr2)
    ensures SameOutcome(rho, base,
      RunSeq(env, body, State(fr, w), fuel),
      RunSeq(env, SubstSeq(body, rho), State(fr2, w), fuel))
    decreases fuel, Depth(env), body, 1
  {
    hide Rel, Eval, EvalArgs, SubstExpr, SubstArgs, ExprNames, ExprWrites, ArgsNames, ArgsWrites;
    if body != [] {
      Narrow(FreeSeq(body), WritesSeq(body), BindersSeq(body),
        Free(body[0]), Writes(body[0]), Binders(body[0]), rho, fr, fr2, fr, fr2);
      RunRenamed(env, body[0], {}, fuel, rho, fr, fr2, base, w);
      var (k, s1) := Run(env, body[0], {}, State(fr, w), fuel);
      var (_, s2) := Run(env, SubstStmt(body[0], rho), {}, State(fr2, w), fuel);
      assert s2 == State(s2.frame, s1.world);
      if k == Normal {
        Narrow(FreeSeq(body), WritesSeq(body), BindersSeq(body),
          FreeSeq(body[1..]), WritesSeq(body[1..]), BindersSeq(body[1..]), rho, fr, fr2, s1.frame, s2.frame);
        SeqRenamed(env, body[1..], fuel, rho, s1.frame, s2.frame, base, s1.world);
      }
    }
  }

  lemma {:induction false} WhileRenamed(
    env: Env, s: Stmt, labels: set<string>, fuel: nat,
    rho: Substitution, fr: Frame, fr2: Frame, base: Frame, w: World)
    requires s.While? && Rel(rho, fr, fr2, base)
    requires Renamable(Free(s), Writes(s), Binders(s), rho, fr, fr2)
    ensures SameOutcome(rho, base,
      Run(env, s, labels, State(fr, w), fuel),
      Run(env, SubstStmt(s, rho), labels, State(fr2, w), fuel))
    decreases fuel, Depth(env), s, 0
  {
    hide Rel, Eval, EvalArgs, SubstExpr, SubstArgs, ExprNames, ExprWrites, ArgsNames, ArgsWrites;
    if fuel > 0 {
      var c, body := s.c, s.loopBody;
      EvalRenamed(env.m, c, rho, fr, fr2, base, w);
      var (v, s1) := Test(env.m, c, State(fr, w));
      var (_, s2) := Test(env.m, SubstExpr(c, rho), State(fr2, w));
      assert s2 == State(s2.frame, s1.world);
      if v == Yes {
        Narrow(Free(s), Writes(s), Binders(s), Free(body), Writes(body), Binders(body),
          rho, fr, fr2, s1.frame, s2.frame);
        Narrow(Free(s), Writes(s), Binders(s), Free(s), Writes(s), Binders(s),
          rho, fr, fr2, s1.frame, s2.frame);
        hide Renamable, Free, Writes, Binders;
        RunRenamed(env, body, {}, fuel, rho, s1.frame, s2.frame, base, s1.world);
        var (k, u1) := Run(env, body, {}, s1, fuel);
        var (_, u2) := Run(env, SubstStmt(body, rho), {}, s2, fuel);
        assert u2 == State(u2.frame, u1.world);
        Narrow(Free(s), Writes(s), Binders(s), Free(s), Writes(s), Binders(s),
          rho, s1.frame, s2.frame, u1.frame, u2.frame);
        if NextRound(k, labels) {
          RunRenamed(env, s, labels, fuel - 1, rho, u1.frame, u2.frame, base, u1.world);
        }
      }
    }
  }

  lemma {:induction false} SubstSelect(v: Value, cs: seq<Clause>, rho: Substitution)
    ensures Select(v, SubstClauses(cs, rho)) == Select(v, cs)
  {
    SubstMatching(Some(v), cs, rho);
    SubstMatching(None, cs, rho);
  }

  lemma {:induction false} SubstMatching(test: Option<Value>, cs: seq<Clause>, rho: Substitution)
    ensures Matching(test, SubstClauses(cs, rho)) == Matching(test, cs)
  {
    if cs != [] { SubstMatching(test, cs[1..], rho); }
  }

  /** A switch once its subject has a value. */
  function AfterSubject(env: Env, cs: seq<Clause>, o: Outcome, s1: State, fuel: nat): (Completion, State)
  {
    if o.Throw? then (Raised(o.v), s1) else
    match Select(o.v, cs)
    case None => (Normal, s1)
    case Some(k) =>
      var d := DeclaredClauses(cs);
      var (c, s2) := RunClauses(env, cs, k, s1.(frame := Push(s1.frame, d)), fuel);
      (if c == Broke(None) then Normal else c, s2.(frame := Pop(s1.frame, s2.frame, d)))
  }

  lemma {:induction false} SwitchStep(env: Env, on: Expr, cs: seq<Clause>, labels: set<string>, st: State, fuel: nat)
    ensures Run(env, Switch(on, cs), labels, st, fuel)
      == AfterSubject(env, cs, Eval(env.m, on, st).0, Eval(env.m, on, st).1, fuel)
  {
    hide Eval, Select;
  }

  lemma {:induction false} SwitchNames(on: Expr, cs: seq<Clause>, rho: Substitution, fr: Frame, fr2: Frame)
    requires Renamable(Free(Switch(on, cs)), Writes(Switch(on, cs)), Binders(Switch(on, cs)), rho, fr, fr2)
    ensures Uncaptured(ExprNames(on), fr, fr2) && NoDroppedWrite(ExprWrites(on), rho)
    ensures Renamable(FreeClauses(cs) - DeclaredClauses(cs), WritesClauses(cs) - DeclaredClauses(cs),
      BindersClauses(cs), rho, fr, fr2)
  {
    hide ExprNames, ExprWrites, FreeClauses, WritesClauses, BindersClauses, DeclaredClauses;
  }

  lemma {:induction false} SwitchRenamed(
    env: Env, s: Stmt, labels: set<string>, fuel: nat,
    rho: Substitution, fr: Frame, fr2: Frame, base: Frame, w: World)
    requires s.Switch? && Rel(rho, fr, fr2, base)
    requires Renamable(Free(s), Writes(s), Binders(s), rho, fr, fr2)
    ensures SameOutcome(rho, base,
      Run(env, s, labels, State(fr, w), fuel),
      Run(env, SubstStmt(s, rho), labels, State(fr2, w), fuel))
    decreases fuel, Depth(env), s, 0
  {
    var on, cs := s.on, s.clauses;
    var d := DeclaredClauses(cs);
    var on2, cs2 := SubstExpr(on, rho), SubstClauses(cs, rho - d);
    assert SubstStmt(s, rho) == Switch(on2, cs2);
    assert s == Switch(on, cs);
    hide *;
    SwitchStep(env, on, cs, labels, State(fr, w), fuel);
    SwitchStep(env, on2, cs2, labels, State(fr2, w), fuel);
    SwitchNames(on, cs, rho, fr, fr2);
    EvalRenamed(env.m, on, rho, fr, fr2, base, w);
    var (o, s1) := Eval(env.m, on, State(fr, w));
    var (_, s2) := Eval(env.m, on2, State(fr2, w));
    KeepRenamable(FreeClauses(cs) - d, WritesClauses(cs) - d, BindersClauses(cs), rho, fr, fr2, s1.frame, s2.frame);
    assert s1 == State(s1.frame, s1.world);
    SubjectRenamed(env, cs, o, fuel, rho, s1.frame, s2.frame, base, s1.world);
  }

  lemma {:induction false} SubjectRenamed(
    env: Env, cs: seq<Clause>, o: Outcome, fuel: nat,
    rho: Substitution, fr: Frame, fr2: Frame, base: Frame, w: World)
    requires Rel(rho, fr, fr2, base)
    requires Renamable(FreeClauses(cs) - DeclaredClauses(cs), WritesClauses(cs) - DeclaredClauses(cs),
      BindersClauses(cs), rho, fr, fr2)
    ensures SameOutcome(rho, base,
      AfterSubject(env, cs, o, State(fr, w), fuel),
      AfterSubject(env, SubstClauses(cs, rho - DeclaredClauses(cs)), o, State(fr2, w), fuel))
    decreases fuel, Depth(env), cs, 3
  {
    hide Rel, SubstClauses, Renamable, Select, RunClauses, Push, Pop, DeclaredClauses;
    if o.Ok? {
      SubstSelect(o.v, cs, rho - DeclaredClauses(cs));
      NothingDeclaredLost(cs, rho);
      var chosen := Select(o.v, cs);
      if chosen.Some? {
        CaseBlockRenamed(env, cs, chosen.value, fuel, rho, fr, fr2, base, w);
      }
    }
  }

  lemma {:induction false} NothingDeclaredLost(cs: seq<Clause>, rho: Substitution)
    ensures DeclaredClauses(SubstClauses(cs, rho - DeclaredClauses(cs))) == DeclaredClauses(cs)
  {
    SubstDeclaredClauses(cs, rho - DeclaredClauses(cs));
  }

  lemma {:induction false} KeepRenamable(
    free: set<string>, writes: set<string>, binders: set<string>,
    rho: Substitution, fr: Frame, fr2: Frame, gr: Frame, gr2: Frame)
    requires Renamable(free, writes, binders, rho, fr, fr2) && fr.Keys == gr.Keys && fr2.Keys == gr2.Keys
    ensures Renamable(free, writes, binders, rho, gr, gr2)
  {
    Narrow(free, writes, binders, free, writes, binders, rho, fr, fr2, gr, gr2);
  }

  lemma {:induction false} CaseBlockRenamed(
    env: Env, cs: seq<Clause>, k: nat, fuel: nat,
    rho: Substitution, fr: Frame, fr2: Frame, base: Frame, w: World)
    requires k <= |cs| && Rel(rho, fr, fr2, base)
    requires Renamable(FreeClauses(cs) - DeclaredClauses(cs), WritesClauses(cs) - DeclaredClauses(cs),
      BindersClauses(cs), rho, fr, fr2)
    ensures var d := DeclaredClauses(cs);
      var (c1, s1) := RunClauses(env, cs, k, State(Push(fr, d), w), fuel);
      var (c2, s2) := RunClauses(env, SubstClauses(cs, rho - d), k, State(Push(fr2, d), w), fuel);
      && c1 == c2 && s1.world == s2.world
      && Rel(rho, Pop(fr, s1.frame, d), Pop(fr2, s2.frame, d), base)
    decreases fuel, Depth(env), cs, 2
  {
    hide Rel;
    var d := DeclaredClauses(cs);
    RelPush(rho, fr, fr2, base, d);
    InnerRenamable(FreeClauses(cs), WritesClauses(cs), BindersClauses(cs), d, rho, fr, fr2);
    ClausesRenamed(env, cs, k, fuel, rho - d, Push(fr, d), Push(fr2, d), Push(fr2, d), w);
    var r1 := RunClauses(env, cs, k, State(Push(fr, d), w), fuel);
    var r2 := RunClauses(env, SubstClauses(cs, rho - d), k, State(Push(fr2, d), w), fuel);
    RelPop(rho, fr, fr2, base, d, r1.1.frame, r2.1.frame);
  }

  lemma {:induction false} ClauseNames(cs: seq<Clause>, k: nat)
    requires k < |cs|
    ensures FreeSeq(cs[k].body) <= FreeClauses(cs)
    ensures WritesSeq(cs[k].body) <= WritesClauses(cs)
    ensures BindersSeq(cs[k].body) <= BindersClauses(cs)
  {
    if k > 0 {
      assert cs[k] == cs[1..][k - 1];
      ClauseNames(cs[1..], k - 1);
    }
  }

  lemma {:induction false} ClausesRenamed(
    env: Env, cs: seq<Clause>, k: nat, fuel: nat,
    rho: Substitution, fr: Frame, fr2: Frame, base: Frame, w: World)
    requires k <= |cs| && Rel(rho, fr, fr2, base)
    requires Renamable(FreeClauses(cs), WritesClauses(cs), BindersClauses(cs), rho, fr, fr2)
    ensures SameOutcome(rho, base,
      RunClauses(env, cs, k, State(fr, w), fuel),
      RunClauses(env, SubstClauses(cs, rho), k, State(fr2, w), fuel))
    decreases fuel, Depth(env), cs, 1, |cs| - k
  {
    hide Rel;
    if k < |cs| {
      ClauseNames(cs, k);
      Narrow(FreeClauses(cs), WritesClauses(cs), BindersClauses(cs),
        FreeSeq(cs[k].body), WritesSeq(cs[k].body), BindersSeq(cs[k].body), rho, fr, fr2, fr, fr2);
      hide FreeClauses, WritesClauses, BindersClauses, FreeSeq, WritesSeq, BindersSeq;
      SeqRenamed(env, cs[k].body, fuel, rho, fr, fr2, base, w);
      var (c, s1) := RunSeq(env, cs[k].body, State(fr, w), fuel);
      var (_, s2) := RunSeq(env, SubstSeq(cs[k].body, rho), State(fr2, w), fuel);
      assert s2 == State(s2.frame, s1.world);
      if c == Normal {
        Narrow(FreeClauses(cs), WritesClauses(cs), BindersClauses(cs),
          FreeClauses(cs), WritesClauses(cs), BindersClauses(cs), rho, fr, fr2, s1.frame, s2.frame);
        hide Renamable;
        ClausesRenamed(env, cs, k + 1, fuel, rho, s1.frame, s2.frame, base, s1.world);
      }
    }
  }
}
