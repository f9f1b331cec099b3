/** The main result of the inliner, put together from hoisting, guard inversion, escape
    analysis and renaming. */
module InlineTheorem {
  import opened Numbers
  import opened Optional
  import opened JsExpression
  import opened HelperLanguage
  import opened GuardText
  import opened GuardInversion
  import opened GuardExactness
  import opened EscapeAnalysis
  import opened FreshNames
  import opened InlinePlan
  import opened Renaming
  import opened Weakening
  import opened InlineCorrect

  // ---------------------------------------------------------------- invertible guards

  /** Flipping comparators is safe: either the values are totally ordered, or no guard flips
      a comparison that an unordered JavaScript value can reach. */
  ghost predicate Invertible(m: Machine, guards: seq<Expr>) {
    || (forall x, y :: m.less(x, y).Some?)
    || (JsMachine(m) && forall g <- guards :: NoUnorderedFlip(g))
  }

  lemma {:induction e} SubstOrdered(e: Expr, rho: Substitution, truthy: bool)
    ensures MayBeUnordered(SubstExpr(e, rho), truthy) == MayBeUnordered(e, truthy)
  {
  }

  lemma {:induction false} SubstNoUnorderedFlip(e: Expr, rho: Substitution)
    ensures NoUnorderedFlip(SubstExpr(e, rho)) == NoUnorderedFlip(e)
  {
    match e
    case Paren(e1) => SubstNoUnorderedFlip(e1, rho);
    case And(l, r) => SubstNoUnorderedFlip(l, rho); SubstNoUnorderedFlip(r, rho);
    case Or(l, r) => SubstNoUnorderedFlip(l, rho); SubstNoUnorderedFlip(r, rho);
    case Cmp(_, l, r) =>
      SubstOrdered(l, rho, true);
      SubstOrdered(l, rho, false);
      SubstOrdered(r, rho, true);
      SubstOrdered(r, rho, false);
    case _ =>
  }

  lemma {:induction false} InvertibleClean(m: Machine, guards: seq<Expr>, rho: Substitution, s: State)
    requires Invertible(m, guards)
    ensures CleanGuards(m, guards, rho, s)
  {
    if guards != [] {
      var last := |guards| - 1;
      InvertibleClean(m, guards[..last], rho, s);
      var (_, s1) := RunGuards(m, guards[..last], rho, s);
      if forall x, y :: m.less(x, y).Some? {
        TotalOrderClean(m, SubstExpr(guards[last], rho), s1);
      } else {
        SubstNoUnorderedFlip(guards[last], rho);
        StaticallyClean(m, SubstExpr(guards[last], rho), s1);
      }
    }
  }

  // ---------------------------------------------------------------- the body's own names

  lemma {:induction false} GuardsDeclareNothing(body: seq<Stmt>, n: nat)
    requires n <= GuardCount(body)
    ensures Declared(body[..n]) == {}
    ensures FreeSeq(body[..n]) == ArgsNames(Guards(body)[..n])
    ensures WritesSeq(body[..n]) == ArgsWrites(Guards(body)[..n])
  {
    if n > 0 {
      GuardsDeclareNothing(body, n - 1);
      assert body[..n] == body[..n - 1] + [body[n - 1]];
      assert Guards(body)[..n] == Guards(body)[..n - 1] + [Guards(body)[n - 1]];
      FreeConcat(body[..n - 1], [body[n - 1]]);
      ArgsConcat(Guards(body)[..n - 1], [Guards(body)[n - 1]]);
      GuardNames(body[n - 1], Guards(body)[n - 1]);
    }
  }

  lemma {:induction false} GuardNames(guard: Stmt, c: Expr)
    requires AsGuard(guard) == Some(c)
    ensures FreeSeq([guard]) == ArgsNames([c]) && WritesSeq([guard]) == ArgsWrites([c])
    ensures Declared([guard]) == {}
  {
    assert Free(Return(None)) == {} && Writes(Return(None)) == {};
    assert FreeSeq([Return(None)]) == {} && WritesSeq([Return(None)]) == {};
    assert Free(guard.t) == {} && Writes(guard.t) == {};
  }

  lemma {:induction false} ArgsConcat(a: seq<Expr>, b: seq<Expr>)
    ensures ArgsNames(a + b) == ArgsNames(a) + ArgsNames(b)
    ensures ArgsWrites(a + b) == ArgsWrites(a) + ArgsWrites(b)
  {
    if a == [] {
      assert a + b == b;
    } else {
      assert (a + b)[1..] == a[1..] + b;
      ArgsConcat(a[1..], b);
    }
  }

  lemma {:induction false} BodyNames(body: seq<Stmt>)
    ensures Declared(body) == Declared(TailOf(body))
    ensures FreeSeq(body) == ArgsNames(Guards(body)) + FreeSeq(TailOf(body))
    ensures WritesSeq(body) == ArgsWrites(Guards(body)) + WritesSeq(TailOf(body))
    ensures BindersSeq(TailOf(body)) <= BindersSeq(body)
  {
    var n := GuardCount(body);
    GuardsDeclareNothing(body, n);
    assert Guards(body)[..n] == Guards(body);
    assert body == body[..n] + body[n..];
    FreeConcat(body[..n], body[n..]);
  }

  lemma {:induction false} TailNoCalls(body: seq<Stmt>, n: nat)
    requires NoCallsSeq(body) && n <= |body|
    ensures NoCallsSeq(body[n..])
  {
    if n > 0 {
      assert body[n..] == body[1..][n - 1..];
      TailNoCalls(body[1..], n - 1);
    }
  }

  /** Names the body takes from outside the helper. */
  function OuterNames(h: Helper): set<string> {
    (FreeSeq(h.body) - Declared(h.body)) - (set p | p in h.params)
  }

  /** Every name written in the body. */
  function BodyIdentifiers(h: Helper): set<string> {
    FreeSeq(h.body) + BindersSeq(h.body)
  }

  // ---------------------------------------------------------------- guarded helpers

  /** The helper's run, on the used parameters only. */
  lemma {:induction false} HelperRun(env: Env, h: Helper, vs: seq<Value>, w: World, fuel: nat)
    requires Syntactic(h) && env == Env(env.m, None)
    ensures var d := Declared(h.body);
      var (k1, s1) := RunSeq(env, h.body, State(HelperFrame(h, vs), w), fuel);
      var (k2, s2) := RunSeq(env, h.body, State(Push(UsedFrame(h, vs), d), w), fuel);
      k1 == k2 && s1.world == s2.world
  {
    UnusedDropped(h, vs);
    SeqAgree(env, h.body, fuel, Unused(h), HelperFrame(h, vs), Push(UsedFrame(h, vs), Declared(h.body)), w);
  }

  /** Guards that do not mention the tail's locals run the same without them in scope. */
  lemma {:induction false} GuardsOutsideTail(m: Machine, guards: seq<Expr>, d: set<string>, fr: Frame, w: World)
    requires ArgsNames(guards) !! d && fr.Keys !! d
    ensures var (v1, s1) := RunGuards(m, guards, IDENTITY, State(Push(fr, d), w));
      var (v2, s2) := RunGuards(m, guards, IDENTITY, State(fr, w));
      v1 == v2 && s1 == State(Push(s2.frame, d), s2.world) && s2.frame.Keys == fr.Keys
  {
    GuardsAgree(m, guards, |guards|, d, Push(fr, d), fr, w);
    assert guards[..|guards|] == guards;
    var (_, s1) := RunGuards(m, guards, IDENTITY, State(Push(fr, d), w));
    var (_, s2) := RunGuards(m, guards, IDENTITY, State(fr, w));
    assert s2.frame - d == s2.frame && s1.frame - d == s2.frame;
    assert s1.frame == Push(s2.frame, d);
  }

  ghost predicate ScopesApart(h: Helper, plan: Plan, args: seq<Expr>, taken: set<string>, b: Frame) {
    && OuterNames(h) !! b.Keys
    && plan.taken - taken <= b.Keys
    && (plan.taken - taken) !! BodyIdentifiers(h)
  }

  /** The guards, in the helper's frame and as one condition in the caller's. */
  lemma {:induction false} GuardPhase(
    m: Machine, h: Helper, args: seq<Expr>, vs: seq<Value>, taken: set<string>, b: Frame, w: World)
    requires Accepted(h) && Syntactic(h) && Guards(h.body) != [] && Invertible(m, Guards(h.body))
    requires ArgsNames(Guards(h.body)) !! Declared(h.body)
    requires |args| <= |h.params| && |vs| == |args|
    requires var plan := Hoist(h, args, |h.params|, taken);
      ScopesApart(h, plan, args, taken, b) && Holds(h, args, plan.rho, |h.params|, vs, b)
    ensures var plan := Hoist(h, args, |h.params|, taken);
      var d := Declared(h.body);
      var (v0, g0) := RunGuards(m, Guards(h.body), IDENTITY, State(Push(UsedFrame(h, vs), d), w));
      var (v1, g1) := RunGuards(m, Guards(h.body), IDENTITY, State(UsedFrame(h, vs), w));
      var (v2, g2) := Test(m, CombineTree(Guards(h.body), plan.rho), State(b, w));
      && v0 == v1 == v2 && g0 == State(Push(g1.frame, d), g1.world) && g2 == State(g2.frame, g1.world)
      && Rel(plan.rho, g1.frame, g2.frame, b)
      && g1.frame.Keys == plan.rho.Keys && g2.frame.Keys == b.Keys
  {
    hide Rel;
    var plan := Hoist(h, args, |h.params|, taken);
    var guards, d, fr := Guards(h.body), Declared(h.body), UsedFrame(h, vs);
    HoistedRel(h, args, vs, taken, b);
    PlanRenamable(h, args, taken, fr, b);
    GuardsOutsideTail(m, guards, d, fr, w);
    GuardsRenamed(m, guards, |guards|, plan.rho, fr, b, b, w);
    assert guards[..|guards|] == guards;
    InvertibleClean(m, guards, plan.rho, State(b, w));
    CombinedGuards(m, guards, plan.rho, State(b, w));
  }

  /** The tail, in the helper's scope and as a substituted block in the caller's. */
  lemma {:induction false} TailPhase(
    env: Env, h: Helper, args: seq<Expr>, taken: set<string>,
    g1: Frame, g2: Frame, b: Frame, w: World, fuel: nat)
    requires Accepted(h) && Syntactic(h) && |args| <= |h.params|
    requires var plan := Hoist(h, args, |h.params|, taken);
      && ScopesApart(h, plan, args, taken, b) && Rel(plan.rho, g1, g2, b)
      && g1.Keys == plan.rho.Keys && g2.Keys == b.Keys
    ensures var plan := Hoist(h, args, |h.params|, taken);
      var d, tail := Declared(h.body), TailOf(h.body);
      var (k1, s1) := RunSeq(Env(env.m, None), tail, State(Push(g1, d), w), fuel);
      var (k2, s2) := Run(env, Block(SubstSeq(tail, plan.rho - Declared(tail))), {}, State(g2, w), fuel);
      && k1 == k2 && Contained(k1) && s1.world == s2.world
      && Kept(b.Keys - (plan.taken - taken), b, s2.frame)
  {
    hide Rel;
    var plan := Hoist(h, args, |h.params|, taken);
    var tail, d := TailOf(h.body), Declared(h.body);
    TailRenamable(h, args, taken, g1, g2, b);
    TailNoCalls(h.body, GuardCount(h.body));
    SeqNoCalls(env, tail, State(Push(g1, d), w), fuel);
    TailNeverEscapes(Env(env.m, None), tail, State(Push(g1, d), w), fuel);
    hide Renamable, ScopesApart, Accepted, FreeSeq, WritesSeq, BindersSeq, Kept, Declared;
    ScopeRenamed(env, tail, fuel, plan.rho, g1, g2, b, w);
    var (_, t1) := RunScope(env, tail, State(g1, w), fuel);
    var (_, t2) := RunScope(env, SubstSeq(tail, plan.rho - d), State(g2, w), fuel);
    ImagesAreTemps(h, args, taken, t1.frame, t2.frame, b);
  }

  lemma {:induction false} GuardedBody(
    env: Env, h: Helper, args: seq<Expr>, vs: seq<Value>, taken: set<string>, b: Frame, w: World, fuel: nat)
    requires Accepted(h) && Syntactic(h) && Guards(h.body) != [] && Invertible(env.m, Guards(h.body))
    requires ArgsNames(Guards(h.body)) !! Declared(h.body)
    requires |args| <= |h.params| && |vs| == |args|
    requires var plan := Hoist(h, args, |h.params|, taken);
      ScopesApart(h, plan, args, taken, b) && Holds(h, args, plan.rho, |h.params|, vs, b)
    ensures var plan := Hoist(h, args, |h.params|, taken);
      var tail := TailOf(h.body);
      var (k1, s1) := RunSeq(Env(env.m, None), h.body, State(HelperFrame(h, vs), w), fuel);
      var text := If(CombineTree(Guards(h.body), plan.rho),
        Block(SubstSeq(tail, plan.rho - Declared(tail))), None);
      var (k2, s2) := Run(env, text, {}, State(b, w), fuel);
      && k2 == (if k1 == Returned then Normal else k1) && s1.world == s2.world
      && Kept(b.Keys - (plan.taken - taken), b, s2.frame)
  {
    hide Rel, Accepted, Syntactic, Invertible, ScopesApart, Holds, Kept;
    var plan := Hoist(h, args, |h.params|, taken);
    var env0, d, fr := Env(env.m, None), Declared(h.body), UsedFrame(h, vs);
    HelperRun(env0, h, vs, w, fuel);
    BodyRun(env0, h.body, State(Push(fr, d), w), fuel);
    GuardPhase(env.m, h, args, vs, taken, b, w);
    var (v, g1) := RunGuards(env.m, Guards(h.body), IDENTITY, State(fr, w));
    var (_, g2) := Test(env.m, CombineTree(Guards(h.body), plan.rho), State(b, w));
    if v == Yes {
      TailPhase(env, h, args, taken, g1.frame, g2.frame, b, g1.world, fuel);
    } else {
      ImagesAreTemps(h, args, taken, g1.frame, g2.frame, b);
    }
  }

  lemma {:induction false} PlanKeys(h: Helper, args: seq<Expr>, taken: set<string>)
    requires DistinctParams(h)
    ensures Hoist(h, args, |h.params|, taken).rho.Keys == set p | p in h.params && Used(h, p)
  {
    var plan := Hoist(h, args, |h.params|, taken);
    HoistPlanned(h, args, |h.params|, taken);
    forall p <- h.params ensures p in plan.rho <==> Used(h, p) {
      var i :| 0 <= i < |h.params| && h.params[i] == p;
      assert ParamPlanned(h, args, plan, taken, i);
    }
    forall p <- plan.rho ensures p in h.params {
      assert p in h.params[..|h.params|];
    }
  }

  lemma {:induction false} TailRenamable(h: Helper, args: seq<Expr>, taken: set<string>, g1: Frame, g2: Frame, b: Frame)
    requires Accepted(h) && Syntactic(h) && |args| <= |h.params|
    requires var plan := Hoist(h, args, |h.params|, taken);
      g1.Keys == plan.rho.Keys && g2.Keys == b.Keys && ScopesApart(h, plan, args, taken, b)
    ensures var tail, d := TailOf(h.body), Declared(h.body);
      && Declared(tail) == d
      && Renamable(FreeSeq(tail) - d, WritesSeq(tail) - d, BindersSeq(tail),
           Hoist(h, args, |h.params|, taken).rho, g1, g2)
  {
    var tail, d := TailOf(h.body), Declared(h.body);
    BodyNames(h.body);
    PlanRenamable(h, args, taken, g1, b);
    Narrow(FreeSeq(h.body) - d, WritesSeq(h.body) - d, BindersSeq(h.body),
      FreeSeq(tail) - d, WritesSeq(tail) - d, BindersSeq(tail),
      Hoist(h, args, |h.params|, taken).rho, g1, b, g1, g2);
  }

  /** The substitution satisfies what renaming asks of it. */
  lemma {:induction false} PlanRenamable(h: Helper, args: seq<Expr>, taken: set<string>, fr: Frame, b: Frame)
    requires Accepted(h) && Syntactic(h) && |args| <= |h.params|
    requires var plan := Hoist(h, args, |h.params|, taken);
      fr.Keys == plan.rho.Keys && ScopesApart(h, plan, args, taken, b)
    ensures var plan := Hoist(h, args, |h.params|, taken);
      var d := Declared(h.body);
      && Renamable(FreeSeq(h.body) - d, WritesSeq(h.body) - d, BindersSeq(h.body), plan.rho, fr, b)
      && (ArgsNames(Guards(h.body)) !! d ==>
            Uncaptured(ArgsNames(Guards(h.body)), fr, b) && NoDroppedWrite(ArgsWrites(Guards(h.body)), plan.rho))
      && d !! plan.rho.Keys
  {
    var plan := Hoist(h, args, |h.params|, taken);
    HoistPlanned(h, args, |h.params|, taken);
    BodyNames(h.body);
    PlanKeys(h, args, taken);
    forall x <- FreeSeq(h.body) - Declared(h.body) | x !in fr ensures x !in b {
      assert x in OuterNames(h);
    }
  }

  lemma {:induction false} ImagesAreTemps(
    h: Helper, args: seq<Expr>, taken: set<string>, fr: Frame, fr2: Frame, b: Frame)
    requires Syntactic(h)
    requires var plan := Hoist(h, args, |h.params|, taken);
      Rel(plan.rho, fr, fr2, b) && fr.Keys == plan.rho.Keys
    ensures Kept(b.Keys - (Hoist(h, args, |h.params|, taken).taken - taken), b, fr2)
  {
    HoistPlanned(h, args, |h.params|, taken);
  }

  // ---------------------------------------------------------------- guardless helpers

  /** The names the tail's own locals get. */
  ghost function LocalImages(names: set<string>, ren: Substitution): set<string> {
    set d | d in names :: SubstName(d, ren)
  }

  ghost predicate LocalsPlanned(names: set<string>, taken: set<string>, ren: Substitution, used: set<string>) {
    && taken <= used
    && ren.Keys <= names
    && (forall d <- ren :: ren[d].Var?)
    && LocalImages(names, ren) == used - taken
    && forall d, e | d in names && e in names && d != e :: SubstName(d, ren) != SubstName(e, ren)
  }

  lemma {:induction false} DeclaredWhere(body: seq<Stmt>, x: string)
    requires x in Declared(body)
    ensures exists i :: 0 <= i < |body| && body[i].Declare? && body[i].name == x
  {
    if body[0].Declare? && body[0].name == x {
      assert body[0].Declare? && body[0].name == x;
    } else {
      DeclaredWhere(body[1..], x);
      var i :| 0 <= i < |body[1..]| && body[1..][i].Declare? && body[1..][i].name == x;
      assert body[i + 1].Declare? && body[i + 1].name == x;
    }
  }

  lemma {:induction false} RenamesPlanned(tail: seq<Stmt>, n: nat, taken: set<string>)
    requires DistinctLocals(tail) && n <= |tail|
    ensures var (ren, used) := Renames(tail, n, taken);
      LocalsPlanned(Declared(tail[..n]), taken, ren, used)
  {
    if n == 0 {
      assert tail[..0] == [];
    } else {
      RenamesPlanned(tail, n - 1, taken);
      assert tail[..n] == tail[..n - 1] + [tail[n - 1]];
      FreeConcat(tail[..n - 1], [tail[n - 1]]);
      if tail[n - 1].Declare? {
        var x := tail[n - 1].name;
        if x in Declared(tail[..n - 1]) {
          DeclaredWhere(tail[..n - 1], x);
        }
        var (ren0, used0) := Renames(tail, n - 1, taken);
        RenameStep(Declared(tail[..n - 1]), x, taken, ren0, used0);
      }
    }
  }

  lemma {:induction false} RenameStep(
    names: set<string>, x: string, taken: set<string>, ren: Substitution, used: set<string>)
    requires x !in names && LocalsPlanned(names, taken, ren, used)
    ensures LocalsPlanned(names + {x}, taken,
      if x in used then ren[x := Var(Fresh(x, used))] else ren,
      used + {if x in used then Fresh(x, used) else x})
  {
    var image := if x in used then Fresh(x, used) else x;
    var ren1 := if x in used then ren[x := Var(image)] else ren;
    hide Fresh;
    assert image !in used;
    forall d <- names ensures SubstName(d, ren1) == SubstName(d, ren) && SubstName(d, ren) in used {
      assert SubstName(d, ren) in LocalImages(names, ren);
    }
    assert SubstName(x, ren1) == image;
    assert LocalImages(names + {x}, ren1) == LocalImages(names, ren) + {image};
  }

  lemma {:induction false} RenamedDeclared(tail: seq<Stmt>, rho: Substitution)
    ensures Declared(SubstSeq(tail, rho)) == LocalImages(Declared(tail), rho)
  {
    if tail != [] {
      RenamedDeclared(tail[1..], rho);
    }
  }

  /** Names the plan makes up. */
  function Generated(h: Helper, args: seq<Expr>, taken: set<string>): set<string> {
    var plan := Hoist(h, args, |h.params|, taken);
    var ren := Renames(TailOf(h.body), |TailOf(h.body)|, plan.taken).0;
    (plan.taken - taken) + if Guards(h.body) == [] then set d | d in ren && ren[d].Var? :: ren[d].name else {}
  }

  /** Two substitutions side by side, on separate names. */
  lemma {:induction false} BothName(rho: Substitution, ren: Substitution, d: set<string>, x: string)
    requires ren.Keys <= d && rho.Keys !! d && (forall y <- ren :: ren[y].Var?)
    ensures x in d ==> !Dropped(rho + ren, x) && SubstName(x, rho + ren) == SubstName(x, ren)
    ensures x !in d ==>
      Dropped(rho + ren, x) == Dropped(rho, x) && SubstName(x, rho + ren) == SubstName(x, rho)
  {
  }

  /** Adding a scope of uninitialised locals, some of them renamed, next to the parameters. */
  lemma {:induction false} AddLocals(
    rho: Substitution, ren: Substitution, d: set<string>, fr: Frame, b: Frame, temps: set<string>)
    requires Rel(rho, fr, b, b) && fr.Keys == rho.Keys && fr.Keys !! d
    requires ren.Keys <= d && (forall x <- ren :: ren[x].Var?)
    requires forall x <- d :: SubstName(x, ren) !in temps && SubstName(x, ren) in b && b[SubstName(x, ren)] == Uninit
    requires forall x, y | x in d && y in d && x != y :: SubstName(x, ren) != SubstName(y, ren)
    requires forall x <- rho :: rho[x].Var? ==> rho[x].name in temps
    ensures Rel(rho + ren, Push(fr, d), b, b)
  {
    var both, gr := rho + ren, Push(fr, d);
    AddLocalsInjective(rho, ren, d, fr, temps);
    hide Injective;
    forall x <- gr ensures Carried(both, gr, b, x) {
      BothName(rho, ren, d, x);
      if x !in d { assert Carried(rho, fr, b, x); }
    }
  }

  lemma {:induction false} AddLocalsInjective(
    rho: Substitution, ren: Substitution, d: set<string>, fr: Frame, temps: set<string>)
    requires Injective(rho, fr) && fr.Keys == rho.Keys && fr.Keys !! d
    requires ren.Keys <= d && (forall x <- ren :: ren[x].Var?)
    requires forall x <- d :: SubstName(x, ren) !in temps
    requires forall x, y | x in d && y in d && x != y :: SubstName(x, ren) != SubstName(y, ren)
    requires forall x <- rho :: if rho[x].Var? then rho[x].name in temps else rho[x] == UndefinedLit
    ensures Injective(rho + ren, Push(fr, d))
  {
    var both, gr := rho + ren, Push(fr, d);
    forall x, y | x in gr && y in gr && x != y && !Dropped(both, x) && !Dropped(both, y)
      ensures SubstName(x, both) != SubstName(y, both)
    {
      BothName(rho, ren, d, x);
      BothName(rho, ren, d, y);
    }
  }

  lemma {:induction false} LocalsRel(
    h: Helper, args: seq<Expr>, vs: seq<Value>, taken: set<string>, ren: Substitution, used: set<string>, b: Frame)
    requires Syntactic(h) && |args| <= |h.params| && |vs| == |args|
    requires var plan := Hoist(h, args, |h.params|, taken);
      && ScopesApart(h, plan, args, taken, b) && Holds(h, args, plan.rho, |h.params|, vs, b)
      && LocalsPlanned(Declared(h.body), plan.taken, ren, used)
      && used - plan.taken <= b.Keys && forall z <- used - plan.taken :: b[z] == Uninit
    ensures Rel(Hoist(h, args, |h.params|, taken).rho + ren,
      Push(UsedFrame(h, vs), Declared(h.body)), b, b)
  {
    var plan := Hoist(h, args, |h.params|, taken);
    HoistPlanned(h, args, |h.params|, taken);
    HoistedRel(h, args, vs, taken, b);
    PlanKeys(h, args, taken);
    assert forall x <- Declared(h.body) :: SubstName(x, ren) in LocalImages(Declared(h.body), ren);
    AddLocals(plan.rho, ren, Declared(h.body), UsedFrame(h, vs), b, plan.taken);
  }

  lemma {:induction false} UsedKeys(h: Helper, vs: seq<Value>)
    requires DistinctParams(h)
    ensures UsedFrame(h, vs).Keys == set p | p in h.params && Used(h, p)
  {
    BindAt(h.params, vs);
  }

  lemma {:induction false} OuterUncaptured(h: Helper, vs: seq<Value>, b: Frame)
    requires DistinctParams(h) && OuterNames(h) !! b.Keys
    ensures Uncaptured(FreeSeq(h.body), Push(UsedFrame(h, vs), Declared(h.body)), b)
  {
    UsedKeys(h, vs);
    forall x <- FreeSeq(h.body) | x !in UsedFrame(h, vs).Keys + Declared(h.body) ensures x !in b {
      assert x in OuterNames(h);
    }
  }

  lemma {:induction false} LocalsRenamable(
    h: Helper, args: seq<Expr>, vs: seq<Value>, taken: set<string>, ren: Substitution, used: set<string>, b: Frame)
    requires Accepted(h) && Syntactic(h) && |args| <= |h.params|
    requires var plan := Hoist(h, args, |h.params|, taken);
      && ScopesApart(h, plan, args, taken, b) && LocalsPlanned(Declared(h.body), plan.taken, ren, used)
      && forall x <- ren :: ren[x].name !in BodyIdentifiers(h)
    ensures Renamable(FreeSeq(h.body), WritesSeq(h.body), BindersSeq(h.body),
      Hoist(h, args, |h.params|, taken).rho + ren, Push(UsedFrame(h, vs), Declared(h.body)), b)
  {
    var both := Hoist(h, args, |h.params|, taken).rho + ren;
    OuterUncaptured(h, vs, b);
    hide Hoist, Uncaptured, OuterNames, FreeSeq, WritesSeq, BindersSeq;
    forall x <- WritesSeq(h.body) ensures !Dropped(both, x) {
      LocalNeverDropped(h, args, taken, ren, used, x);
    }
    forall x <- both | both[x].Var? ensures both[x].name !in BindersSeq(h.body) {
      if x !in ren { PlannedApart(h, args, taken, b, x); }
    }
  }

  lemma {:induction false} LocalNeverDropped(
    h: Helper, args: seq<Expr>, taken: set<string>, ren: Substitution, used: set<string>, x: string)
    requires Accepted(h) && Syntactic(h) && x in WritesSeq(h.body)
    requires LocalsPlanned(Declared(h.body), Hoist(h, args, |h.params|, taken).taken, ren, used)
    ensures !Dropped(Hoist(h, args, |h.params|, taken).rho + ren, x)
  {
    PlanKeys(h, args, taken);
    BothName(Hoist(h, args, |h.params|, taken).rho, ren, Declared(h.body), x);
  }

  lemma {:induction false} PlannedApart(h: Helper, args: seq<Expr>, taken: set<string>, b: Frame, x: string)
    requires DistinctParams(h)
    requires var plan := Hoist(h, args, |h.params|, taken);
      ScopesApart(h, plan, args, taken, b) && x in plan.rho && plan.rho[x].Var?
    ensures Hoist(h, args, |h.params|, taken).rho[x].name !in BindersSeq(h.body)
  {
    HoistPlanned(h, args, |h.params|, taken);
  }

  lemma {:induction false} GuardlessBody(
    env: Env, h: Helper, args: seq<Expr>, vs: seq<Value>, taken: set<string>,
    ren: Substitution, used: set<string>, b: Frame, w: World, fuel: nat)
    requires Accepted(h) && Syntactic(h) && Guards(h.body) == []
    requires |args| <= |h.params| && |vs| == |args|
    requires var plan := Hoist(h, args, |h.params|, taken);
      && ScopesApart(h, plan, args, taken, b) && Holds(h, args, plan.rho, |h.params|, vs, b)
      && LocalsPlanned(Declared(h.body), plan.taken, ren, used)
      && (forall x <- ren :: ren[x].name !in BodyIdentifiers(h))
      && used - plan.taken <= b.Keys && forall z <- used - plan.taken :: b[z] == Uninit
    ensures var plan := Hoist(h, args, |h.params|, taken);
      var (k1, s1) := RunSeq(Env(env.m, None), h.body, State(HelperFrame(h, vs), w), fuel);
      var (k2, s2) := RunSeq(env, SubstSeq(h.body, plan.rho + ren), State(b, w), fuel);
      && k1 == k2 && Contained(k1) && s1.world == s2.world
      && Kept(b.Keys - (used - taken), b, s2.frame)
  {
    var plan := Hoist(h, args, |h.params|, taken);
    var env0, fr := Env(env.m, None), Push(UsedFrame(h, vs), Declared(h.body));
    hide Rel, ScopesApart, Holds;
    HelperRun(env0, h, vs, w, fuel);
    assert TailOf(h.body) == h.body;
    TailNeverEscapes(env0, h.body, State(HelperFrame(h, vs), w), fuel);
    SeqNoCalls(env, h.body, State(fr, w), fuel);
    LocalsRel(h, args, vs, taken, ren, used, b);
    LocalsRenamable(h, args, vs, taken, ren, used, b);
    SeqRenamed(env, h.body, fuel, plan.rho + ren, fr, b, b, w);
    var (_, t1) := RunSeq(env, h.body, State(fr, w), fuel);
    var (_, t2) := RunSeq(env, SubstSeq(h.body, plan.rho + ren), State(b, w), fuel);
    LocalImagesKept(h, args, vs, taken, ren, used, t1.frame, t2.frame, b);
  }

  lemma {:induction false} LocalImagesKept(
    h: Helper, args: seq<Expr>, vs: seq<Value>, taken: set<string>, ren: Substitution, used: set<string>,
    fr: Frame, fr2: Frame, b: Frame)
    requires Syntactic(h) && LocalsPlanned(Declared(h.body), Hoist(h, args, |h.params|, taken).taken, ren, used)
    requires Rel(Hoist(h, args, |h.params|, taken).rho + ren, fr, fr2, b)
    requires fr.Keys == UsedFrame(h, vs).Keys + Declared(h.body)
    ensures Kept(b.Keys - (used - taken), b, fr2)
  {
    var both := Hoist(h, args, |h.params|, taken).rho + ren;
    forall x <- fr | !Dropped(both, x) ensures SubstName(x, both) in used - taken {
      CombinedImage(h, args, vs, taken, ren, used, x);
    }
    ImagesWithin(both, fr, fr2, b, used - taken);
  }

  lemma {:induction false} ImagesWithin(rho: Substitution, fr: Frame, fr2: Frame, b: Frame, names: set<string>)
    requires Rel(rho, fr, fr2, b) && forall x <- fr | !Dropped(rho, x) :: SubstName(x, rho) in names
    ensures Kept(b.Keys - names, b, fr2)
  {
  }

  lemma {:induction false} CombinedImage(
    h: Helper, args: seq<Expr>, vs: seq<Value>, taken: set<string>, ren: Substitution, used: set<string>, x: string)
    requires Syntactic(h) && LocalsPlanned(Declared(h.body), Hoist(h, args, |h.params|, taken).taken, ren, used)
    requires x in UsedFrame(h, vs).Keys + Declared(h.body)
    requires !Dropped(Hoist(h, args, |h.params|, taken).rho + ren, x)
    ensures SubstName(x, Hoist(h, args, |h.params|, taken).rho + ren) in used - taken
  {
    var plan := Hoist(h, args, |h.params|, taken);
    HoistPlanned(h, args, |h.params|, taken);
    PlanKeys(h, args, taken);
    UsedKeys(h, vs);
    BothName(plan.rho, ren, Declared(h.body), x);
    if x in Declared(h.body) {
      assert SubstName(x, ren) in LocalImages(Declared(h.body), ren);
    } else {
      assert x in plan.rho;
    }
  }

  // ---------------------------------------------------------------- one call

  /** The names the replacement of a call adds to the target block. */
  function Added(h: Helper, args: seq<Expr>, taken: set<string>): set<string> {
    Replace(h, args, taken).taken - taken
  }

  /** Guards do not mention locals the tail declares later. */
  ghost predicate GuardsApart(h: Helper) {
    ArgsNames(Guards(h.body)) !! Declared(h.body)
  }

  /** The assumptions about names under which text can move from helper to caller: no outer
      name of the helper is bound at the call, and no made-up name occurs in the helper. */
  ghost predicate NamesApart(h: Helper, args: seq<Expr>, taken: set<string>, scope: set<string>) {
    && OuterNames(h) !! scope
    && Generated(h, args, taken) !! BodyIdentifiers(h)
  }

  /** The caller's frames just before the call, without and with the replacement's names. */
  ghost predicate CallReady(h: Helper, args: seq<Expr>, taken: set<string>, a: Frame, b: Frame) {
    var extra := Added(h, args, taken);
    && Agree(extra, a, b) && extra <= b.Keys && (forall z <- extra :: b[z] == Uninit)
    && ArgsNames(args) !! extra
    && NamesApart(h, args, taken, b.Keys)
  }

  lemma {:induction false} GuardlessParts(h: Helper, args: seq<Expr>, taken: set<string>)
    requires Syntactic(h) && Guards(h.body) == []
    ensures TailOf(h.body) == h.body
    ensures var plan := Hoist(h, args, |h.params|, taken);
      var (ren, used) := Renames(h.body, |h.body|, plan.taken);
      && Replace(h, args, taken) == Replacement(plan.prefix, None, SubstSeq(h.body, plan.rho + ren), used)
      && LocalsPlanned(Declared(h.body), plan.taken, ren, used)
  {
    assert |Guards(h.body)| == GuardCount(h.body);
    assert TailOf(h.body) == h.body;
    hide Guards, TailOf, Hoist, Renames, Declared, SubstSeq;
    RenamesPlanned(h.body, |h.body|, Hoist(h, args, |h.params|, taken).taken);
    assert h.body[..|h.body|] == h.body;
  }

  /** What follows the hoisted arguments in the inserted statements. */
  function RestText(h: Helper, args: seq<Expr>, taken: set<string>): seq<Stmt> {
    var rho, tail := Hoist(h, args, |h.params|, taken).rho, TailOf(h.body);
    if Guards(h.body) == [] then Replace(h, args, taken).tail
    else [If(CombineTree(Guards(h.body), rho), Block(SubstSeq(tail, rho - Declared(tail))), None)]
  }

  lemma {:induction false} InsertedText(h: Helper, args: seq<Expr>, taken: set<string>)
    requires Syntactic(h)
    ensures Inserted(Replace(h, args, taken)) ==
      Some(Hoist(h, args, |h.params|, taken).prefix + RestText(h, args, taken))
  {
    if Guards(h.body) != [] {
      CombineReadsBack(Guards(h.body), Hoist(h, args, |h.params|, taken).rho);
    }
  }

  ghost predicate BodyReady(
    m: Machine, h: Helper, args: seq<Expr>, vs: seq<Value>, taken: set<string>, b: Frame)
  {
    var plan := Hoist(h, args, |h.params|, taken);
    && Accepted(h) && Syntactic(h) && Invertible(m, Guards(h.body)) && GuardsApart(h)
    && |args| <= |h.params| && |vs| == |args|
    && NamesApart(h, args, taken, b.Keys) && Added(h, args, taken) <= b.Keys
    && Holds(h, args, plan.rho, |h.params|, vs, b)
    && forall z <- Added(h, args, taken) - (plan.taken - taken) :: b[z] == Uninit
  }

  ghost predicate BodyMatches(
    env: Env, h: Helper, args: seq<Expr>, vs: seq<Value>, taken: set<string>, rest: seq<Stmt>,
    b: Frame, w: World, fuel: nat)
  {
    var (k1, s1) := RunSeq(Env(env.m, None), h.body, State(HelperFrame(h, vs), w), fuel);
    var (k2, s2) := RunSeq(env, rest, State(b, w), fuel);
    && k2 == (if k1 == Returned then Normal else k1) && s1.world == s2.world
    && Kept(b.Keys - Added(h, args, taken), b, s2.frame)
  }

  lemma {:induction false} GuardlessPhase(
    env: Env, h: Helper, args: seq<Expr>, vs: seq<Value>, taken: set<string>, b: Frame, w: World, fuel: nat)
    requires BodyReady(env.m, h, args, vs, taken, b) && Guards(h.body) == []
    ensures BodyMatches(env, h, args, vs, taken, Replace(h, args, taken).tail, b, w, fuel)
  {
    assert Accepted(h) && Syntactic(h) && |args| <= |h.params| && |vs| == |args|;
    GuardlessParts(h, args, taken);
    GuardlessReady(env.m, h, args, vs, taken, b);
    hide *;
    var plan := Hoist(h, args, |h.params|, taken);
    var (ren, used) := Renames(h.body, |h.body|, plan.taken);
    GuardlessBody(env, h, args, vs, taken, ren, used, b, w, fuel);
    GuardlessMatches(env, h, args, vs, taken, used, b, w, fuel);
  }

  /** What the body's run needs, from what holds after the arguments. */
  lemma {:induction false} GuardlessReady(
    m: Machine, h: Helper, args: seq<Expr>, vs: seq<Value>, taken: set<string>, b: Frame)
    requires BodyReady(m, h, args, vs, taken, b) && Guards(h.body) == []
    ensures var plan := Hoist(h, args, |h.params|, taken);
      var (ren, used) := Renames(h.body, |h.body|, plan.taken);
      && ScopesApart(h, plan, args, taken, b) && Holds(h, args, plan.rho, |h.params|, vs, b)
      && LocalsPlanned(Declared(h.body), plan.taken, ren, used)
      && (forall x <- ren :: ren[x].Var? && ren[x].name !in BodyIdentifiers(h))
      && used - plan.taken <= b.Keys && (forall z <- used - plan.taken :: b[z] == Uninit)
  {
    var plan := Hoist(h, args, |h.params|, taken);
    HoistPlanned(h, args, |h.params|, taken);
    GuardlessParts(h, args, taken);
    var (ren, used) := Renames(h.body, |h.body|, plan.taken);
    hide Hoist, Renames, Declared, SubstSeq, OuterNames, BodyIdentifiers, Holds, Accepted, Syntactic, Guards,
      TailOf, Invertible;
    forall x <- ren ensures ren[x].name !in BodyIdentifiers(h) {
      assert ren[x].name in Generated(h, args, taken);
    }
    assert plan.taken - taken <= Generated(h, args, taken);
  }

  lemma {:induction false} GuardlessMatches(
    env: Env, h: Helper, args: seq<Expr>, vs: seq<Value>, taken: set<string>, used: set<string>,
    b: Frame, w: World, fuel: nat)
    requires used == Replace(h, args, taken).taken
    requires var (k1, s1) := RunSeq(Env(env.m, None), h.body, State(HelperFrame(h, vs), w), fuel);
      var (k2, s2) := RunSeq(env, Replace(h, args, taken).tail, State(b, w), fuel);
      && k1 == k2 && Contained(k1) && s1.world == s2.world && Kept(b.Keys - (used - taken), b, s2.frame)
    ensures BodyMatches(env, h, args, vs, taken, Replace(h, args, taken).tail, b, w, fuel)
  {
    hide Replace, RunSeq, HelperFrame, Kept;
  }

  lemma {:induction false} GuardedPhase(
    env: Env, h: Helper, args: seq<Expr>, vs: seq<Value>, taken: set<string>, b: Frame, w: World, fuel: nat)
    requires BodyReady(env.m, h, args, vs, taken, b) && Guards(h.body) != []
    ensures BodyMatches(env, h, args, vs, taken, RestText(h, args, taken), b, w, fuel)
  {
    var plan := Hoist(h, args, |h.params|, taken);
    HoistPlanned(h, args, |h.params|, taken);
    var text := RestText(h, args, taken)[0];
    assert plan.taken - taken <= Generated(h, args, taken);
    hide Hoist, Holds;
    GuardedBody(env, h, args, vs, taken, b, w, fuel);
    RunOne(env, text, State(b, w), fuel);
  }

  lemma {:induction false} RestRuns(
    env: Env, h: Helper, args: seq<Expr>, vs: seq<Value>, taken: set<string>, b: Frame, w: World, fuel: nat)
    requires BodyReady(env.m, h, args, vs, taken, b)
    ensures BodyMatches(env, h, args, vs, taken, RestText(h, args, taken), b, w, fuel)
  {
    hide BodyReady, BodyMatches;
    if Guards(h.body) == [] {
      GuardlessPhase(env, h, args, vs, taken, b, w, fuel);
    } else {
      GuardedPhase(env, h, args, vs, taken, b, w, fuel);
    }
  }

  // ---------------------------------------------------------------- the call statement

  ghost predicate CallMatches(
    env: Env, args: seq<Expr>, ins: seq<Stmt>, extra: set<string>, a: Frame, b: Frame, w: World, fuel: nat)
  {
    var (k1, s1) := Run(env, Call(args), {}, State(a, w), fuel);
    var (k2, s2) := RunSeq(env, ins, State(b, w), fuel);
    k1 == k2 && s1.world == s2.world && Agree(extra, s1.frame, s2.frame) && Kept(extra, a, s1.frame)
  }

  ghost predicate CallOk(env: Env, h: Helper, args: seq<Expr>) {
    && env.helper == Some(h) && Accepted(h) && Syntactic(h) && Invertible(env.m, Guards(h.body))
    && |args| <= |h.params|
  }

  /** A statement-position call and the statements put in its place: same completion, same
      effects, and frames that differ only in the names the replacement added. */
  lemma {:induction false} CallInlined(
    env: Env, h: Helper, args: seq<Expr>, taken: set<string>, a: Frame, b: Frame, w: World, fuel: nat)
    requires CallOk(env, h, args) && CallReady(h, args, taken, a, b) && GuardsApart(h)
    ensures var ins := Inserted(Replace(h, args, taken));
      ins.Some? && CallMatches(env, args, ins.value, Added(h, args, taken), a, b, w, fuel)
  {
    var n, plan, extra := |h.params|, Hoist(h, args, |h.params|, taken), Added(h, args, taken);
    var rest := RestText(h, args, taken);
    InsertedText(h, args, taken);
    TempsAdded(h, args, taken);
    HoistRuns(env, h, args, n, taken, extra, a, b, w, fuel);
    assert args[..Min(n, |args|)] == args;
    RunSeqConcat(env, plan.prefix, rest, State(b, w), fuel);
    RunCall(env, h, args, State(a, w), fuel);
    var (vs, thrown, s1) := EvalArgs(env.m, args, State(a, w));
    var (_, s2) := RunSeq(env, plan.prefix, State(b, w), fuel);
    if thrown.None? {
      BodyReadyAfter(env, h, args, vs, taken, a, b, s2.frame);
      hide *;
      AfterArguments(env, h, args, vs, taken, s1, s2, fuel);
    }
  }

  lemma {:induction false} RunCall(env: Env, h: Helper, args: seq<Expr>, st: State, fuel: nat)
    requires env.helper == Some(h)
    ensures Run(env, Call(args), {}, st, fuel) ==
      var (vs, thrown, s1) := EvalArgs(env.m, args, st);
      if thrown.Some? then (Raised(thrown.value), s1) else
      var (k, s2) := RunSeq(Env(env.m, None), h.body, State(HelperFrame(h, vs), s1.world), fuel);
      (if k == Returned then Normal else k, State(s1.frame, s2.world))
  {
  }

  lemma {:induction false} AfterArguments(
    env: Env, h: Helper, args: seq<Expr>, vs: seq<Value>, taken: set<string>, s1: State, s2: State, fuel: nat)
    requires BodyReady(env.m, h, args, vs, taken, s2.frame) && s1.world == s2.world
    requires Agree(Added(h, args, taken), s1.frame, s2.frame)
    ensures
      var (k, t) := RunSeq(Env(env.m, None), h.body, State(HelperFrame(h, vs), s1.world), fuel);
      var (k2, t2) := RunSeq(env, RestText(h, args, taken), s2, fuel);
      && k2 == (if k == Returned then Normal else k) && t.world == t2.world
      && Agree(Added(h, args, taken), s1.frame, t2.frame)
  {
    hide BodyReady, Agree, Kept, RestText, Added;
    var rest := RestText(h, args, taken);
    assert s2 == State(s2.frame, s1.world);
    RestRuns(env, h, args, vs, taken, s2.frame, s1.world, fuel);
    AgreeAfter(Added(h, args, taken), s1.frame, s2.frame, RunSeq(env, rest, s2, fuel).1.frame);
  }

  lemma {:induction false} BodyReadyAfter(
    env: Env, h: Helper, args: seq<Expr>, vs: seq<Value>, taken: set<string>, a: Frame, b: Frame, b1: Frame)
    requires CallOk(env, h, args) && CallReady(h, args, taken, a, b) && GuardsApart(h) && |vs| == |args|
    requires var plan := Hoist(h, args, |h.params|, taken);
      && Holds(h, args, plan.rho, |h.params|, vs, b1)
      && Kept(Added(h, args, taken) - (plan.taken - taken), b, b1)
    ensures BodyReady(env.m, h, args, vs, taken, b1)
  {
  }

  lemma {:induction false} TempsAdded(h: Helper, args: seq<Expr>, taken: set<string>)
    requires Syntactic(h)
    ensures Hoist(h, args, |h.params|, taken).taken - taken <= Added(h, args, taken)
  {
    if Guards(h.body) == [] {
      GuardlessParts(h, args, taken);
    }
  }

  lemma {:induction false} AgreeAfter(extra: set<string>, a: Frame, b: Frame, b1: Frame)
    requires Agree(extra, a, b) && Kept(b.Keys - extra, b, b1)
    ensures Agree(extra, a, b1)
  {
    assert b - extra == b1 - extra;
  }
}
