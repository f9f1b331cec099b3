/** Strict inlining preserves meaning: a block that calls the helper and the block with the
    replacement in its place complete alike, with the same effects, from every state. */
module InlineCorrect {
  import opened Numbers
  import opened Optional
  import opened JsExpression
  import opened HelperLanguage
  import opened GuardText
  import opened GuardInversion
  import opened GuardExactness
  import opened EscapeAnalysis
  import opened FreshNames
  import opened InlinePlan
  import opened Renaming
  import opened Weakening

  // ---------------------------------------------------------------- no calls, no helper

  /** Text without calls runs the same whether or not the helper is still there. */
  lemma {:induction false} RunNoCalls(env: Env, s: Stmt, labels: set<string>, st: State, fuel: nat)
    requires NoCalls(s)
    ensures Run(env, s, labels, st, fuel) == Run(Env(env.m, None), s, labels, st, fuel)
    decreases fuel, s, 2
  {
    match s
    case If(c, t, f) =>
      var (_, s1) := Test(env.m, c, st);
      RunNoCalls(env, t, {}, s1, fuel);
      if f.Some? { RunNoCalls(env, f.value, {}, s1, fuel); }
    case Block(body) => ScopeNoCalls(env, body, st, fuel);
    case While(c, body) =>
      if fuel > 0 {
        var (_, s1) := Test(env.m, c, st);
        RunNoCalls(env, body, {}, s1, fuel);
        RunNoCalls(env, s, labels, Run(env, body, {}, s1, fuel).1, fuel - 1);
      }
    case Switch(on, cs) =>
      var (o, s1) := Eval(env.m, on, st);
      var chosen := Select(o.v, cs);
      if o.Ok? && chosen.Some? {
        ClausesNoCalls(env, cs, chosen.value, s1.(frame := Push(s1.frame, DeclaredClauses(cs))), fuel);
      }
    case Labeled(l, s1) => RunNoCalls(env, s1, labels + {l}, st, fuel);
    case Nested(body) => ScopeNoCalls(env, body, st, fuel);
    case _ =>
  }

  lemma {:induction false} ScopeNoCalls(env: Env, body: seq<Stmt>, st: State, fuel: nat)
    requires NoCallsSeq(body)
    ensures RunScope(env, body, st, fuel) == RunScope(Env(env.m, None), body, st, fuel)
    decreases fuel, body, 2
  {
    SeqNoCalls(env, body, st.(frame := Push(st.frame, Declared(body))), fuel);
  }

  lemma {:induction false} SeqNoCalls(env: Env, body: seq<Stmt>, st: State, fuel: nat)
    requires NoCallsSeq(body)
    ensures RunSeq(env, body, st, fuel) == RunSeq(Env(env.m, None), body, st, fuel)
    decreases fuel, body, 1
  {
    if body != [] {
      RunNoCalls(env, body[0], {}, st, fuel);
      SeqNoCalls(env, body[1..], Run(env, body[0], {}, st, fuel).1, fuel);
    }
  }

  lemma {:induction false} ClausesNoCalls(env: Env, cs: seq<Clause>, k: nat, st: State, fuel: nat)
    requires NoCallsClauses(cs) && k <= |cs|
    ensures RunClauses(env, cs, k, st, fuel) == RunClauses(Env(env.m, None), cs, k, st, fuel)
    decreases fuel, cs, 1, |cs| - k
  {
    if k < |cs| {
      ClauseNoCalls(cs, k);
      SeqNoCalls(env, cs[k].body, st, fuel);
      ClausesNoCalls(env, cs, k + 1, RunSeq(env, cs[k].body, st, fuel).1, fuel);
    }
  }

  lemma {:induction false} ClauseNoCalls(cs: seq<Clause>, k: nat)
    requires NoCallsClauses(cs) && k < |cs|
    ensures NoCallsSeq(cs[k].body)
  {
    if k > 0 {
      assert cs[k] == cs[1..][k - 1];
      ClauseNoCalls(cs[1..], k - 1);
    }
  }

  // ---------------------------------------------------------------- leading guards

  /** A body starting with guards runs them in order and reaches the rest only when none of
      them is truthy. */
  lemma {:induction false} GuardsRun(env: Env, body: seq<Stmt>, n: nat, st: State, fuel: nat)
    requires n <= GuardCount(body)
    ensures RunSeq(env, body[..n], st, fuel) ==
      var (v, s1) := RunGuards(env.m, Guards(body)[..n], IDENTITY, st);
      (if v.Threw? then Raised(v.v) else if v == Yes then Normal else Returned, s1)
  {
    if n > 0 {
      var g, guard := Guards(body)[n - 1], body[n - 1];
      GuardsRun(env, body, n - 1, st, fuel);
      assert body[..n] == body[..n - 1] + [guard];
      RunSeqConcat(env, body[..n - 1], [guard], st, fuel);
      var (v, s1) := RunGuards(env.m, Guards(body)[..n - 1], IDENTITY, st);
      assert Guards(body)[..n][..n - 1] == Guards(body)[..n - 1];
      assert AsGuard(guard) == Some(g);
      SameExpr(g);
      RunOne(env, guard, s1, fuel);
      GuardRuns(env, guard, g, s1, fuel);
    }
  }

  lemma {:induction false} GuardRuns(env: Env, guard: Stmt, c: Expr, st: State, fuel: nat)
    requires AsGuard(guard) == Some(c)
    ensures Run(env, guard, {}, st, fuel) ==
      var (v, s1) := Test(env.m, c, st);
      (if v.Threw? then Raised(v.v) else if v == No then Normal else Returned, s1)
  {
    var (v, s1) := Test(env.m, c, st);
    if guard.t.Block? && v == Yes {
      var inner := State(Push(s1.frame, {}), s1.world);
      assert Declared([Return(None)]) == {};
      RunOne(env, Return(None), inner, fuel);
      assert Pop(s1.frame, inner.frame, {}) == s1.frame;
      assert RunScope(env, guard.t.body, s1, fuel) == (Returned, s1);
    }
  }

  /** The whole body: guards, then tail. */
  lemma {:induction false} BodyRun(env: Env, body: seq<Stmt>, st: State, fuel: nat)
    ensures RunSeq(env, body, st, fuel) ==
      var (v, s1) := RunGuards(env.m, Guards(body), IDENTITY, st);
      if v.Threw? then (Raised(v.v), s1)
      else if v == Yes then RunSeq(env, TailOf(body), s1, fuel)
      else (Returned, s1)
  {
    var n := GuardCount(body);
    GuardsRun(env, body, n, st, fuel);
    assert Guards(body)[..n] == Guards(body);
    assert body == body[..n] + body[n..];
    RunSeqConcat(env, body[..n], body[n..], st, fuel);
  }

  lemma {:induction false} GuardIn(guards: seq<Expr>, i: nat)
    requires i < |guards|
    ensures ExprNames(guards[i]) <= ArgsNames(guards) && ExprWrites(guards[i]) <= ArgsWrites(guards)
  {
    if i > 0 {
      assert guards[i] == guards[1..][i - 1];
      GuardIn(guards[1..], i - 1);
    }
  }

  lemma {:induction false} GuardsAgree(
    m: Machine, guards: seq<Expr>, n: nat, extra: set<string>, a: Frame, b: Frame, w: World)
    requires n <= |guards| && Agree(extra, a, b) && ArgsNames(guards) !! extra
    ensures var (v1, s1) := RunGuards(m, guards[..n], IDENTITY, State(a, w));
      var (v2, s2) := RunGuards(m, guards[..n], IDENTITY, State(b, w));
      && v1 == v2 && s1.world == s2.world
      && Agree(extra, s1.frame, s2.frame) && Kept(extra, a, s1.frame) && Kept(extra, b, s2.frame)
  {
    if n > 0 {
      assert guards[..n][..n - 1] == guards[..n - 1];
      GuardsAgree(m, guards, n - 1, extra, a, b, w);
      var (_, s1) := RunGuards(m, guards[..n - 1], IDENTITY, State(a, w));
      var (_, s2) := RunGuards(m, guards[..n - 1], IDENTITY, State(b, w));
      GuardIn(guards, n - 1);
      SameExpr(guards[n - 1]);
      EvalAgree(m, guards[n - 1], extra, s1.frame, s2.frame, s1.world);
      assert s2 == State(s2.frame, s1.world);
    }
  }

  lemma {:induction false} GuardsRenamed(
    m: Machine, guards: seq<Expr>, n: nat, rho: Substitution, fr: Frame, fr2: Frame, base: Frame, w: World)
    requires n <= |guards| && Rel(rho, fr, fr2, base)
    requires Uncaptured(ArgsNames(guards), fr, fr2) && NoDroppedWrite(ArgsWrites(guards), rho)
    ensures var (v1, s1) := RunGuards(m, guards[..n], IDENTITY, State(fr, w));
      var (v2, s2) := RunGuards(m, guards[..n], rho, State(fr2, w));
      && v1 == v2 && s2 == State(s2.frame, s1.world) && Rel(rho, s1.frame, s2.frame, base)
      && s1.frame.Keys == fr.Keys && s2.frame.Keys == fr2.Keys
  {
    hide Rel;
    if n > 0 {
      assert guards[..n][..n - 1] == guards[..n - 1];
      GuardsRenamed(m, guards, n - 1, rho, fr, fr2, base, w);
      var (_, s1) := RunGuards(m, guards[..n - 1], IDENTITY, State(fr, w));
      var (_, s2) := RunGuards(m, guards[..n - 1], rho, State(fr2, w));
      GuardIn(guards, n - 1);
      SameExpr(guards[n - 1]);
      EvalRenamed(m, guards[n - 1], rho, s1.frame, s2.frame, base, s1.world);
    }
  }

  // ---------------------------------------------------------------- hoisted arguments

  lemma {:induction e} LiteralEval(m: Machine, e: Expr, s: State)
    requires IsLiteral(e)
    ensures Eval(m, e, s).0.Ok? && Eval(m, e, s).1 == s
  {
  }

  predicate DistinctParams(h: Helper) {
    forall i, j | 0 <= i < j < |h.params| :: h.params[i] != h.params[j]
  }

  /** What the substitution says of parameter `i`. */
  ghost predicate ParamPlanned(h: Helper, args: seq<Expr>, plan: Plan, taken: set<string>, i: nat)
    requires i < |h.params|
  {
    var p := h.params[i];
    && (Used(h, p) <==> p in plan.rho)
    && (Used(h, p) ==>
          if i < |args| then plan.rho[p].Var? && plan.rho[p].name in plan.taken - taken
          else plan.rho[p] == UndefinedLit)
  }

  ghost predicate TempsDistinct(rho: Substitution) {
    forall p, q | p in rho && q in rho && p != q && rho[p].Var? && rho[q].Var? :: rho[p].name != rho[q].name
  }

  ghost predicate Planned(h: Helper, args: seq<Expr>, n: nat, taken: set<string>, plan: Plan)
    requires n <= |h.params|
  {
    && taken <= plan.taken && Declared(plan.prefix) == plan.taken - taken
    && (forall p <- plan.rho :: p in h.params[..n])
    && (forall i | 0 <= i < n :: ParamPlanned(h, args, plan, taken, i))
    && TempsDistinct(plan.rho)
    && (forall p <- plan.rho ::
          if plan.rho[p].Var? then plan.rho[p].name in plan.taken - taken else plan.rho[p] == UndefinedLit)
  }

  lemma {:induction false} HoistPlanned(h: Helper, args: seq<Expr>, n: nat, taken: set<string>)
    requires DistinctParams(h) && n <= |h.params|
    ensures Planned(h, args, n, taken, Hoist(h, args, n, taken))
  {
    if n > 0 {
      HoistPlanned(h, args, n - 1, taken);
      HoistStepPlanned(h, args, n - 1, taken, Hoist(h, args, n - 1, taken));
    }
  }

  lemma {:induction false} HoistStepPlanned(h: Helper, args: seq<Expr>, k: nat, taken: set<string>, before: Plan)
    requires DistinctParams(h) && k < |h.params| && Planned(h, args, k, taken, before)
    ensures Planned(h, args, k + 1, taken, HoistStep(h, args, k, before))
  {
    hide Used, Declared, TempFor;
    var plan, p := HoistStep(h, args, k, before), h.params[k];
    assert TempFor(p, before.taken) !in before.taken by { FreshTemp(p, before.taken); }
    assert h.params[..k + 1] == h.params[..k] + [p];
    assert p !in before.rho;
    HoistStepDeclares(h, args, k, before);
    forall i | 0 <= i < k + 1 ensures ParamPlanned(h, args, plan, taken, i) {
      if i < k { assert ParamPlanned(h, args, before, taken, i); }
    }
  }

  lemma {:induction false} FreshTemp(p: string, taken: set<string>)
    ensures TempFor(p, taken) !in taken
  {
  }

  lemma {:induction false} HoistStepDeclares(h: Helper, args: seq<Expr>, k: nat, before: Plan)
    requires k < |h.params|
    ensures var plan := HoistStep(h, args, k, before);
      && before.taken <= plan.taken
      && Declared(plan.prefix) == Declared(before.prefix) + (plan.taken - before.taken)
  {
    if k < |args| {
      FreeConcat(before.prefix, [Declare(TempFor(h.params[k], before.taken), args[k])]);
      FreeConcat(before.prefix, [Do(args[k])]);
    }
  }

  /** Temporaries hold the values a call would have passed. */
  ghost predicate Holds(h: Helper, args: seq<Expr>, rho: Substitution, n: nat, vs: seq<Value>, b: Frame)
    requires n <= |h.params|
  {
    forall i | 0 <= i < n && i < |args| && i < |vs| && h.params[i] in rho ::
      rho[h.params[i]].Var? && rho[h.params[i]].name in b && b[rho[h.params[i]].name] == Init(vs[i])
  }

  /** After hoisting `n` parameters: `before` and `after` are the caller's frames of the call
      and of the inlined text. */
  ghost predicate HoistedSoFar(
    env: Env, h: Helper, args: seq<Expr>, n: nat, taken: set<string>, extra: set<string>,
    a: Frame, b: Frame, w: World, fuel: nat)
    requires n <= |h.params|
  {
    var plan := Hoist(h, args, n, taken);
    var (vs, thrown, s1) := EvalArgs(env.m, args[..Min(n, |args|)], State(a, w));
    var (k, s2) := RunSeq(env, plan.prefix, State(b, w), fuel);
    && s1.world == s2.world && Agree(extra, s1.frame, s2.frame)
    && Kept(extra, a, s1.frame) && Kept(extra - (plan.taken - taken), b, s2.frame)
    && (thrown.Some? ==> k == Raised(thrown.value))
    && (thrown.None? ==> k == Normal && Holds(h, args, plan.rho, n, vs, s2.frame))
  }

  lemma {:induction false} HoistRuns(
    env: Env, h: Helper, args: seq<Expr>, n: nat, taken: set<string>, extra: set<string>,
    a: Frame, b: Frame, w: World, fuel: nat)
    requires DistinctParams(h) && n <= |h.params|
    requires Agree(extra, a, b) && ArgsNames(args) !! extra && extra <= b.Keys
    requires Hoist(h, args, n, taken).taken - taken <= extra
    ensures HoistedSoFar(env, h, args, n, taken, extra, a, b, w, fuel)
  {
    hide HoistedSoFar, Planned, Hoist;
    if n == 0 {
      NothingHoisted(env, h, args, taken, extra, a, b, w, fuel);
    } else {
      TakenGrowsOnce(h, args, n - 1, taken);
      HoistRuns(env, h, args, n - 1, taken, extra, a, b, w, fuel);
      if n - 1 < |args| {
        HoistStepRuns(env, h, args, n - 1, taken, extra, a, b, w, fuel);
      } else {
        MissingArgument(env, h, args, n - 1, taken, extra, a, b, w, fuel);
      }
    }
  }

  lemma {:induction false} NothingHoisted(
    env: Env, h: Helper, args: seq<Expr>, taken: set<string>, extra: set<string>,
    a: Frame, b: Frame, w: World, fuel: nat)
    requires Agree(extra, a, b)
    ensures HoistedSoFar(env, h, args, 0, taken, extra, a, b, w, fuel)
  {
    assert args[..0] == [];
  }

  lemma {:induction false} TakenGrowsOnce(h: Helper, args: seq<Expr>, i: nat, taken: set<string>)
    requires i < |h.params|
    ensures Hoist(h, args, i, taken).taken <= Hoist(h, args, i + 1, taken).taken
  {
    hide Used, TempFor;
  }

  /** A parameter without an argument adds no text. */
  lemma {:induction false} MissingArgument(
    env: Env, h: Helper, args: seq<Expr>, i: nat, taken: set<string>, extra: set<string>,
    a: Frame, b: Frame, w: World, fuel: nat)
    requires DistinctParams(h) && |args| <= i < |h.params|
    requires HoistedSoFar(env, h, args, i, taken, extra, a, b, w, fuel)
    ensures HoistedSoFar(env, h, args, i + 1, taken, extra, a, b, w, fuel)
  {
    hide Used, EvalArgs, RunSeq, Agree, Kept;
    var plan := Hoist(h, args, i, taken);
    assert Hoist(h, args, i + 1, taken) == HoistStep(h, args, i, plan);
    assert HoistStep(h, args, i, plan).prefix == plan.prefix && HoistStep(h, args, i, plan).taken == plan.taken;
    assert forall j | 0 <= j < i :: h.params[j] != h.params[i];
  }

  lemma {:induction false} HoistStepRuns(
    env: Env, h: Helper, args: seq<Expr>, i: nat, taken: set<string>, extra: set<string>,
    a: Frame, b: Frame, w: World, fuel: nat)
    requires DistinctParams(h) && i < |h.params| && i < |args|
    requires Agree(extra, a, b) && ArgsNames(args) !! extra && extra <= b.Keys
    requires Hoist(h, args, i + 1, taken).taken - taken <= extra
    requires HoistedSoFar(env, h, args, i, taken, extra, a, b, w, fuel)
    ensures HoistedSoFar(env, h, args, i + 1, taken, extra, a, b, w, fuel)
  {
    hide Eval, EvalArgs, RunSeq, Used, TempFor, Holds, ArgsNames, ExprNames, Planned, IsLiteral, Agree, Kept,
      Initialise;
    var plan, plan1 := Hoist(h, args, i, taken), Hoist(h, args, i + 1, taken);
    assert plan1 == HoistStep(h, args, i, plan);
    hide Hoist;
    TempIsFresh(h, args, i, taken);
    EvalArgsSnoc(env.m, args, i, State(a, w));
    StepText(env, h, args, i, plan, State(b, w), fuel);
    var (vs, thrown, s1) := EvalArgs(env.m, args[..i], State(a, w));
    var (k, s2) := RunSeq(env, plan.prefix, State(b, w), fuel);
    var kept := extra - (plan.taken - taken);
    KeptLess(kept, extra - (plan1.taken - taken), b, s2.frame);
    if thrown.None? {
      GuardIn(args, i);
      assert s2 == State(s2.frame, s1.world) && s1 == State(s1.frame, s1.world);
      OneArgument(env.m, args[i], extra, kept, a, b, s1, s2);
      ArgsLength(env.m, args[..i], State(a, w));
      var (o, u1) := Eval(env.m, args[i], s1);
      var (_, u2) := Eval(env.m, args[i], s2);
      KeptLess(kept, extra - (plan1.taken - taken), b, u2.frame);
      if Used(h, h.params[i]) && o.Ok? {
        var temp := TempFor(h.params[i], plan.taken);
        InitialiseTemp(extra, kept, temp, b, u1.frame, u2.frame, o.v);
        assert kept - {temp} == extra - (plan1.taken - taken);
        HoldsMore(h, args, plan, taken, i, vs, s2.frame, u2.frame, extra, temp, o.v);
      } else if o.Ok? {
        HoldsOn(h, args, plan, taken, i, vs, s2.frame, u2.frame, extra, o.v);
      }
    }
  }

  lemma {:induction false} TempIsFresh(h: Helper, args: seq<Expr>, i: nat, taken: set<string>)
    requires i < |h.params|
    ensures taken <= Hoist(h, args, i, taken).taken
    ensures Hoist(h, args, i, taken).taken <= Hoist(h, args, i + 1, taken).taken
    ensures TempFor(h.params[i], Hoist(h, args, i, taken).taken) !in Hoist(h, args, i, taken).taken
    decreases i
  {
    if i > 0 { TempIsFresh(h, args, i - 1, taken); }
    TakenGrowsOnce(h, args, i, taken);
  }

  lemma {:induction false} ArgsLength(m: Machine, args: seq<Expr>, s: State)
    ensures EvalArgs(m, args, s).1.None? ==> |EvalArgs(m, args, s).0| == |args|
  {
    hide Eval;
    if args != [] { ArgsLength(m, args[1..], Eval(m, args[0], s).1); }
  }

  lemma {:induction false} KeptLess(more: set<string>, fewer: set<string>, before: Frame, after: Frame)
    requires Kept(more, before, after) && fewer <= more
    ensures Kept(fewer, before, after)
  {
  }

  /** The next argument, evaluated in both frames. */
  lemma {:induction false} OneArgument(
    m: Machine, e: Expr, extra: set<string>, kept: set<string>, a: Frame, b: Frame, s1: State, s2: State)
    requires ExprNames(e) !! extra && kept <= extra && s2 == State(s2.frame, s1.world)
    requires Agree(extra, s1.frame, s2.frame) && Kept(extra, a, s1.frame) && Kept(kept, b, s2.frame)
    ensures var (o, u1) := Eval(m, e, s1);
      var (o2, u2) := Eval(m, e, s2);
      && o == o2 && u1.world == u2.world && Agree(extra, u1.frame, u2.frame)
      && Kept(extra, a, u1.frame) && Kept(kept, b, u2.frame) && Kept(extra, s2.frame, u2.frame)
  {
    hide Eval, ExprNames;
    EvalAgree(m, e, extra, s1.frame, s2.frame, s1.world);
    assert s1 == State(s1.frame, s1.world);
  }

  lemma {:induction false} InitialiseTemp(
    extra: set<string>, kept: set<string>, temp: string, b: Frame, a1: Frame, b1: Frame, v: Value)
    requires temp in extra && Agree(extra, a1, b1) && Kept(kept, b, b1) && temp in b
    ensures Agree(extra, a1, Initialise(b1, temp, v)) && Kept(kept - {temp}, b, Initialise(b1, temp, v))
  {
  }

  /** What the text of one more parameter does after the text of the earlier ones. */
  lemma {:induction false} StepText(env: Env, h: Helper, args: seq<Expr>, i: nat, plan: Plan, st: State, fuel: nat)
    requires i < |h.params| && i < |args|
    ensures RunSeq(env, HoistStep(h, args, i, plan).prefix, st, fuel) ==
      var (k, s2) := RunSeq(env, plan.prefix, st, fuel);
      if k != Normal then (k, s2) else
      var (o, u2) := Eval(env.m, args[i], s2);
      if o.Throw? then (Raised(o.v), u2)
      else (Normal, if Used(h, h.params[i])
                    then u2.(frame := Initialise(u2.frame, TempFor(h.params[i], plan.taken), o.v)) else u2)
  {
    var (k, s2) := RunSeq(env, plan.prefix, st, fuel);
    if Used(h, h.params[i]) {
      var s := Declare(TempFor(h.params[i], plan.taken), args[i]);
      RunSeqConcat(env, plan.prefix, [s], st, fuel);
      RunOne(env, s, s2, fuel);
    } else if IsLiteral(args[i]) {
      LiteralEval(env.m, args[i], s2);
    } else {
      RunSeqConcat(env, plan.prefix, [Do(args[i])], st, fuel);
      RunOne(env, Do(args[i]), s2, fuel);
    }
  }

  lemma {:induction false} HoldsOn(
    h: Helper, args: seq<Expr>, plan: Plan, taken: set<string>, i: nat, vs: seq<Value>,
    b: Frame, b1: Frame, extra: set<string>, v: Value)
    requires DistinctParams(h) && i < |h.params| && i < |args| && |vs| == i
    requires plan == Hoist(h, args, i, taken) && plan.taken - taken <= extra
    requires Holds(h, args, plan.rho, i, vs, b) && Kept(extra, b, b1)
    ensures Holds(h, args, plan.rho, i + 1, vs + [v], b1)
  {
    HoistPlanned(h, args, i, taken);
    forall j | 0 <= j < i + 1 && h.params[j] in plan.rho
      ensures plan.rho[h.params[j]].Var? && plan.rho[h.params[j]].name in b1
      ensures b1[plan.rho[h.params[j]].name] == Init((vs + [v])[j])
    {
      assert ParamPlanned(h, args, plan, taken, j);
    }
  }

  lemma {:induction false} HoldsMore(
    h: Helper, args: seq<Expr>, plan: Plan, taken: set<string>, i: nat, vs: seq<Value>,
    b: Frame, b1: Frame, extra: set<string>, temp: string, v: Value)
    requires DistinctParams(h) && i < |h.params| && i < |args| && |vs| == i
    requires plan == Hoist(h, args, i, taken) && plan.taken - taken <= extra
    requires Holds(h, args, plan.rho, i, vs, b) && Kept(extra, b, b1)
    requires temp in b && temp !in plan.taken
    ensures Holds(h, args, plan.rho[h.params[i] := Var(temp)], i + 1, vs + [v], Initialise(b1, temp, v))
  {
    HoistPlanned(h, args, i, taken);
    var rho := plan.rho[h.params[i] := Var(temp)];
    forall j | 0 <= j < i + 1 && h.params[j] in rho
      ensures rho[h.params[j]].Var? && rho[h.params[j]].name in b1
      ensures Initialise(b1, temp, v)[rho[h.params[j]].name] == Init((vs + [v])[j])
    {
      if j < i {
        assert ParamPlanned(h, args, plan, taken, j);
      }
    }
  }

  // ---------------------------------------------------------------- the helper's frame

  lemma {:induction false} BindAt(params: seq<string>, vs: seq<Value>)
    requires forall i, j | 0 <= i < j < |params| :: params[i] != params[j]
    ensures Bind(params, vs).Keys == set p | p in params
    ensures forall i | 0 <= i < |params| ::
      Bind(params, vs)[params[i]] == Init(if i < |vs| then vs[i] else Undefined)
  {
    if params != [] {
      var last := |params| - 1;
      BindAt(params[..last], vs);
      assert forall p :: p in params <==> p in params[..last] || p == params[last];
    }
  }

  /** The parameters the body mentions, with their values. */
  function UsedFrame(h: Helper, vs: seq<Value>): Frame {
    map p | p in Bind(h.params, vs) && Used(h, p) :: Bind(h.params, vs)[p]
  }

  function Unused(h: Helper): set<string> {
    set p | p in h.params && !Used(h, p)
  }

  lemma {:induction false} UnusedDropped(h: Helper, vs: seq<Value>)
    requires Syntactic(h)
    ensures Agree(Unused(h), HelperFrame(h, vs), Push(UsedFrame(h, vs), Declared(h.body)))
    ensures FreeSeq(h.body) !! Unused(h)
  {
    BindAt(h.params, vs);
    hide Bind, FreeSeq, Declared;
  }

  lemma {:induction false} HoistedRel(h: Helper, args: seq<Expr>, vs: seq<Value>, taken: set<string>, b: Frame)
    requires DistinctParams(h) && |args| <= |h.params| && |vs| == |args|
    requires var plan := Hoist(h, args, |h.params|, taken);
      plan.taken - taken <= b.Keys && Holds(h, args, plan.rho, |h.params|, vs, b)
    ensures Rel(Hoist(h, args, |h.params|, taken).rho, UsedFrame(h, vs), b, b)
    ensures UsedFrame(h, vs).Keys == Hoist(h, args, |h.params|, taken).rho.Keys
  {
    hide Hoist, Bind, Used, Declared;
    var n := |h.params|;
    var plan := Hoist(h, args, n, taken);
    var fr := UsedFrame(h, vs);
    HoistPlanned(h, args, n, taken);
    forall p <- fr ensures p in plan.rho && Carried(plan.rho, fr, b, p) {
      ParamCarried(h, args, vs, taken, b, p);
    }
    forall p <- plan.rho ensures p in fr && (plan.rho[p].Var? || plan.rho[p] == UndefinedLit) {
      PlannedIsUsed(h, args, vs, taken, p);
    }
  }

  lemma {:induction false} ParamCarried(
    h: Helper, args: seq<Expr>, vs: seq<Value>, taken: set<string>, b: Frame, p: string)
    requires DistinctParams(h) && |args| <= |h.params| && |vs| == |args| && p in UsedFrame(h, vs)
    requires var plan := Hoist(h, args, |h.params|, taken);
      plan.taken - taken <= b.Keys && Holds(h, args, plan.rho, |h.params|, vs, b)
    ensures var rho := Hoist(h, args, |h.params|, taken).rho; p in rho && Carried(rho, UsedFrame(h, vs), b, p)
  {
    hide Hoist, Used, Declared, TempsDistinct;
    BindAt(h.params, vs);
    hide Bind;
    var n := |h.params|;
    HoistPlanned(h, args, n, taken);
    var i :| 0 <= i < n && h.params[i] == p;
    assert ParamPlanned(h, args, Hoist(h, args, n, taken), taken, i);
  }

  lemma {:induction false} PlannedIsUsed(h: Helper, args: seq<Expr>, vs: seq<Value>, taken: set<string>, p: string)
    requires DistinctParams(h) && |args| <= |h.params| && |vs| == |args|
    requires p in Hoist(h, args, |h.params|, taken).rho
    ensures p in UsedFrame(h, vs)
    ensures var rho := Hoist(h, args, |h.params|, taken).rho; rho[p].Var? || rho[p] == UndefinedLit
  {
    hide Hoist, Used, Declared, TempsDistinct;
    BindAt(h.params, vs);
    hide Bind;
    var n := |h.params|;
    HoistPlanned(h, args, n, taken);
    assert h.params[..n] == h.params;
    var i :| 0 <= i < n && h.params[i] == p;
    assert ParamPlanned(h, args, Hoist(h, args, n, taken), taken, i);
  }
}
