/** The shadow check: is an outer name of the helper bound between the call and the module?
    It works on a set of names computed without regard to scopes. */
module ShadowCheck {
  import opened Optional
  import opened JsExpression
  import opened HelperLanguage
  import opened GuardText
  import opened GuardInversion
  import opened GuardExactness
  import opened EscapeAnalysis
  import opened FreshNames
  import opened InlinePlan
  import opened InlineCorrect
  import opened InlineTheorem
  import opened InsertedStatements
  import opened Weakening

  /** Every identifier written in a statement, declarations included. */
  function Mentions(s: Stmt): set<string>
    decreases s, 1
  {
    match s
    case Do(e) => ExprNames(e)
    case Declare(x, e) => {x} + ExprNames(e)
    case Return(None) => {}
    case Return(Some(e)) => ExprNames(e)
    case Break(_) => {}
    case Continue(_) => {}
    case If(c, t, f) => ExprNames(c) + Mentions(t) + (if f.Some? then Mentions(f.value) else {})
    case Block(body) => MentionsSeq(body)
    case While(c, body) => ExprNames(c) + Mentions(body)
    case Switch(on, cs) => ExprNames(on) + MentionsClauses(cs)
    case Labeled(_, s1) => Mentions(s1)
    case Nested(body) => MentionsSeq(body)
    case Call(args) => ArgsNames(args)
  }

  function MentionsSeq(body: seq<Stmt>): set<string>
    decreases body, 0
  {
    if body == [] then {} else Mentions(body[0]) + MentionsSeq(body[1..])
  }

  function MentionsClauses(cs: seq<Clause>): set<string>
    decreases cs, 0
  {
    if cs == [] then {} else MentionsSeq(cs[0].body) + MentionsClauses(cs[1..])
  }

  /** The names checked for shadowing: everything mentioned that is declared nowhere in the
      body and is not a parameter. */
  function ComputedFreeNames(h: Helper): set<string> {
    MentionsSeq(h.body) - BindersSeq(h.body) - (set p | p in h.params)
  }

  lemma {:induction false} MentionsAre(s: Stmt)
    ensures Free(s) <= Mentions(s) <= Free(s) + Binders(s)
    decreases s, 1
  {
    match s
    case If(_, t, f) =>
      MentionsAre(t);
      if f.Some? { MentionsAre(f.value); }
    case Block(body) => MentionsSeqAre(body);
    case While(_, body) => MentionsAre(body);
    case Switch(_, cs) => MentionsClausesAre(cs);
    case Labeled(_, s1) => MentionsAre(s1);
    case Nested(body) => MentionsSeqAre(body);
    case _ =>
  }

  lemma {:induction false} MentionsSeqAre(body: seq<Stmt>)
    ensures FreeSeq(body) <= MentionsSeq(body) <= FreeSeq(body) + BindersSeq(body)
    decreases body, 0
  {
    if body != [] { MentionsAre(body[0]); MentionsSeqAre(body[1..]); }
  }

  lemma {:induction false} MentionsClausesAre(cs: seq<Clause>)
    ensures FreeClauses(cs) <= MentionsClauses(cs) <= FreeClauses(cs) + BindersClauses(cs)
    decreases cs, 0
  {
    if cs != [] { MentionsSeqAre(cs[0].body); MentionsClausesAre(cs[1..]); }
  }

  /** The check sees every outer name if and only if no outer name is also declared in some
      inner scope of the body. */
  lemma {:induction false} ShadowCheckExact(h: Helper)
    ensures ComputedFreeNames(h) <= OuterNames(h)
    ensures ComputedFreeNames(h) == OuterNames(h) <==> OuterNames(h) !! BindersSeq(h.body)
  {
    MentionsSeqAre(h.body);
  }

  /** `{ let x = 0; }  use(x);`: the outer `x` is not checked, so a caller's own `x` would
      capture it. */
  lemma {:induction false} InnerDeclarationHidesOuterName()
    ensures var h := Helper([], [
        Block([Declare("x", Leaf(Lit(Num(0))))]),
        Do(Leaf(Op(0, [Var("x")])))]);
      "x" in OuterNames(h) && ComputedFreeNames(h) == {}
  {
    var inner := [Declare("x", Leaf(Lit(Num(0))))];
    var use := Do(Leaf(Op(0, [Var("x")])));
    var h := Helper([], [Block(inner), use]);
    assert AtomsNames([Var("x")]) == {"x"};
    assert Free(use) == {"x"} && Mentions(use) == {"x"};
    assert Declared(inner) == {"x"} && FreeSeq(inner) == {"x"} && MentionsSeq(inner) == {"x"};
    assert BindersSeq(inner) == {"x"};
    assert h.body[1..] == [use];
    assert BindersSeq(h.body) == Binders(Block(inner)) + BindersSeq(h.body[1..]);
    assert FreeSeq([use]) == {"x"} && MentionsSeq([use]) == {"x"} && BindersSeq([use]) == {};
    assert FreeSeq(h.body) == {"x"} && MentionsSeq(h.body) == {"x"} && BindersSeq(h.body) == {"x"};
    assert Declared([use]) == {};
    assert Declared(h.body) == {};
  }

  /** A world with one operation that only records its arguments. */
  function Recorder(): Machine {
    Machine((id, args, w: World) => (Ok(Undefined), w.globals), JsLess, (x, y) => x == y, (x, y) => x == y)
  }

  /** Recording two variables. */
  lemma {:induction false} RecordsTwo(env: Env, x: string, y: string, u: Value, v: Value, s: State, fuel: nat)
    requires env.m == Recorder() && Lookup(x, s) == Ok(u) && Lookup(y, s) == Ok(v)
    ensures RunSeq(env, [Do(Leaf(Op(0, [Var(x), Var(y)])))], s, fuel) ==
      (Normal, s.(world := World(s.world.globals, s.world.trace + [Event(0, [u, v])])))
  {
    var use := Do(Leaf(Op(0, [Var(x), Var(y)])));
    RunOne(env, use, s, fuel);
    assert [Var(x), Var(y)][1..] == [Var(y)] && [Var(y)][1..] == [];
    assert EvalAtoms(env.m, [], s) == ([], None, s);
    assert [v] + [] == [v] && [u] + [v] == [u, v];
    assert EvalAtoms(env.m, [Var(y)], s) == ([v], None, s);
    assert EvalAtoms(env.m, [Var(x), Var(y)], s) == ([u, v], None, s);
    assert EvalAtom(env.m, Op(0, [Var(x), Var(y)]), s) == RunOp(env.m, 0, [u, v], s);
  }

  /** The call records the argument and the global ... */
  lemma {:induction false} CallReadsGlobal(h: Helper, args: seq<Expr>, w: World)
    requires h == Helper(["p"], [Do(Leaf(Op(0, [Var("p"), Var("__inl_p")])))]) && args == [Leaf(Lit(Num(1)))]
    requires w == World(map["__inl_p" := Num(7)], [])
    ensures Run(Env(Recorder(), Some(h)), Call(args), {}, State(map[], w), 0).1.world.trace
      == [Event(0, [Num(1), Num(7)])]
  {
    var env := Env(Recorder(), Some(h));
    assert args[1..] == [];
    assert [Num(1)] + [] == [Num(1)];
    assert EvalArgs(env.m, [], State(map[], w)) == ([], None, State(map[], w));
    assert EvalArgs(env.m, args, State(map[], w)) == ([Num(1)], None, State(map[], w));
    RunCall(env, h, args, State(map[], w), 0);
    assert Declared(h.body) == {} && h.params[..0] == [];
    var fr := HelperFrame(h, [Num(1)]);
    hide RunScope;
    assert fr["p"] == Init(Num(1)) && "__inl_p" !in fr;
    RecordsTwo(Env(env.m, None), "p", "__inl_p", Num(1), Num(7), State(fr, w), 0);
  }

  /** ... and the inlined text records the argument twice. */
  lemma {:induction false} TextReadsTemporary(env: Env, arg: Expr, w: World)
    requires env.m == Recorder() && arg == Leaf(Lit(Num(1))) && w.trace == []
    ensures RunSeq(env, [Declare("__inl_p", arg), Do(Leaf(Op(0, [Var("__inl_p"), Var("__inl_p")])))],
      State(map["__inl_p" := Uninit], w), 0).1.world.trace == [Event(0, [Num(1), Num(1)])]
  {
    var b := State(map["__inl_p" := Uninit], w);
    var decl, use := Declare("__inl_p", arg), Do(Leaf(Op(0, [Var("__inl_p"), Var("__inl_p")])));
    assert [decl] + [use] == [decl, use];
    RunSeqConcat(env, [decl], [use], b, 0);
    RunOne(env, decl, b, 0);
    RecordsTwo(env, "__inl_p", "__inl_p", Num(1), Num(1), State(map["__inl_p" := Init(Num(1))], w), 0);
  }

  /** Reserving names from the target block only is not enough: a helper that mentions a
      global spelled like a temporary reads the temporary after inlining. */
  lemma {:induction false} TemporaryCapturesGlobal()
    ensures
      var h := Helper(["p"], [Do(Leaf(Op(0, [Var("p"), Var("__inl_p")])))]);
      var args, env := [Leaf(Lit(Num(1)))], Env(Recorder(), Some(h));
      var w := World(map["__inl_p" := Num(7)], []);
      && InsertedAt(h, args, {}) ==
           [Declare("__inl_p", args[0]), Do(Leaf(Op(0, [Var("__inl_p"), Var("__inl_p")])))]
      && Run(env, Call(args), {}, State(map[], w), 0).1.world.trace == [Event(0, [Num(1), Num(7)])]
      && RunSeq(env, InsertedAt(h, args, {}), State(map["__inl_p" := Uninit], w), 0).1.world.trace
           == [Event(0, [Num(1), Num(1)])]
  {
    hide *;
    var h := Helper(["p"], [Do(Leaf(Op(0, [Var("p"), Var("__inl_p")])))]);
    var args, env := [Leaf(Lit(Num(1)))], Env(Recorder(), Some(h));
    var w := World(map["__inl_p" := Num(7)], []);
    CapturingText(h, args);
    CallReadsGlobal(h, args, w);
    TextReadsTemporary(env, args[0], w);
  }

  lemma {:induction false} CapturingText(h: Helper, args: seq<Expr>)
    requires h == Helper(["p"], [Do(Leaf(Op(0, [Var("p"), Var("__inl_p")])))])
    requires args == [Leaf(Lit(Num(1)))]
    ensures InsertedAt(h, args, {}) ==
      [Declare("__inl_p", args[0]), Do(Leaf(Op(0, [Var("__inl_p"), Var("__inl_p")])))]
  {
    var use := Op(0, [Var("p"), Var("__inl_p")]);
    assert AtomNames(Var("p")) == {"p"};
    assert use.args[1..] == [Var("__inl_p")];
    assert "p" in AtomsNames(use.args);
    assert "p" in Free(h.body[0]);
    assert "p" in FreeSeq(h.body);
    assert TempFor("p", {}) == "__inl_p" by {
      assert "__inl_" + "p" == "__inl_p";
    }
    var plan := Hoist(h, args, 1, {});
    assert plan == HoistStep(h, args, 0, Hoist(h, args, 0, {}));
    assert plan.prefix == [] + [Declare("__inl_p", args[0])];
    assert plan.rho == map["p" := Var("__inl_p")];
    assert GuardCount(h.body) == 0;
    assert Guards(h.body) == [] && TailOf(h.body) == h.body;
    assert Renames(h.body, 1, plan.taken) == Renames(h.body, 0, plan.taken);
    assert plan.rho + map[] == plan.rho;
    assert SubstAtoms([], plan.rho) == [];
    assert SubstAtoms([Var("__inl_p")], plan.rho) == [Var("__inl_p")];
    assert SubstAtoms(use.args, plan.rho) == [Var("__inl_p"), Var("__inl_p")];
    assert h.body[1..] == [];
    assert SubstSeq(h.body, plan.rho) == [SubstStmt(h.body[0], plan.rho)];
  }
}
