/** Variables a statement does not mention do not matter to it, and it does not touch them. */
module Weakening {
  import opened Optional
  import opened JsExpression
  import opened HelperLanguage
  import opened Renaming

  lemma {:induction false} SameStmt(s: Stmt)
    ensures SubstStmt(s, IDENTITY) == s
    decreases s, 1
  {
    match s
    case Do(e) => SameExpr(e);
    case Declare(_, e) => SameExpr(e);
    case Return(Some(e)) => SameExpr(e);
    case If(c, t, f) =>
      SameExpr(c);
      SameStmt(t);
      if f.Some? { SameStmt(f.value); }
    case Block(body) => SameSeq(body); assert IDENTITY - Declared(body) == IDENTITY;
    case While(c, body) => SameExpr(c); SameStmt(body);
    case Switch(on, cs) => SameExpr(on); SameClauses(cs); assert IDENTITY - DeclaredClauses(cs) == IDENTITY;
    case Labeled(_, s1) => SameStmt(s1);
    case Nested(body) => SameSeq(body); assert IDENTITY - Declared(body) == IDENTITY;
    case Call(args) => SameArgs(args);
    case _ =>
  }

  lemma {:induction false} SameSeq(body: seq<Stmt>)
    ensures SubstSeq(body, IDENTITY) == body
    decreases body, 0
  {
    if body != [] { SameStmt(body[0]); SameSeq(body[1..]); }
  }

  lemma {:induction false} SameClauses(cs: seq<Clause>)
    ensures SubstClauses(cs, IDENTITY) == cs
    decreases cs, 0
  {
    if cs != [] { SameSeq(cs[0].body); SameClauses(cs[1..]); }
  }

  lemma {:induction false} SameArgs(args: seq<Expr>)
    ensures SubstArgs(args, IDENTITY) == args
  {
    if args != [] { SameExpr(args[0]); SameArgs(args[1..]); }
  }

  // ---------------------------------------------------------------- agreement

  /** The frames differ at most in the variables `extra`. */
  ghost predicate Agree(extra: set<string>, a: Frame, b: Frame) {
    a - extra == b - extra
  }

  /** A run leaves the variables `extra` as they were. */
  ghost predicate Kept(extra: set<string>, before: Frame, after: Frame) {
    before.Keys == after.Keys && forall x <- extra :: x in before ==> after[x] == before[x]
  }

  lemma {:induction false} CoreRel(extra: set<string>, a: Frame)
    ensures Rel(IDENTITY, a - extra, a, a)
  {
    forall x <- a - extra ensures Carried(IDENTITY, a - extra, a, x) {}
  }

  lemma {:induction false} CoreRelBack(extra: set<string>, c: Frame, a: Frame, base: Frame)
    requires Rel(IDENTITY, c, a, base) && c.Keys == a.Keys - extra
    ensures c == a - extra
    ensures Kept(extra, base, a)
  {
    forall x <- c ensures a[x] == c[x] {
      assert Carried(IDENTITY, c, a, x);
    }
    assert forall x <- extra :: x in a ==> x !in Images(IDENTITY, c);
  }

  lemma {:induction false} EvalAgree(
    m: Machine, e: Expr, extra: set<string>, a: Frame, b: Frame, w: World)
    requires Agree(extra, a, b) && ExprNames(e) !! extra
    ensures var (o1, s1) := Eval(m, e, State(a, w));
      var (o2, s2) := Eval(m, e, State(b, w));
      && o1 == o2 && s1.world == s2.world
      && Agree(extra, s1.frame, s2.frame) && Kept(extra, a, s1.frame) && Kept(extra, b, s2.frame)
  {
    CoreRel(extra, a);
    CoreRel(extra, b);
    var c := a - extra;
    SameExpr(e);
    EvalRenamed(m, e, IDENTITY, c, a, a, w);
    EvalRenamed(m, e, IDENTITY, c, b, b, w);
    var core := Eval(m, e, State(c, w)).1.frame;
    CoreRelBack(extra, core, Eval(m, e, State(a, w)).1.frame, a);
    CoreRelBack(extra, core, Eval(m, e, State(b, w)).1.frame, b);
  }

  lemma {:induction false} SeqAgree(
    env: Env, body: seq<Stmt>, fuel: nat, extra: set<string>, a: Frame, b: Frame, w: World)
    requires Agree(extra, a, b) && FreeSeq(body) !! extra
    ensures var (k1, s1) := RunSeq(env, body, State(a, w), fuel);
      var (k2, s2) := RunSeq(env, body, State(b, w), fuel);
      && k1 == k2 && s1.world == s2.world
      && Agree(extra, s1.frame, s2.frame) && Kept(extra, a, s1.frame) && Kept(extra, b, s2.frame)
  {
    CoreRel(extra, a);
    CoreRel(extra, b);
    var c := a - extra;
    SameSeq(body);
    SeqRenamed(env, body, fuel, IDENTITY, c, a, a, w);
    SeqRenamed(env, body, fuel, IDENTITY, c, b, b, w);
    var core := RunSeq(env, body, State(c, w), fuel).1.frame;
    CoreRelBack(extra, core, RunSeq(env, body, State(a, w), fuel).1.frame, a);
    CoreRelBack(extra, core, RunSeq(env, body, State(b, w), fuel).1.frame, b);
  }

  // ---------------------------------------------------------------- sequencing

  lemma {:induction false} RunSeqConcat(env: Env, a: seq<Stmt>, b: seq<Stmt>, st: State, fuel: nat)
    ensures RunSeq(env, a + b, st, fuel) ==
      var (k, s1) := RunSeq(env, a, st, fuel);
      if k == Normal then RunSeq(env, b, s1, fuel) else (k, s1)
  {
    if a == [] {
      assert a + b == b;
    } else {
      assert (a + b)[1..] == a[1..] + b;
      RunSeqConcat(env, a[1..], b, Run(env, a[0], {}, st, fuel).1, fuel);
    }
  }

  lemma {:induction false} RunOne(env: Env, s: Stmt, st: State, fuel: nat)
    ensures RunSeq(env, [s], st, fuel) == Run(env, s, {}, st, fuel)
  {
  }

  lemma {:induction false} EvalArgsSnoc(m: Machine, args: seq<Expr>, n: nat, st: State)
    requires n < |args|
    ensures EvalArgs(m, args[..n + 1], st) ==
      var (vs, thrown, s1) := EvalArgs(m, args[..n], st);
      if thrown.Some? then (vs, thrown, s1) else
      var (o, s2) := Eval(m, args[n], s1);
      if o.Throw? then (vs, Some(o.v), s2) else (vs + [o.v], None, s2)
  {
    hide Eval;
    var (o0, s0) := Eval(m, args[0], st);
    if n == 0 {
      assert args[..0] == [] && args[..1] == [args[0]];
      EvalOneArg(m, args[0], st);
      assert EvalArgs(m, [], st) == ([], None, st);
      assert forall v: Value :: [] + [v] == [v];
    } else {
      assert args[..n + 1][1..] == args[1..][..n] && args[..n][1..] == args[1..][..n - 1];
      EvalArgsSnoc(m, args[1..], n - 1, s0);
      var (vs, thrown, s1) := EvalArgs(m, args[1..][..n - 1], s0);
      var (o, _) := Eval(m, args[n], s1);
      assert args[1..][n - 1] == args[n];
      assert [o0.v] + (vs + [o.v]) == ([o0.v] + vs) + [o.v];
    }
  }

  lemma {:induction false} EvalOneArg(m: Machine, e: Expr, st: State)
    ensures EvalArgs(m, [e], st) ==
      var (o, s1) := Eval(m, e, st);
      if o.Throw? then ([], Some(o.v), s1) else ([o.v], None, s1)
  {
    hide Eval;
    var (o, s1) := Eval(m, e, st);
    assert [e][1..] == [];
    assert EvalArgs(m, [], s1) == ([], None, s1);
    assert [o.v] + [] == [o.v];
  }

  lemma {:induction false} FreeConcat(a: seq<Stmt>, b: seq<Stmt>)
    ensures FreeSeq(a + b) == FreeSeq(a) + FreeSeq(b)
    ensures WritesSeq(a + b) == WritesSeq(a) + WritesSeq(b)
    ensures BindersSeq(a + b) == BindersSeq(a) + BindersSeq(b)
    ensures Declared(a + b) == Declared(a) + Declared(b)
  {
    if a == [] {
      assert a + b == b;
    } else {
      assert (a + b)[1..] == a[1..] + b;
      FreeConcat(a[1..], b);
    }
  }
}
