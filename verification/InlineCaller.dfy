/** Inlining a helper throughout a caller: in every block of it, however deeply nested, in the
    clauses of switches, and where a call stands alone as the body of another statement. */
module InlineCaller {
  import opened Optional
  import opened JsExpression
  import opened HelperLanguage
  import opened InlinePlan
  import opened InlineCorrect
  import opened InlineTheorem
  import opened InsertedStatements
  import opened InlineBlock
  import opened Renaming
  import opened ShadowCheck
  import opened Weakening

  // ---------------------------------------------------------------- the transformation

  /** A block: each of its statements on its own, then its direct calls, which draw their names
      from one set, everything the block mentions being taken from the start. */
  function InlineBody(h: Helper, body: seq<Stmt>): seq<Stmt>
    decreases body, 1
  {
    InlineDirect(h, InlineEach(h, body), MentionsSeq(body))
  }

  function InlineStmt(h: Helper, s: Stmt): Stmt
    decreases s, 1
  {
    match s
    case If(c, t, None) => If(c, InlineBranch(h, t, Mentions(s)), None)
    case If(c, t, Some(f)) =>
      If(c, InlineBranch(h, t, Mentions(s)), Some(InlineBranch(h, f, TakenThrough(h, [t], Mentions(s)))))
    case Block(body) => Block(InlineBody(h, body))
    case While(c, body) => While(c, InlineBranch(h, body, Mentions(s)))
    case Switch(on, cs) => Switch(on, InlineCases(h, InlineClauses(h, cs), MentionsClauses(cs)))
    case Labeled(l, s1) => Labeled(l, InlineBranch(h, s1, Mentions(s)))
    case Nested(body) => Nested(InlineBody(h, body))
    case _ => s
  }

  /** A call that is the whole body of another statement gets a block of its own. */
  function InlineBranch(h: Helper, s: Stmt, reserved: set<string>): Stmt
    decreases s, 2
  {
    if s.Call? then Block(InlineDirect(h, [s], reserved)) else InlineStmt(h, s)
  }

  /** Each statement on its own, direct calls left in place. */
  function InlineEach(h: Helper, body: seq<Stmt>): seq<Stmt>
    decreases body, 0
  {
    if body == [] then [] else [InlineStmt(h, body[0])] + InlineEach(h, body[1..])
  }

  function InlineClauses(h: Helper, cs: seq<Clause>): (r: seq<Clause>)
    ensures |r| == |cs|
    decreases cs, 0
  {
    if cs == [] then [] else [Clause(cs[0].test, InlineEach(h, cs[0].body))] + InlineClauses(h, cs[1..])
  }

  // ---------------------------------------------------------------- when it applies

  /** What analysis gives for every call site of a statement; `scope` is what is bound there. */
  ghost predicate StmtOk(env: Env, h: Helper, s: Stmt, scope: set<string>)
    decreases s, 1
  {
    match s
    case If(_, t, f) =>
      && BranchOk(env, h, t, Mentions(s), scope)
      && (f.Some? ==> BranchOk(env, h, f.value, TakenThrough(h, [t], Mentions(s)), scope))
    case Block(body) => BodyOk(env, h, body, scope)
    case While(_, body) => BranchOk(env, h, body, Mentions(s), scope)
    case Switch(_, cs) =>
      && ClausesOk(env, h, cs, scope + DeclaredClauses(cs))
      && DirectScopeOk(env, h, Bodies(cs), MentionsClauses(cs), scope + DeclaredClauses(cs))
    case Labeled(_, s1) => BranchOk(env, h, s1, Mentions(s), scope)
    case Nested(body) => BodyOk(env, h, body, scope)
    case _ => true
  }

  ghost predicate BranchOk(env: Env, h: Helper, s: Stmt, reserved: set<string>, scope: set<string>)
    decreases s, 2
  {
    if s.Call? then DirectScopeOk(env, h, [s], reserved, scope) else StmtOk(env, h, s, scope)
  }

  ghost predicate BodyOk(env: Env, h: Helper, body: seq<Stmt>, scope: set<string>)
    decreases body, 1
  {
    && EachOk(env, h, body, scope + Declared(body))
    && DirectScopeOk(env, h, body, MentionsSeq(body), scope + Declared(body))
  }

  /** Each direct call passes the analysis, no outer name of the helper is bound where one stands,
      and guards do not read the tail's locals. Nothing is asked of a scope without direct calls. */
  ghost predicate DirectScopeOk(env: Env, h: Helper, body: seq<Stmt>, reserved: set<string>, scope: set<string>) {
    HasCall(body) ==> DirectOk(env, h, body, reserved) && OuterNames(h) !! scope && GuardsApart(h)
  }

  ghost predicate EachOk(env: Env, h: Helper, body: seq<Stmt>, scope: set<string>)
    decreases body, 0
  {
    body != [] ==> StmtOk(env, h, body[0], scope) && EachOk(env, h, body[1..], scope)
  }

  ghost predicate ClausesOk(env: Env, h: Helper, cs: seq<Clause>, scope: set<string>)
    decreases cs, 0
  {
    cs != [] ==> EachOk(env, h, cs[0].body, scope) && ClausesOk(env, h, cs[1..], scope)
  }

  ghost predicate HelperOk(env: Env, h: Helper) {
    env.helper == Some(h) && Accepted(h) && Syntactic(h)
  }

  // ---------------------------------------------------------------- what stays the same

  lemma {:induction false} CallStays(h: Helper, s: Stmt)
    ensures InlineStmt(h, s).Call? == s.Call? && (s.Call? ==> InlineStmt(h, s) == s)
  {
  }

  lemma {:induction false} EachConcat(h: Helper, a: seq<Stmt>, b: seq<Stmt>)
    ensures InlineEach(h, a + b) == InlineEach(h, a) + InlineEach(h, b)
  {
    hide InlineStmt;
    if a == [] {
      assert a + b == b;
    } else {
      assert (a + b)[1..] == a[1..] + b;
      EachConcat(h, a[1..], b);
    }
  }

  /** Dealing with each statement leaves declarations and direct calls as they are. */
  lemma {:induction false} EachKeeps(env: Env, h: Helper, body: seq<Stmt>, taken: set<string>)
    ensures Declared(InlineEach(h, body)) == Declared(body)
    ensures HasCall(InlineEach(h, body)) <==> HasCall(body)
    ensures DirectOk(env, h, InlineEach(h, body), taken) <==> DirectOk(env, h, body, taken)
  {
    hide *;
    if body == [] {
      NothingEach(h);
    } else {
      var first, rest := InlineStmt(h, body[0]), InlineEach(h, body[1..]);
      var next := TakenThrough(h, [body[0]], taken);
      EachKeeps(env, h, body[1..], next);
      EachHead(h, body);
      HeadKeeps(env, h, body[0], taken);
      FreeConcat([first], rest);
      FreeConcat([body[0]], body[1..]);
      assert body == [body[0]] + body[1..];
      HasCallConcat([first], rest);
      HasCallConcat([body[0]], body[1..]);
      DirectOkConcat(env, h, [first], rest, taken);
      DirectOkConcat(env, h, [body[0]], body[1..], taken);
    }
  }

  lemma {:induction false} EachHead(h: Helper, body: seq<Stmt>)
    requires body != []
    ensures InlineEach(h, body) == [InlineStmt(h, body[0])] + InlineEach(h, body[1..])
  {
    hide InlineStmt;
  }

  lemma {:induction false} HeadKeeps(env: Env, h: Helper, s: Stmt, taken: set<string>)
    ensures Declared([InlineStmt(h, s)]) == Declared([s])
    ensures HasCall([InlineStmt(h, s)]) <==> HasCall([s])
    ensures DirectOk(env, h, [InlineStmt(h, s)], taken) <==> DirectOk(env, h, [s], taken)
    ensures TakenThrough(h, [InlineStmt(h, s)], taken) == TakenThrough(h, [s], taken)
  {
    hide InlineBody, InlineClauses, InlineBranch, InlineCases, CallOk, Generated, BodyIdentifiers, Replace;
    var t := InlineStmt(h, s);
    CallStays(h, s);
    assert [s][1..] == [] && [t][1..] == [] && s in [s] && t in [t];
    assert t.Declare? == s.Declare? && (s.Declare? ==> t.name == s.name);
  }

  lemma {:induction false} HasCallConcat(a: seq<Stmt>, b: seq<Stmt>)
    ensures HasCall(a + b) <==> HasCall(a) || HasCall(b)
  {
    if HasCall(a) {
      var s :| s in a && s.Call?;
      assert s in a + b;
    } else if HasCall(b) {
      var s :| s in b && s.Call?;
      assert s in a + b;
    }
  }

  lemma {:induction false} NothingEach(h: Helper)
    ensures InlineEach(h, []) == []
  {
  }

  lemma {:induction false} BodiesEach(h: Helper, cs: seq<Clause>)
    ensures Bodies(InlineClauses(h, cs)) == InlineEach(h, Bodies(cs))
  {
    hide InlineStmt;
    if cs != [] {
      BodiesEach(h, cs[1..]);
      EachConcat(h, cs[0].body, Bodies(cs[1..]));
    }
  }

  // ---------------------------------------------------------------- names

  /** What a scope lets through once its statements and then its direct calls are dealt with. */
  lemma {:induction false} ScopeNames(env: Env, h: Helper, body: seq<Stmt>, reserved: set<string>, scope: set<string>)
    requires DirectScopeOk(env, h, body, reserved, scope)
    requires FreeSeq(InlineEach(h, body)) <= FreeSeq(body) + OuterNames(h)
    ensures var text := InlineDirect(h, InlineEach(h, body), reserved);
      FreeSeq(text) - Declared(text) <= (FreeSeq(body) - Declared(body)) + OuterNames(h)
  {
    hide *;
    EachKeeps(env, h, body, reserved);
    if HasCall(body) {
      CallsOk(env, h, body, reserved, scope);
      DirectNames(env, h, InlineEach(h, body), reserved);
    } else {
      NoDirectCalls(env, h, InlineEach(h, body), reserved);
    }
  }

  lemma {:induction false} CallsOk(env: Env, h: Helper, body: seq<Stmt>, reserved: set<string>, scope: set<string>)
    requires DirectScopeOk(env, h, body, reserved, scope) && HasCall(body)
    ensures DirectOk(env, h, InlineEach(h, body), reserved) && GuardsApart(h)
    ensures FreeSeq(body) <= reserved && FreeSeq(InlineEach(h, body)) <= FreeSeq(body) + OuterNames(h)
      ==> ScopeOk(env, h, InlineEach(h, body), FreeSeq(InlineEach(h, body)), reserved, scope)
  {
    hide InlineEach, DirectOk, GuardsApart, FreeSeq, HasCall, OuterNames;
    EachKeeps(env, h, body, reserved);
  }

  /** Inlined text mentions what the text mentioned and the helper's outer names. */
  lemma {:induction false} StmtNames(env: Env, h: Helper, s: Stmt, scope: set<string>)
    requires HelperOk(env, h) && StmtOk(env, h, s, scope)
    ensures Free(InlineStmt(h, s)) <= Free(s) + OuterNames(h)
    decreases s, 1
  {
    hide InlineBody, InlineClauses, InlineBranch, InlineCases, OuterNames, HelperOk, BodyOk, ClausesOk,
      BranchOk, DirectScopeOk;
    match s
    case If(c, t, f) =>
      BranchNames(env, h, t, Mentions(s), scope);
      if f.Some? { BranchNames(env, h, f.value, TakenThrough(h, [t], Mentions(s)), scope); }
    case Block(body) => BodyNames(env, h, body, scope);
    case While(_, body) => BranchNames(env, h, body, Mentions(s), scope);
    case Switch(_, cs) => CasesNames(env, h, cs, scope + DeclaredClauses(cs));
    case Labeled(_, s1) => BranchNames(env, h, s1, Mentions(s), scope);
    case Nested(body) => BodyNames(env, h, body, scope);
    case _ =>
  }

  lemma {:induction false} BranchNames(env: Env, h: Helper, s: Stmt, reserved: set<string>, scope: set<string>)
    requires HelperOk(env, h) && BranchOk(env, h, s, reserved, scope)
    ensures Free(InlineBranch(h, s, reserved)) <= Free(s) + OuterNames(h)
    decreases s, 2
  {
    hide OuterNames, InlineStmt, InlineDirect, DirectOk, GuardsApart;
    if s.Call? {
      CallNames(s);
      DirectNames(env, h, [s], reserved);
    } else {
      StmtNames(env, h, s, scope);
    }
  }

  lemma {:induction false} CallNames(s: Stmt)
    requires s.Call?
    ensures FreeSeq([s]) == Free(s) == Mentions(s) && Declared([s]) == {} && HasCall([s])
  {
    assert s in [s];
  }

  lemma {:induction false} EachNames(env: Env, h: Helper, body: seq<Stmt>, scope: set<string>)
    requires HelperOk(env, h) && EachOk(env, h, body, scope)
    ensures FreeSeq(InlineEach(h, body)) <= FreeSeq(body) + OuterNames(h)
    decreases body, 0
  {
    hide InlineStmt, OuterNames, StmtOk, HelperOk, Free;
    if body != [] {
      StmtNames(env, h, body[0], scope);
      EachNames(env, h, body[1..], scope);
    }
  }

  lemma {:induction false} ClausesNames(env: Env, h: Helper, cs: seq<Clause>, scope: set<string>)
    requires HelperOk(env, h) && ClausesOk(env, h, cs, scope)
    ensures FreeSeq(InlineEach(h, Bodies(cs))) <= FreeSeq(Bodies(cs)) + OuterNames(h)
    decreases cs, 0
  {
    hide InlineEach, OuterNames, EachOk, HelperOk, FreeSeq;
    if cs != [] {
      var a, b := cs[0].body, Bodies(cs[1..]);
      EachNames(env, h, a, scope);
      ClausesNames(env, h, cs[1..], scope);
      EachConcat(h, a, b);
      FreeConcat(a, b);
      FreeConcat(InlineEach(h, a), InlineEach(h, b));
    } else {
      NothingEach(h);
    }
  }

  lemma {:induction false} BodyNames(env: Env, h: Helper, body: seq<Stmt>, scope: set<string>)
    requires HelperOk(env, h) && BodyOk(env, h, body, scope)
    ensures var text := InlineBody(h, body);
      FreeSeq(text) - Declared(text) <= (FreeSeq(body) - Declared(body)) + OuterNames(h)
    decreases body, 1
  {
    hide EachOk, DirectScopeOk, InlineEach, InlineDirect, FreeSeq, OuterNames;
    EachNames(env, h, body, scope + Declared(body));
    ScopeNames(env, h, body, MentionsSeq(body), scope + Declared(body));
  }

  lemma {:induction false} CasesNames(env: Env, h: Helper, cs: seq<Clause>, scope: set<string>)
    requires HelperOk(env, h) && ClausesOk(env, h, cs, scope)
    requires DirectScopeOk(env, h, Bodies(cs), MentionsClauses(cs), scope)
    ensures var text := InlineCases(h, InlineClauses(h, cs), MentionsClauses(cs));
      FreeClauses(text) - DeclaredClauses(text) <= (FreeClauses(cs) - DeclaredClauses(cs)) + OuterNames(h)
    decreases cs, 1
  {
    hide *;
    ClausesNames(env, h, cs, scope);
    ScopeNames(env, h, Bodies(cs), MentionsClauses(cs), scope);
    WholeText(h, cs);
    BodiesNames(cs);
    BodiesNames(InlineCases(h, InlineClauses(h, cs), MentionsClauses(cs)));
  }

  /** The inlined case block, clauses joined. */
  lemma {:induction false} WholeText(h: Helper, cs: seq<Clause>)
    ensures Bodies(InlineCases(h, InlineClauses(h, cs), MentionsClauses(cs)))
      == InlineDirect(h, InlineEach(h, Bodies(cs)), MentionsClauses(cs))
  {
    hide InlineEach, InlineDirect, InlineCases, TakenThrough, MentionsClauses, Bodies, InlineClauses;
    var each, reserved := InlineClauses(h, cs), MentionsClauses(cs);
    var text := InlineCases(h, each, reserved);
    BodiesEach(h, cs);
    CasesText(h, each, 0, reserved);
    NoBodies();
    NothingDirect(h, reserved);
    assert each[0..] == each && each[..0] == [] && text[0..] == text;
  }

  // ---------------------------------------------------------------- runs

  /** A statement and its inlined form run alike from every state. */
  lemma {:induction false} StmtRuns(env: Env, h: Helper, s: Stmt, labels: set<string>, st: State, fuel: nat)
    requires HelperOk(env, h) && StmtOk(env, h, s, st.frame.Keys)
    ensures Run(env, s, labels, st, fuel) == Run(env, InlineStmt(h, s), labels, st, fuel)
    decreases fuel, s, 1
  {
    hide InlineBody, InlineClauses, InlineBranch, InlineCases, HelperOk, BodyOk, ClausesOk, BranchOk,
      DirectScopeOk, Eval, RunScope;
    match s
    case If(c, t, f) =>
      EvalKeepsScope(env.m, c, st);
      var (_, s1) := Test(env.m, c, st);
      TakenMore(env, h, t, Mentions(s), s1.frame.Keys);
      BranchRuns(env, h, t, Mentions(s), {}, s1, fuel);
      if f.Some? { BranchRuns(env, h, f.value, TakenThrough(h, [t], Mentions(s)), {}, s1, fuel); }
    case Block(body) => BodyRuns(env, h, body, st, fuel);
    case While(c, body) =>
      if fuel > 0 {
        EvalKeepsScope(env.m, c, st);
        var (_, s1) := Test(env.m, c, st);
        BranchRuns(env, h, body, Mentions(s), {}, s1, fuel);
        StmtRuns(env, h, s, labels, Run(env, body, {}, s1, fuel).1, fuel - 1);
      }
    case Switch(on, cs) =>
      EvalKeepsScope(env.m, on, st);
      var (o, s1) := Eval(env.m, on, st);
      SwitchStep(env, on, cs, labels, st, fuel);
      SwitchStep(env, on, InlineCases(h, InlineClauses(h, cs), MentionsClauses(cs)), labels, st, fuel);
      SubjectRuns(env, h, cs, o, s1, fuel);
    case Labeled(l, s1) => BranchRuns(env, h, s1, Mentions(s), labels + {l}, st, fuel);
    case Nested(body) => BodyRuns(env, h, body, st, fuel);
    case _ =>
  }

  lemma {:induction false} BranchRuns(
    env: Env, h: Helper, s: Stmt, reserved: set<string>, labels: set<string>, st: State, fuel: nat)
    requires HelperOk(env, h) && BranchOk(env, h, s, reserved, st.frame.Keys) && Mentions(s) <= reserved
    ensures Run(env, s, labels, st, fuel) == Run(env, InlineBranch(h, s, reserved), labels, st, fuel)
    decreases fuel, s, 2
  {
    hide InlineStmt, StmtOk, RunScope, InlineDirect, RunSeq, EvalArgs, DirectOk, OuterNames, GuardsApart,
      HasCall, Mentions, FreeSeq;
    if s.Call? {
      CallNames(s);
      assert st.frame.Keys + Declared([s]) == st.frame.Keys;
      BlockInlined(env, h, [s], reserved, st, fuel);
      CallScope(env, s, labels, st, fuel);
    } else {
      StmtRuns(env, h, s, labels, st, fuel);
    }
  }

  lemma {:induction false} TakenMore(env: Env, h: Helper, s: Stmt, reserved: set<string>, scope: set<string>)
    requires BranchOk(env, h, s, reserved, scope)
    ensures reserved <= TakenThrough(h, [s], reserved)
  {
    hide StmtOk, DirectOk, GuardsApart, TakenThrough;
    if s.Call? {
      CallNames(s);
      DrawnApart(env, h, [s], reserved);
    } else {
      OtherDirect(h, s, reserved);
    }
  }

  /** A call that stands alone runs as it would in a block of its own. */
  lemma {:induction false} CallScope(env: Env, s: Stmt, labels: set<string>, st: State, fuel: nat)
    requires s.Call?
    ensures Run(env, s, labels, st, fuel) == RunScope(env, [s], st, fuel)
  {
    CallNames(s);
    assert Push(st.frame, {}) == st.frame;
    RunOne(env, s, st, fuel);
    var (k, s1) := Run(env, s, {}, st, fuel);
    assert Pop(st.frame, s1.frame, {}) == s1.frame;
    hide RunSeq, EvalArgs;
  }

  lemma {:induction false} BodyRuns(env: Env, h: Helper, body: seq<Stmt>, st: State, fuel: nat)
    requires HelperOk(env, h) && BodyOk(env, h, body, st.frame.Keys)
    ensures RunScope(env, body, st, fuel) == RunScope(env, InlineBody(h, body), st, fuel)
    decreases fuel, body, 3
  {
    hide *;
    var each, reserved := InlineEach(h, body), MentionsSeq(body);
    BodyParts(env, h, body, st.frame.Keys);
    EachRuns(env, h, body, State(Push(st.frame, Declared(body)), st.world), fuel);
    EachKeeps(env, h, body, reserved);
    ScopeStep(env, body, st, fuel);
    ScopeStep(env, each, st, fuel);
    if HasCall(body) {
      EachNames(env, h, body, st.frame.Keys + Declared(body));
      MentionsSeqAre(body);
      CallsOk(env, h, body, reserved, st.frame.Keys + Declared(body));
      BlockInlined(env, h, each, reserved, st, fuel);
    } else {
      NoDirectCalls(env, h, each, reserved);
    }
  }

  lemma {:induction false} BodyParts(env: Env, h: Helper, body: seq<Stmt>, scope: set<string>)
    requires BodyOk(env, h, body, scope)
    ensures EachOk(env, h, body, scope + Declared(body))
    ensures DirectScopeOk(env, h, body, MentionsSeq(body), scope + Declared(body))
    ensures InlineBody(h, body) == InlineDirect(h, InlineEach(h, body), MentionsSeq(body))
  {
    hide EachOk, DirectScopeOk;
  }

  lemma {:induction false} EachRuns(env: Env, h: Helper, body: seq<Stmt>, st: State, fuel: nat)
    requires HelperOk(env, h) && EachOk(env, h, body, st.frame.Keys)
    ensures RunSeq(env, body, st, fuel) == RunSeq(env, InlineEach(h, body), st, fuel)
    decreases fuel, body, 2
  {
    hide InlineStmt, StmtOk, HelperOk, Run;
    if body != [] {
      var (_, s1) := Run(env, body[0], {}, st, fuel);
      StmtRuns(env, h, body[0], {}, st, fuel);
      EachRuns(env, h, body[1..], s1, fuel);
    }
  }

  lemma {:induction false} SubjectRuns(env: Env, h: Helper, cs: seq<Clause>, o: Outcome, st: State, fuel: nat)
    requires HelperOk(env, h) && ClausesOk(env, h, cs, st.frame.Keys + DeclaredClauses(cs))
    requires DirectScopeOk(env, h, Bodies(cs), MentionsClauses(cs), st.frame.Keys + DeclaredClauses(cs))
    ensures AfterSubject(env, cs, o, st, fuel)
      == AfterSubject(env, InlineCases(h, InlineClauses(h, cs), MentionsClauses(cs)), o, st, fuel)
    decreases fuel, cs, 4
  {
    hide *;
    var each, reserved, scope := InlineClauses(h, cs), MentionsClauses(cs), st.frame.Keys + DeclaredClauses(cs);
    ClausesSubject(env, h, cs, o, st, fuel);
    BodiesEach(h, cs);
    BodiesNames(each);
    BodiesNames(cs);
    EachKeeps(env, h, Bodies(cs), reserved);
    if HasCall(Bodies(cs)) {
      ClausesNames(env, h, cs, scope);
      MentionsClausesAre(cs);
      CallsOk(env, h, Bodies(cs), reserved, scope);
      CasesInlined(env, h, each, reserved, o, st, fuel);
    } else {
      NoCases(env, h, each, reserved);
    }
  }

  lemma {:induction false} NoCases(env: Env, h: Helper, cs: seq<Clause>, taken: set<string>)
    requires !HasCall(Bodies(cs))
    ensures InlineCases(h, cs, taken) == cs
  {
    hide InlineDirect, TakenThrough;
    if cs != [] {
      assert forall s <- cs[0].body :: s in Bodies(cs);
      assert forall s <- Bodies(cs[1..]) :: s in Bodies(cs);
      NoDirectCalls(env, h, cs[0].body, taken);
      NoCases(env, h, cs[1..], taken);
    }
  }

  /** A switch whose clauses have each been dealt with, direct calls still in place. */
  lemma {:induction false} ClausesSubject(env: Env, h: Helper, cs: seq<Clause>, o: Outcome, st: State, fuel: nat)
    requires HelperOk(env, h) && ClausesOk(env, h, cs, st.frame.Keys + DeclaredClauses(cs))
    ensures AfterSubject(env, cs, o, st, fuel) == AfterSubject(env, InlineClauses(h, cs), o, st, fuel)
    decreases fuel, cs, 3
  {
    hide *;
    SubjectStep(env, cs, o, st, fuel);
    SubjectStep(env, InlineClauses(h, cs), o, st, fuel);
    if o.Ok? {
      SelectSame(h, o.v, cs);
      SelectInside(o.v, cs);
      if Select(o.v, cs).Some? {
        ClausesFrom(env, h, cs, Select(o.v, cs).value, st, fuel);
      }
    }
  }

  lemma {:induction false} SelectSame(h: Helper, v: Value, cs: seq<Clause>)
    ensures Select(v, InlineClauses(h, cs)) == Select(v, cs)
  {
    hide InlineClauses, Matching;
    MatchingSame(h, Some(v), cs);
    MatchingSame(h, None, cs);
  }

  lemma {:induction false} MatchingSame(h: Helper, test: Option<Value>, cs: seq<Clause>)
    ensures Matching(test, InlineClauses(h, cs)) == Matching(test, cs)
  {
    hide InlineEach;
    if cs != [] { MatchingSame(h, test, cs[1..]); }
  }

  lemma {:induction false} ClausesFrom(env: Env, h: Helper, cs: seq<Clause>, k: nat, st: State, fuel: nat)
    requires HelperOk(env, h) && k <= |cs| && ClausesOk(env, h, cs, st.frame.Keys + DeclaredClauses(cs))
    ensures FromK(env, cs, k, st, fuel) == FromK(env, InlineClauses(h, cs), k, st, fuel)
    decreases fuel, cs, 2
  {
    hide InlineClauses, ClausesOk, HelperOk, RunClauses, DeclaredClauses, Bodies, EachOk, InlineEach;
    ClausesDeclare(env, h, cs);
    ClausesRun(env, h, cs, k, st.(frame := Push(st.frame, DeclaredClauses(cs))), fuel);
  }

  lemma {:induction false} ClausesDeclare(env: Env, h: Helper, cs: seq<Clause>)
    ensures DeclaredClauses(InlineClauses(h, cs)) == DeclaredClauses(cs)
  {
    hide DeclaredClauses, InlineClauses, InlineEach, Declared, Bodies;
    BodiesEach(h, cs);
    BodiesNames(cs);
    BodiesNames(InlineClauses(h, cs));
    EachKeeps(env, h, Bodies(cs), {});
  }

  lemma {:induction false} ClausesRun(env: Env, h: Helper, cs: seq<Clause>, k: nat, st: State, fuel: nat)
    requires HelperOk(env, h) && ClausesOk(env, h, cs, st.frame.Keys) && k <= |cs|
    ensures RunClauses(env, cs, k, st, fuel) == RunClauses(env, InlineClauses(h, cs), k, st, fuel)
    decreases fuel, cs, 1, |cs| - k
  {
    hide InlineEach, ClausesOk, HelperOk, RunSeq, EachOk;
    if k < |cs| {
      ClauseOk(env, h, cs, k, st.frame.Keys);
      EachRuns(env, h, cs[k].body, st, fuel);
      var (_, s1) := RunSeq(env, cs[k].body, st, fuel);
      ClausesRun(env, h, cs, k + 1, s1, fuel);
    }
  }

  lemma {:induction false} ClauseOk(env: Env, h: Helper, cs: seq<Clause>, k: nat, scope: set<string>)
    requires ClausesOk(env, h, cs, scope) && k < |cs|
    ensures EachOk(env, h, cs[k].body, scope)
      && InlineClauses(h, cs)[k] == Clause(cs[k].test, InlineEach(h, cs[k].body))
  {
    hide EachOk, InlineEach;
    if k > 0 {
      ClauseOk(env, h, cs[1..], k - 1, scope);
      assert cs[1..][k - 1] == cs[k];
    }
  }

  // ---------------------------------------------------------------- removing the helper

  lemma {:induction false} StmtNoCalls(env: Env, h: Helper, s: Stmt, scope: set<string>)
    requires HelperOk(env, h) && StmtOk(env, h, s, scope) && !s.Call?
    ensures NoCalls(InlineStmt(h, s))
    decreases s, 1
  {
    hide InlineBody, InlineClauses, InlineBranch, InlineCases, HelperOk, BodyOk, ClausesOk, BranchOk, DirectScopeOk;
    match s
    case If(c, t, f) =>
      BranchNoCalls(env, h, t, Mentions(s), scope);
      if f.Some? { BranchNoCalls(env, h, f.value, TakenThrough(h, [t], Mentions(s)), scope); }
    case Block(body) => BodyNoCalls(env, h, body, scope);
    case While(_, body) => BranchNoCalls(env, h, body, Mentions(s), scope);
    case Switch(_, cs) => CasesNoCalls(env, h, cs, scope + DeclaredClauses(cs));
    case Labeled(_, s1) => BranchNoCalls(env, h, s1, Mentions(s), scope);
    case Nested(body) => BodyNoCalls(env, h, body, scope);
    case _ =>
  }

  lemma {:induction false} BranchNoCalls(env: Env, h: Helper, s: Stmt, reserved: set<string>, scope: set<string>)
    requires HelperOk(env, h) && BranchOk(env, h, s, reserved, scope)
    ensures NoCalls(InlineBranch(h, s, reserved))
    decreases s, 2
  {
    hide InlineStmt, StmtOk, InlineDirect, Accepted, Syntactic, DirectScopeOk;
    if s.Call? {
      assert OnlyDirectCalls([s]);
      DirectNoCalls(h, [s], reserved);
    } else {
      StmtNoCalls(env, h, s, scope);
    }
  }

  /** Calls stand directly in the text, or nowhere. */
  ghost predicate OnlyDirectCalls(body: seq<Stmt>) {
    forall s <- body :: s.Call? || NoCalls(s)
  }

  lemma {:induction false} DirectNoCalls(h: Helper, body: seq<Stmt>, taken: set<string>)
    requires Accepted(h) && Syntactic(h) && OnlyDirectCalls(body)
    ensures NoCallsSeq(InlineDirect(h, body, taken))
  {
    hide NoCalls, Accepted, Syntactic, InsertedAt, Replace;
    if body != [] {
      assert body[0] in body && forall s <- body[1..] :: s in body;
      if body[0].Call? {
        var next := Replace(h, body[0].args, taken).taken;
        InsertedNoCalls(h, body[0].args, taken);
        DirectNoCalls(h, body[1..], next);
        NoCallsConcat(InsertedAt(h, body[0].args, taken), InlineDirect(h, body[1..], next));
      } else {
        DirectNoCalls(h, body[1..], taken);
        assert ([body[0]] + InlineDirect(h, body[1..], taken))[1..] == InlineDirect(h, body[1..], taken);
      }
    }
  }

  /** After each statement has been dealt with, only the direct calls are left. */
  lemma {:induction false} EachNoCalls(env: Env, h: Helper, body: seq<Stmt>, scope: set<string>)
    requires HelperOk(env, h) && EachOk(env, h, body, scope)
    ensures OnlyDirectCalls(InlineEach(h, body))
    decreases body, 0
  {
    hide InlineStmt, StmtOk, HelperOk, NoCalls;
    if body != [] {
      var rest := InlineEach(h, body[1..]);
      CallStays(h, body[0]);
      if !body[0].Call? { StmtNoCalls(env, h, body[0], scope); }
      EachNoCalls(env, h, body[1..], scope);
      assert forall s <- [InlineStmt(h, body[0])] + rest :: s == InlineStmt(h, body[0]) || s in rest;
    }
  }

  lemma {:induction false} ClausesNoCalls(env: Env, h: Helper, cs: seq<Clause>, scope: set<string>)
    requires HelperOk(env, h) && ClausesOk(env, h, cs, scope)
    ensures OnlyDirectCalls(InlineEach(h, Bodies(cs)))
    decreases cs, 0
  {
    hide InlineEach, EachOk, HelperOk, NoCalls;
    if cs == [] {
      NothingEach(h);
    } else {
      EachNoCalls(env, h, cs[0].body, scope);
      ClausesNoCalls(env, h, cs[1..], scope);
      EachConcat(h, cs[0].body, Bodies(cs[1..]));
    }
  }

  lemma {:induction false} CasesNoCalls(env: Env, h: Helper, cs: seq<Clause>, scope: set<string>)
    requires HelperOk(env, h) && ClausesOk(env, h, cs, scope)
    ensures NoCallsClauses(InlineCases(h, InlineClauses(h, cs), MentionsClauses(cs)))
    decreases cs, 1
  {
    hide *;
    HelperParts(env, h);
    ClausesNoCalls(env, h, cs, scope);
    DirectNoCalls(h, InlineEach(h, Bodies(cs)), MentionsClauses(cs));
    WholeText(h, cs);
    BodiesNoCalls(InlineCases(h, InlineClauses(h, cs), MentionsClauses(cs)));
  }

  lemma {:induction false} BodiesNoCalls(cs: seq<Clause>)
    ensures NoCallsSeq(Bodies(cs)) <==> NoCallsClauses(cs)
  {
    hide NoCalls, NoCallsSeq;
    if cs == [] {
      NothingCalled();
    } else {
      NoCallsConcat(cs[0].body, Bodies(cs[1..]));
      BodiesNoCalls(cs[1..]);
    }
  }

  lemma {:induction false} NothingCalled()
    ensures NoCallsSeq([])
  {
  }

  lemma {:induction false} HelperParts(env: Env, h: Helper)
    requires HelperOk(env, h)
    ensures env.helper == Some(h) && Accepted(h) && Syntactic(h)
  {
  }

  lemma {:induction false} BodyNoCalls(env: Env, h: Helper, body: seq<Stmt>, scope: set<string>)
    requires HelperOk(env, h) && BodyOk(env, h, body, scope)
    ensures NoCallsSeq(InlineBody(h, body))
    decreases body, 1
  {
    hide *;
    BodyParts(env, h, body, scope);
    HelperParts(env, h);
    EachNoCalls(env, h, body, scope + Declared(body));
    DirectNoCalls(h, InlineEach(h, body), MentionsSeq(body));
  }

  /** The inliner's promise: replace every call in a caller, wherever it stands, delete the
      helper, and every run of the caller completes alike, with the same trace, the same globals
      and the same variables. */
  lemma {:induction false} InliningPreservesMeaning(env: Env, h: Helper, caller: seq<Stmt>, st: State, fuel: nat)
    requires HelperOk(env, h) && BodyOk(env, h, caller, st.frame.Keys)
    ensures RunScope(env, caller, st, fuel) == RunScope(Env(env.m, None), InlineBody(h, caller), st, fuel)
  {
    hide *;
    BodyRuns(env, h, caller, st, fuel);
    BodyNoCalls(env, h, caller, st.frame.Keys);
    ScopeNoCalls(env, InlineBody(h, caller), st, fuel);
  }
}
