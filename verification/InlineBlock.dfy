/** Replacing every call that stands directly in a block, or in the case block of a switch, all
    replacements drawing names from one set. */
module InlineBlock {
  import opened Optional
  import opened JsExpression
  import opened HelperLanguage
  import opened InlinePlan
  import opened Renaming
  import opened Weakening
  import opened InlineCorrect
  import opened InlineTheorem
  import opened InsertedStatements

  // ---------------------------------------------------------------- direct calls

  /** Statements with their direct calls replaced, each replacement avoiding the names in use. */
  function InlineDirect(h: Helper, body: seq<Stmt>, taken: set<string>): seq<Stmt> {
    if body == [] then []
    else if body[0].Call? then
      InsertedAt(h, body[0].args, taken) + InlineDirect(h, body[1..], Replace(h, body[0].args, taken).taken)
    else [body[0]] + InlineDirect(h, body[1..], taken)
  }

  /** The names in use afterwards. */
  function TakenThrough(h: Helper, body: seq<Stmt>, taken: set<string>): set<string> {
    if body == [] then taken
    else if body[0].Call? then TakenThrough(h, body[1..], Replace(h, body[0].args, taken).taken)
    else TakenThrough(h, body[1..], taken)
  }

  lemma {:induction false} DirectConcat(h: Helper, a: seq<Stmt>, b: seq<Stmt>, taken: set<string>)
    ensures TakenThrough(h, a + b, taken) == TakenThrough(h, b, TakenThrough(h, a, taken))
    ensures InlineDirect(h, a + b, taken)
      == InlineDirect(h, a, taken) + InlineDirect(h, b, TakenThrough(h, a, taken))
  {
    hide Replace, InsertedAt;
    if a == [] {
      assert a + b == b;
    } else {
      assert (a + b)[1..] == a[1..] + b;
      DirectConcat(h, a[1..], b, if a[0].Call? then Replace(h, a[0].args, taken).taken else taken);
    }
  }

  lemma {:induction false} DirectStep(h: Helper, block: seq<Stmt>, i: nat, reserved: set<string>)
    requires i < |block|
    ensures var taken := TakenThrough(h, block[..i], reserved);
      && TakenThrough(h, block[..i + 1], reserved)
        == (if block[i].Call? then Replace(h, block[i].args, taken).taken else taken)
      && InlineDirect(h, block[i..], taken)
        == (if block[i].Call? then InsertedAt(h, block[i].args, taken) else [block[i]])
          + InlineDirect(h, block[i + 1..], TakenThrough(h, block[..i + 1], reserved))
  {
    hide Replace, InsertedAt;
    assert block[..i + 1] == block[..i] + [block[i]];
    DirectConcat(h, block[..i], [block[i]], reserved);
    assert block[i..][1..] == block[i + 1..] && [block[i]][1..] == [];
  }

  /** Every plan is built before any is applied; they are applied from the last call up, so that
      earlier positions stay valid. */
  method InlineCandidate(h: Helper, block: seq<Stmt>, reserved: set<string>) returns (text: seq<Stmt>)
    requires Syntactic(h)
    ensures text == InlineDirect(h, block, reserved)
  {
    hide Replace, RestText, Hoist, Inserted, Syntactic, InsertedAt, InlineDirect, TakenThrough;
    var plans: seq<Option<Replacement>>, taken := [], reserved;
    NothingDirect(h, reserved);
    for i := 0 to |block|
      invariant |plans| == i && taken == TakenThrough(h, block[..i], reserved)
      invariant forall j | 0 <= j < i :: plans[j] == if block[j].Call?
        then Some(Replace(h, block[j].args, TakenThrough(h, block[..j], reserved))) else None
    {
      DirectStep(h, block, i, reserved);
      if block[i].Call? {
        var r := BuildReplacement(h, block[i].args, taken);
        plans, taken := plans + [Some(r)], r.taken;
      } else {
        plans := plans + [None];
      }
    }
    text := block;
    NothingDirect(h, taken);
    assert block[|block|..] == [];
    for i := |block| downto 0
      invariant text == block[..i] + InlineDirect(h, block[i..], TakenThrough(h, block[..i], reserved))
    {
      DirectStep(h, block, i, reserved);
      assert text[..i] == block[..i];
      if plans[i].Some? {
        PlanApplied(h, block[i].args, TakenThrough(h, block[..i], reserved));
        text := text[..i] + Inserted(plans[i].value).value + text[i + 1..];
      }
    }
    assert block[0..] == block;
  }

  lemma {:induction false} NothingDirect(h: Helper, taken: set<string>)
    ensures InlineDirect(h, [], taken) == [] && TakenThrough(h, [], taken) == taken && Drawn(h, [], taken) == {}
  {
  }

  lemma {:induction false} PlanApplied(h: Helper, args: seq<Expr>, taken: set<string>)
    requires Syntactic(h)
    ensures Inserted(Replace(h, args, taken)) == Some(InsertedAt(h, args, taken))
  {
    InsertedText(h, args, taken);
  }

  // ---------------------------------------------------------------- when it applies

  /** What analysis and name reservation give for each direct call. */
  ghost predicate DirectOk(env: Env, h: Helper, body: seq<Stmt>, taken: set<string>) {
    body != [] ==>
      if body[0].Call? then
        && CallOk(env, h, body[0].args)
        && Generated(h, body[0].args, taken) !! BodyIdentifiers(h)
        && DirectOk(env, h, body[1..], Replace(h, body[0].args, taken).taken)
      else DirectOk(env, h, body[1..], taken)
  }

  /** ... and for the scope they stand in: `free` is what its text mentions, `scope` what is bound
      there. */
  ghost predicate ScopeOk(
    env: Env, h: Helper, body: seq<Stmt>, free: set<string>, reserved: set<string>, scope: set<string>) {
    && DirectOk(env, h, body, reserved)
    && free <= reserved + OuterNames(h)
    && OuterNames(h) !! scope
    && GuardsApart(h)
  }

  predicate HasCall(body: seq<Stmt>) {
    exists s <- body :: s.Call?
  }

  lemma {:induction false} NoDirectCalls(env: Env, h: Helper, body: seq<Stmt>, taken: set<string>)
    requires !HasCall(body)
    ensures InlineDirect(h, body, taken) == body && TakenThrough(h, body, taken) == taken
    ensures DirectOk(env, h, body, taken)
  {
    if body != [] { NoDirectCalls(env, h, body[1..], taken); }
  }

  // ---------------------------------------------------------------- names

  function Drawn(h: Helper, body: seq<Stmt>, taken: set<string>): set<string> {
    TakenThrough(h, body, taken) - taken
  }

  lemma {:induction false} OneCall(env: Env, h: Helper, args: seq<Expr>, taken: set<string>)
    requires CallOk(env, h, args) && Generated(h, args, taken) !! BodyIdentifiers(h) && GuardsApart(h)
    ensures var ins, extra := InsertedAt(h, args, taken), Added(h, args, taken);
      && taken <= Replace(h, args, taken).taken && extra !! OuterNames(h)
      && Declared(ins) == extra && FreeSeq(ins) <= ArgsNames(args) + OuterNames(h) + extra
  {
    AddedApart(h, args, taken);
    InsertedNames(h, args, taken);
    InsertedDeclares(h, args, taken);
  }

  /** The names drawn are new, and no outer names of the helper. */
  lemma {:induction false} DrawnApart(env: Env, h: Helper, body: seq<Stmt>, taken: set<string>)
    requires DirectOk(env, h, body, taken) && GuardsApart(h)
    ensures taken <= TakenThrough(h, body, taken) && Drawn(h, body, taken) !! OuterNames(h)
  {
    hide CallOk, Generated, BodyIdentifiers, OuterNames, GuardsApart, Replace;
    if body != [] {
      if body[0].Call? {
        OneCall(env, h, body[0].args, taken);
        DrawnApart(env, h, body[1..], Replace(h, body[0].args, taken).taken);
      } else {
        DrawnApart(env, h, body[1..], taken);
      }
    }
  }

  /** The new text mentions what the old one did, the helper's outer names and the names drawn,
      and declares exactly those on top of what was declared. */
  lemma {:induction false} DirectNames(env: Env, h: Helper, body: seq<Stmt>, taken: set<string>)
    requires DirectOk(env, h, body, taken) && GuardsApart(h)
    ensures var text := InlineDirect(h, body, taken);
      && FreeSeq(text) <= FreeSeq(body) + OuterNames(h) + Drawn(h, body, taken)
      && Declared(text) == Declared(body) + Drawn(h, body, taken)
  {
    hide *;
    if body == [] {
      NothingDirect(h, taken);
      NoNames();
    } else {
      var next := TakenThrough(h, [body[0]], taken);
      FirstStatement(env, h, body, taken);
      DrawnApart(env, h, body[1..], next);
      DirectNames(env, h, body[1..], next);
      FirstNames(env, h, body[0], taken);
      FreeConcat(InlineDirect(h, [body[0]], taken), InlineDirect(h, body[1..], next));
      FreeConcat([body[0]], body[1..]);
      DrawnParts(h, body, taken);
    }
  }

  lemma {:induction false} NoNames()
    ensures FreeSeq([]) == {} == Declared([])
  {
  }

  lemma {:induction false} DrawnParts(h: Helper, body: seq<Stmt>, taken: set<string>)
    requires body != []
    requires var next := TakenThrough(h, [body[0]], taken);
      && TakenThrough(h, body, taken) == TakenThrough(h, body[1..], next)
      && taken <= next <= TakenThrough(h, body[1..], next)
    ensures Drawn(h, body, taken)
      == Drawn(h, [body[0]], taken) + Drawn(h, body[1..], TakenThrough(h, [body[0]], taken))
  {
    hide TakenThrough;
  }

  /** The first statement, then the others. */
  lemma {:induction false} FirstStatement(env: Env, h: Helper, body: seq<Stmt>, taken: set<string>)
    requires body != []
    ensures var first, next := [body[0]], TakenThrough(h, [body[0]], taken);
      && body == first + body[1..]
      && TakenThrough(h, body, taken) == TakenThrough(h, body[1..], next)
      && InlineDirect(h, body, taken) == InlineDirect(h, first, taken) + InlineDirect(h, body[1..], next)
      && (DirectOk(env, h, body, taken) <==> DirectOk(env, h, first, taken) && DirectOk(env, h, body[1..], next))
  {
    hide Replace, InsertedAt, CallOk, Generated, BodyIdentifiers;
    assert body == [body[0]] + body[1..] && [body[0]][1..] == [];
    DirectConcat(h, [body[0]], body[1..], taken);
  }

  lemma {:induction false} FirstNames(env: Env, h: Helper, s: Stmt, taken: set<string>)
    requires DirectOk(env, h, [s], taken) && GuardsApart(h)
    ensures var text := InlineDirect(h, [s], taken);
      && taken <= TakenThrough(h, [s], taken)
      && FreeSeq(text) <= FreeSeq([s]) + OuterNames(h) + Drawn(h, [s], taken)
      && Declared(text) == Declared([s]) + Drawn(h, [s], taken)
  {
    hide CallOk, Generated, BodyIdentifiers, OuterNames, GuardsApart, Replace, InsertedAt;
    assert [s][1..] == [];
    if s.Call? {
      OneCall(env, h, s.args, taken);
      assert InlineDirect(h, [s], taken) == InsertedAt(h, s.args, taken);
    }
  }

  // ---------------------------------------------------------------- runs

  /** Frames before some statements with and without their direct calls: they differ in `total`
      at most, and the names still to be drawn are declared but not initialised. */
  ghost predicate Ready(
    env: Env, h: Helper, body: seq<Stmt>, taken: set<string>, total: set<string>, a: Frame, b: Frame) {
    && DirectOk(env, h, body, taken) && GuardsApart(h) && OuterNames(h) !! b.Keys
    && FreeSeq(body) !! total && Agree(total, a, b)
    && Drawn(h, body, taken) <= total * b.Keys && forall z <- Drawn(h, body, taken) :: b[z] == Uninit
  }

  ghost predicate Alike(total: set<string>, a: Frame, r1: (Completion, State), r2: (Completion, State)) {
    && r1.0 == r2.0 && r1.1.world == r2.1.world
    && Agree(total, r1.1.frame, r2.1.frame) && Kept(total, a, r1.1.frame)
  }

  /** The call and the statements that replace it, among other names that differ. */
  lemma {:induction false} CallRuns(
    env: Env, h: Helper, args: seq<Expr>, taken: set<string>, total: set<string>,
    a: Frame, b: Frame, w: World, fuel: nat)
    requires Ready(env, h, [Call(args)], taken, total, a, b)
    ensures var (k1, s1) := RunSeq(env, [Call(args)], State(a, w), fuel);
      var (k2, s2) := RunSeq(env, InsertedAt(h, args, taken), State(b, w), fuel);
      && Alike(total, a, (k1, s1), (k2, s2)) && s2.frame.Keys == b.Keys
      && forall z <- total - Added(h, args, taken) :: z in b ==> s2.frame[z] == b[z]
  {
    var extra := Added(h, args, taken);
    SoleCall(env, h, args, taken, total, a, b);
    hide *;
    SeqAgree(env, [Call(args)], fuel, total, a, b, w);
    CallMatched(env, h, args, taken, b, w, fuel);
    var (_, c1) := RunSeq(env, [Call(args)], State(b, w), fuel);
    var (_, c2) := RunSeq(env, InsertedAt(h, args, taken), State(b, w), fuel);
    var (_, s1) := RunSeq(env, [Call(args)], State(a, w), fuel);
    AgreeMore(extra, total, s1.frame, c1.frame, c2.frame, a, b);
  }

  lemma {:induction false} CallMatched(
    env: Env, h: Helper, args: seq<Expr>, taken: set<string>, b: Frame, w: World, fuel: nat)
    requires CallOk(env, h, args) && CallReady(h, args, taken, b, b) && GuardsApart(h)
    ensures Alike(Added(h, args, taken), b,
      RunSeq(env, [Call(args)], State(b, w), fuel), RunSeq(env, InsertedAt(h, args, taken), State(b, w), fuel))
  {
    CallInlined(env, h, args, taken, b, b, w, fuel);
    RunOne(env, Call(args), State(b, w), fuel);
    hide CallReady, CallOk, Added, Replace, Run, RunSeq;
  }

  lemma {:induction false} AgreeMore(
    extra: set<string>, total: set<string>, a1: Frame, c1: Frame, c2: Frame, a: Frame, b: Frame)
    requires extra <= total && Agree(total, a1, c1) && Agree(extra, c1, c2) && Kept(total, a, a1) && Kept(total, b, c1)
    ensures Agree(total, a1, c2) && Kept(total, a, a1)
    ensures forall z <- total - extra :: z in b ==> z in c2 && c2[z] == b[z]
  {
    assert c1 - total == (c1 - extra) - (total - extra) == c2 - total;
    forall z | z in total - extra && z in b ensures z in c2 && c2[z] == b[z] {
      assert z in c1 - extra && (c1 - extra)[z] == (c2 - extra)[z];
    }
  }

  lemma {:induction false} SoleCall(
    env: Env, h: Helper, args: seq<Expr>, taken: set<string>, total: set<string>, a: Frame, b: Frame)
    requires Ready(env, h, [Call(args)], taken, total, a, b)
    ensures CallOk(env, h, args) && CallReady(h, args, taken, b, b) && GuardsApart(h)
    ensures FreeSeq([Call(args)]) !! total && Agree(total, a, b) && Added(h, args, taken) <= total
  {
    hide CallOk, Generated, BodyIdentifiers, OuterNames, Replace;
    assert [Call(args)][1..] == [];
    assert FreeSeq([Call(args)]) == ArgsNames(args);
    NothingDirect(h, Replace(h, args, taken).taken);
    assert TakenThrough(h, [Call(args)], taken) == Replace(h, args, taken).taken;
  }

  /** Statements with and without their direct calls run alike, up to the names drawn. */
  lemma {:induction false} DirectRuns(
    env: Env, h: Helper, body: seq<Stmt>, taken: set<string>, total: set<string>,
    a: Frame, b: Frame, w: World, fuel: nat)
    requires Ready(env, h, body, taken, total, a, b)
    ensures Alike(total, a, RunSeq(env, body, State(a, w), fuel),
      RunSeq(env, InlineDirect(h, body, taken), State(b, w), fuel))
  {
    hide *;
    if body == [] {
      NothingDirect(h, taken);
      NothingRuns(env, h, taken, total, a, b, w, fuel);
    } else {
      var first, rest, next := [body[0]], body[1..], TakenThrough(h, [body[0]], taken);
      FirstStatement(env, h, body, taken);
      RunSeqConcat(env, first, rest, State(a, w), fuel);
      RunSeqConcat(env, InlineDirect(h, first, taken), InlineDirect(h, rest, next), State(b, w), fuel);
      FirstRuns(env, h, body, taken, total, a, b, w, fuel);
      var (k, s1) := RunSeq(env, first, State(a, w), fuel);
      var (_, s2) := RunSeq(env, InlineDirect(h, first, taken), State(b, w), fuel);
      AlikeMeans(total, a, (k, s1), RunSeq(env, InlineDirect(h, first, taken), State(b, w), fuel));
      if k == Normal {
        DirectRuns(env, h, rest, next, total, s1.frame, s2.frame, s1.world, fuel);
        ThenAlike(total, a, s1.frame,
          RunSeq(env, rest, s1, fuel), RunSeq(env, InlineDirect(h, rest, next), s2, fuel));
      }
    }
  }

  lemma {:induction false} NothingRuns(
    env: Env, h: Helper, taken: set<string>, total: set<string>, a: Frame, b: Frame, w: World, fuel: nat)
    requires Ready(env, h, [], taken, total, a, b)
    ensures Alike(total, a, RunSeq(env, [], State(a, w), fuel), RunSeq(env, [], State(b, w), fuel))
  {
  }

  lemma {:induction false} ThenAlike(
    total: set<string>, a: Frame, a1: Frame, r1: (Completion, State), r2: (Completion, State))
    requires Kept(total, a, a1) && Alike(total, a1, r1, r2)
    ensures Alike(total, a, r1, r2)
  {
  }

  /** After the first statement the others are ready. */
  lemma {:induction false} FirstRuns(
    env: Env, h: Helper, body: seq<Stmt>, taken: set<string>, total: set<string>,
    a: Frame, b: Frame, w: World, fuel: nat)
    requires body != [] && Ready(env, h, body, taken, total, a, b)
    ensures var r1 := RunSeq(env, [body[0]], State(a, w), fuel);
      var r2 := RunSeq(env, InlineDirect(h, [body[0]], taken), State(b, w), fuel);
      && Alike(total, a, r1, r2) && r2.1 == State(r2.1.frame, r1.1.world)
      && Ready(env, h, body[1..], TakenThrough(h, [body[0]], taken), total, r1.1.frame, r2.1.frame)
  {
    hide *;
    var first, rest, next := [body[0]], body[1..], TakenThrough(h, [body[0]], taken);
    ReadyParts(env, h, body, taken, total, a, b);
    if body[0].Call? {
      CallRuns(env, h, body[0].args, taken, total, a, b, w, fuel);
      SoleDirect(h, body[0].args, taken);
    } else {
      SeqAgree(env, first, fuel, total, a, b, w);
      OtherDirect(h, body[0], taken);
    }
    var r1 := RunSeq(env, first, State(a, w), fuel);
    var r2 := RunSeq(env, InlineDirect(h, first, taken), State(b, w), fuel);
    IsAlike(total, a, r1, r2);
    AlikeMeans(total, a, r1, r2);
    StillReady(env, h, rest, next, total, r1.1.frame, b, r2.1.frame);
  }

  lemma {:induction false} AlikeMeans(total: set<string>, a: Frame, r1: (Completion, State), r2: (Completion, State))
    requires Alike(total, a, r1, r2)
    ensures r1.0 == r2.0 && r1.1.world == r2.1.world
    ensures Agree(total, r1.1.frame, r2.1.frame) && Kept(total, a, r1.1.frame)
  {
  }

  lemma {:induction false} IsAlike(total: set<string>, a: Frame, r1: (Completion, State), r2: (Completion, State))
    ensures r1.0 == r2.0 && r1.1.world == r2.1.world
      && Agree(total, r1.1.frame, r2.1.frame) && Kept(total, a, r1.1.frame)
      ==> Alike(total, a, r1, r2)
  {
  }

  lemma {:induction false} SoleDirect(h: Helper, args: seq<Expr>, taken: set<string>)
    ensures InlineDirect(h, [Call(args)], taken) == InsertedAt(h, args, taken)
    ensures TakenThrough(h, [Call(args)], taken) - taken == Added(h, args, taken)
  {
    hide Replace, InsertedAt;
    NothingDirect(h, Replace(h, args, taken).taken);
    assert [Call(args)][1..] == [];
    assert TakenThrough(h, [Call(args)], taken) == Replace(h, args, taken).taken;
  }

  lemma {:induction false} OtherDirect(h: Helper, s: Stmt, taken: set<string>)
    requires !s.Call?
    ensures InlineDirect(h, [s], taken) == [s] && TakenThrough(h, [s], taken) == taken
  {
    assert [s][1..] == [];
  }

  /** Readiness of some statements is readiness of the first and, names aside, of the others. */
  lemma {:induction false} ReadyParts(
    env: Env, h: Helper, body: seq<Stmt>, taken: set<string>, total: set<string>, a: Frame, b: Frame)
    requires body != [] && Ready(env, h, body, taken, total, a, b)
    ensures Ready(env, h, [body[0]], taken, total, a, b) && Agree(total, a, b) && FreeSeq([body[0]]) !! total
    ensures var rest, next := body[1..], TakenThrough(h, [body[0]], taken);
      && DirectOk(env, h, rest, next) && GuardsApart(h) && OuterNames(h) !! b.Keys && FreeSeq(rest) !! total
      && Drawn(h, rest, next) <= total * b.Keys && Drawn(h, rest, next) !! (next - taken)
      && forall z <- Drawn(h, rest, next) :: b[z] == Uninit
  {
    hide DirectOk, GuardsApart, OuterNames, FreeSeq, TakenThrough, Agree;
    var next := TakenThrough(h, [body[0]], taken);
    FirstStatement(env, h, body, taken);
    FreeConcat([body[0]], body[1..]);
    DrawnApart(env, h, [body[0]], taken);
    DrawnApart(env, h, body[1..], next);
  }

  lemma {:induction false} StillReady(
    env: Env, h: Helper, rest: seq<Stmt>, next: set<string>, total: set<string>, a1: Frame, b: Frame, b1: Frame)
    requires DirectOk(env, h, rest, next) && GuardsApart(h) && OuterNames(h) !! b.Keys && FreeSeq(rest) !! total
    requires Drawn(h, rest, next) <= total * b.Keys && b1.Keys == b.Keys && Agree(total, a1, b1)
    requires forall z <- Drawn(h, rest, next) :: b[z] == Uninit && b1[z] == b[z]
    ensures Ready(env, h, rest, next, total, a1, b1)
  {
    hide DirectOk, GuardsApart, OuterNames, FreeSeq, Drawn, Agree;
  }

  // ---------------------------------------------------------------- blocks

  lemma {:induction false} ScopeStep(env: Env, body: seq<Stmt>, st: State, fuel: nat)
    ensures var d := Declared(body);
      var (k, s1) := RunSeq(env, body, State(Push(st.frame, d), st.world), fuel);
      && s1.frame.Keys == st.frame.Keys + d
      && RunScope(env, body, st, fuel) == (k, State(Pop(st.frame, s1.frame, d), s1.world))
  {
    hide RunSeq, Declared;
  }

  /** Leaving a scope that has more names. */
  lemma {:induction false} PopSame(outer: Frame, d: set<string>, extra: set<string>, a: Frame, b: Frame)
    requires a.Keys == outer.Keys + d && b.Keys == outer.Keys + d + extra
    requires Agree(extra, a, b) && Kept(extra, Push(outer, d), a)
    ensures Pop(outer, a, d) == Pop(outer, b, d + extra)
  {
    forall x <- outer | x !in d ensures a[x] == if x in extra then outer[x] else b[x] {
      if x !in extra {
        assert (a - extra)[x] == (b - extra)[x];
      }
    }
  }

  /** Some statements of a scope are ready when the scope is entered: `free` is what the whole
      scope mentions, `total` what it draws. */
  lemma {:induction false} ReadyOnEntry(
    env: Env, h: Helper, body: seq<Stmt>, taken: set<string>, reserved: set<string>, free: set<string>,
    d: set<string>, total: set<string>, fr: Frame)
    requires DirectOk(env, h, body, taken) && GuardsApart(h) && OuterNames(h) !! fr.Keys + d
    requires FreeSeq(body) <= free <= reserved + OuterNames(h) && Drawn(h, body, taken) <= total
    requires total !! reserved && total !! OuterNames(h)
    ensures Ready(env, h, body, taken, total, Push(fr, d), Push(fr, d + total))
  {
    hide DirectOk, GuardsApart, OuterNames, FreeSeq, Drawn;
    assert Push(fr, d) - total == Push(fr, d + total) - total;
  }

  /** Replacing every direct call of a block leaves its runs as they were, from every state. */
  lemma {:induction false} BlockInlined(
    env: Env, h: Helper, body: seq<Stmt>, reserved: set<string>, st: State, fuel: nat)
    requires ScopeOk(env, h, body, FreeSeq(body), reserved, st.frame.Keys + Declared(body))
    ensures RunScope(env, body, st, fuel) == RunScope(env, InlineDirect(h, body, reserved), st, fuel)
  {
    hide *;
    var d, total := Declared(body), Drawn(h, body, reserved);
    ScopeParts(env, h, body, FreeSeq(body), reserved, st.frame.Keys + d);
    DrawnApart(env, h, body, reserved);
    DirectNames(env, h, body, reserved);
    DrawnNew(h, body, reserved);
    ReadyOnEntry(env, h, body, reserved, reserved, FreeSeq(body), d, total, st.frame);
    DirectRuns(env, h, body, reserved, total, Push(st.frame, d), Push(st.frame, d + total), st.world, fuel);
    ScopeStep(env, body, st, fuel);
    ScopeStep(env, InlineDirect(h, body, reserved), st, fuel);
    var r1 := RunSeq(env, body, State(Push(st.frame, d), st.world), fuel);
    var r2 := RunSeq(env, InlineDirect(h, body, reserved), State(Push(st.frame, d + total), st.world), fuel);
    AlikeMeans(total, Push(st.frame, d), r1, r2);
    PopSame(st.frame, d, total, r1.1.frame, r2.1.frame);
  }

  lemma {:induction false} ScopeParts(
    env: Env, h: Helper, body: seq<Stmt>, free: set<string>, reserved: set<string>, scope: set<string>)
    requires ScopeOk(env, h, body, free, reserved, scope)
    ensures DirectOk(env, h, body, reserved) && free <= reserved + OuterNames(h)
      && OuterNames(h) !! scope && GuardsApart(h)
  {
  }

  lemma {:induction false} DrawnNew(h: Helper, body: seq<Stmt>, taken: set<string>)
    ensures Drawn(h, body, taken) !! taken
  {
  }

  // ---------------------------------------------------------------- case blocks

  lemma {:induction false} FallThrough(env: Env, cs: seq<Clause>, k: nat, st: State, fuel: nat)
    requires k <= |cs|
    ensures RunClauses(env, cs, k, st, fuel) == RunSeq(env, Bodies(cs[k..]), st, fuel)
    decreases |cs| - k
  {
    hide Run, RunSeq;
    if k < |cs| {
      assert cs[k..][1..] == cs[k + 1..];
      RunSeqConcat(env, cs[k].body, Bodies(cs[k + 1..]), st, fuel);
      var (_, s1) := RunSeq(env, cs[k].body, st, fuel);
      FallThrough(env, cs, k + 1, s1, fuel);
    } else {
      assert cs[k..] == [];
      assert RunSeq(env, [], st, fuel) == (Normal, st) by { RunNothing(env, st, fuel); }
    }
  }

  lemma {:induction false} RunNothing(env: Env, st: State, fuel: nat)
    ensures RunSeq(env, [], st, fuel) == (Normal, st)
  {
  }

  /** The case block is one scope: its clauses share the names in use. */
  function InlineCases(h: Helper, cs: seq<Clause>, taken: set<string>): (r: seq<Clause>)
    ensures |r| == |cs| && forall i | 0 <= i < |cs| :: r[i].test == cs[i].test
  {
    if cs == [] then [] else
    [Clause(cs[0].test, InlineDirect(h, cs[0].body, taken))]
      + InlineCases(h, cs[1..], TakenThrough(h, cs[0].body, taken))
  }

  lemma {:induction false} BodiesConcat(a: seq<Clause>, b: seq<Clause>)
    ensures Bodies(a + b) == Bodies(a) + Bodies(b)
  {
    if a == [] {
      assert a + b == b;
    } else {
      assert (a + b)[1..] == a[1..] + b;
      BodiesConcat(a[1..], b);
    }
  }

  lemma {:induction false} CasesWhole(h: Helper, cs: seq<Clause>, taken: set<string>)
    ensures Bodies(InlineCases(h, cs, taken)) == InlineDirect(h, Bodies(cs), taken)
  {
    hide InlineDirect, TakenThrough;
    if cs == [] {
      NothingDirect(h, taken);
    } else {
      var next := TakenThrough(h, cs[0].body, taken);
      CasesWhole(h, cs[1..], next);
      DirectConcat(h, cs[0].body, Bodies(cs[1..]), taken);
      assert InlineCases(h, cs, taken)[1..] == InlineCases(h, cs[1..], next);
    }
  }

  /** From clause `k` on, the inlined clauses are the inlined text of the clauses. */
  lemma {:induction false} CasesText(h: Helper, cs: seq<Clause>, k: nat, taken: set<string>)
    requires k <= |cs|
    ensures Bodies(InlineCases(h, cs, taken)[k..])
      == InlineDirect(h, Bodies(cs[k..]), TakenThrough(h, Bodies(cs[..k]), taken))
  {
    hide InlineDirect, TakenThrough;
    if k == 0 {
      CasesWhole(h, cs, taken);
      NothingDirect(h, taken);
      assert cs[0..] == cs && cs[..0] == [] && InlineCases(h, cs, taken)[0..] == InlineCases(h, cs, taken);
    } else {
      var next := TakenThrough(h, cs[0].body, taken);
      CasesText(h, cs[1..], k - 1, next);
      assert InlineCases(h, cs, taken)[k..] == InlineCases(h, cs[1..], next)[k - 1..] && cs[1..][k - 1..] == cs[k..];
      assert cs[..k][1..] == cs[1..][..k - 1];
      DirectConcat(h, cs[0].body, Bodies(cs[1..][..k - 1]), taken);
    }
  }

  lemma {:induction false} BodiesNames(cs: seq<Clause>)
    ensures FreeSeq(Bodies(cs)) == FreeClauses(cs) && Declared(Bodies(cs)) == DeclaredClauses(cs)
  {
    hide Free, FreeSeq, Declared;
    if cs == [] {
      NoNames();
    } else {
      BodiesNames(cs[1..]);
      FreeConcat(cs[0].body, Bodies(cs[1..]));
    }
  }

  lemma {:induction false} CasesMatch(h: Helper, cs: seq<Clause>, taken: set<string>, test: Option<Value>)
    ensures Matching(test, InlineCases(h, cs, taken)) == Matching(test, cs)
  {
    hide InlineDirect, TakenThrough;
    if cs != [] { CasesMatch(h, cs[1..], TakenThrough(h, cs[0].body, taken), test); }
  }

  lemma {:induction false} DirectOkConcat(env: Env, h: Helper, a: seq<Stmt>, b: seq<Stmt>, taken: set<string>)
    ensures DirectOk(env, h, a + b, taken)
      <==> DirectOk(env, h, a, taken) && DirectOk(env, h, b, TakenThrough(h, a, taken))
  {
    hide Replace, CallOk, Generated, BodyIdentifiers;
    if a == [] {
      assert a + b == b;
    } else {
      assert (a + b)[1..] == a[1..] + b;
      DirectOkConcat(env, h, a[1..], b, if a[0].Call? then Replace(h, a[0].args, taken).taken else taken);
    }
  }

  /** The clauses from `k` on, as part of the case block. */
  lemma {:induction false} SuffixParts(env: Env, h: Helper, cs: seq<Clause>, k: nat, reserved: set<string>)
    requires k <= |cs| && DirectOk(env, h, Bodies(cs), reserved) && GuardsApart(h)
    ensures var suffix, taken := Bodies(cs[k..]), TakenThrough(h, Bodies(cs[..k]), reserved);
      && DirectOk(env, h, suffix, taken) && FreeSeq(suffix) <= FreeClauses(cs)
      && Drawn(h, suffix, taken) <= Drawn(h, Bodies(cs), reserved)
  {
    hide DirectOk, GuardsApart, FreeSeq, FreeClauses, TakenThrough, Bodies;
    var a, b := cs[..k], cs[k..];
    assert cs == a + b;
    BodiesConcat(a, b);
    BodiesNames(cs);
    FreeConcat(Bodies(a), Bodies(b));
    DirectOkConcat(env, h, Bodies(a), Bodies(b), reserved);
    DirectConcat(h, Bodies(a), Bodies(b), reserved);
    DrawnApart(env, h, Bodies(a), reserved);
  }

  lemma {:induction false} CasesDeclare(env: Env, h: Helper, cs: seq<Clause>, reserved: set<string>)
    requires DirectOk(env, h, Bodies(cs), reserved) && GuardsApart(h)
    ensures DeclaredClauses(InlineCases(h, cs, reserved)) == DeclaredClauses(cs) + Drawn(h, Bodies(cs), reserved)
  {
    hide DirectOk, GuardsApart, Bodies, InlineDirect, DeclaredClauses, InlineCases, Declared;
    var text := InlineCases(h, cs, reserved);
    assert cs[0..] == cs && cs[..0] == [] && text[0..] == text;
    CasesText(h, cs, 0, reserved);
    NoBodies();
    NothingDirect(h, reserved);
    BodiesNames(cs);
    BodiesNames(text);
    DirectNames(env, h, Bodies(cs), reserved);
  }

  lemma {:induction false} NoBodies()
    ensures Bodies([]) == []
  {
  }

  /** Replacing every direct call of a case block leaves the switch's runs as they were. */
  lemma {:induction false} CasesInlined(
    env: Env, h: Helper, cs: seq<Clause>, reserved: set<string>, o: Outcome, st: State, fuel: nat)
    requires ScopeOk(env, h, Bodies(cs), FreeClauses(cs), reserved, st.frame.Keys + DeclaredClauses(cs))
    ensures AfterSubject(env, cs, o, st, fuel) == AfterSubject(env, InlineCases(h, cs, reserved), o, st, fuel)
  {
    hide *;
    if o.Ok? {
      SelectKept(h, cs, reserved, o.v);
      if Select(o.v, cs).Some? {
        SelectInside(o.v, cs);
        FromClause(env, h, cs, Select(o.v, cs).value, reserved, st, fuel);
      }
    }
    SubjectStep(env, cs, o, st, fuel);
    SubjectStep(env, InlineCases(h, cs, reserved), o, st, fuel);
  }

  lemma {:induction false} SelectInside(v: Value, cs: seq<Clause>)
    ensures Select(v, cs).Some? ==> Select(v, cs).value < |cs|
  {
  }

  lemma {:induction false} SelectKept(h: Helper, cs: seq<Clause>, reserved: set<string>, v: Value)
    ensures Select(v, InlineCases(h, cs, reserved)) == Select(v, cs)
  {
    CasesMatch(h, cs, reserved, Some(v));
    CasesMatch(h, cs, reserved, None);
    hide InlineCases, Matching;
  }

  /** The rest of a switch that starts at clause `k`. */
  function FromK(env: Env, cs: seq<Clause>, k: nat, st: State, fuel: nat): (Completion, State)
    requires k <= |cs|
  {
    var d := DeclaredClauses(cs);
    var (c, s1) := RunClauses(env, cs, k, st.(frame := Push(st.frame, d)), fuel);
    (if c == Broke(None) then Normal else c, s1.(frame := Pop(st.frame, s1.frame, d)))
  }

  lemma {:induction false} SubjectStep(env: Env, cs: seq<Clause>, o: Outcome, st: State, fuel: nat)
    ensures AfterSubject(env, cs, o, st, fuel) ==
      if o.Throw? then (Raised(o.v), st)
      else if Select(o.v, cs).Some? then FromK(env, cs, Select(o.v, cs).value, st, fuel) else (Normal, st)
  {
    hide RunClauses, DeclaredClauses, Select;
  }

  lemma {:induction false} FromClause(
    env: Env, h: Helper, cs: seq<Clause>, k: nat, reserved: set<string>, st: State, fuel: nat)
    requires k <= |cs|
    requires ScopeOk(env, h, Bodies(cs), FreeClauses(cs), reserved, st.frame.Keys + DeclaredClauses(cs))
    ensures FromK(env, cs, k, st, fuel) == FromK(env, InlineCases(h, cs, reserved), k, st, fuel)
  {
    hide *;
    var text, d, total := InlineCases(h, cs, reserved), DeclaredClauses(cs), Drawn(h, Bodies(cs), reserved);
    var suffix, taken := Bodies(cs[k..]), TakenThrough(h, Bodies(cs[..k]), reserved);
    ScopeParts(env, h, Bodies(cs), FreeClauses(cs), reserved, st.frame.Keys + d);
    DrawnApart(env, h, Bodies(cs), reserved);
    DrawnNew(h, Bodies(cs), reserved);
    SuffixParts(env, h, cs, k, reserved);
    CasesDeclare(env, h, cs, reserved);
    CasesText(h, cs, k, reserved);
    var a, b := Push(st.frame, d), Push(st.frame, d + total);
    ReadyOnEntry(env, h, suffix, taken, reserved, FreeClauses(cs), d, total, st.frame);
    DirectRuns(env, h, suffix, taken, total, a, b, st.world, fuel);
    FallThrough(env, cs, k, State(a, st.world), fuel);
    FallThrough(env, text, k, State(b, st.world), fuel);
    AlikeMeans(total, a, RunClauses(env, cs, k, State(a, st.world), fuel),
      RunClauses(env, text, k, State(b, st.world), fuel));
    SameRest(env, cs, text, k, d, total, st, fuel);
  }

  lemma {:induction false} SameRest(
    env: Env, cs: seq<Clause>, text: seq<Clause>, k: nat, d: set<string>, total: set<string>, st: State, fuel: nat)
    requires k <= |cs| == |text| && d == DeclaredClauses(cs) && DeclaredClauses(text) == d + total
    requires var (c1, s1) := RunClauses(env, cs, k, State(Push(st.frame, d), st.world), fuel);
      var (c2, s2) := RunClauses(env, text, k, State(Push(st.frame, d + total), st.world), fuel);
      && c1 == c2 && s1.world == s2.world
      && Agree(total, s1.frame, s2.frame) && Kept(total, Push(st.frame, d), s1.frame)
    ensures FromK(env, cs, k, st, fuel) == FromK(env, text, k, st, fuel)
  {
    hide RunClauses, DeclaredClauses, Agree, Kept;
    var (c1, s1) := RunClauses(env, cs, k, State(Push(st.frame, d), st.world), fuel);
    var (c2, s2) := RunClauses(env, text, k, State(Push(st.frame, d + total), st.world), fuel);
    PopSame(st.frame, d, total, s1.frame, s2.frame);
  }
}
