/** The statements that replace one call: what they declare, what they mention, and that no call
    is left in them. */
module InsertedStatements {
  import opened Optional
  import opened JsExpression
  import opened HelperLanguage
  import opened GuardText
  import opened GuardInversion
  import opened GuardExactness
  import opened FreshNames
  import opened InlinePlan
  import opened Renaming
  import opened Weakening
  import opened InlineCorrect
  import opened InlineTheorem

  function InsertedAt(h: Helper, args: seq<Expr>, taken: set<string>): seq<Stmt> {
    match Inserted(Replace(h, args, taken))
    case Some(ins) => ins
    case None => []
  }

  /** The replacement declares exactly the names it adds. */
  lemma {:induction false} InsertedDeclares(h: Helper, args: seq<Expr>, taken: set<string>)
    requires Syntactic(h)
    ensures Declared(InsertedAt(h, args, taken)) == Added(h, args, taken)
  {
    var plan, rest := Hoist(h, args, |h.params|, taken), RestText(h, args, taken);
    InsertedText(h, args, taken);
    HoistPlanned(h, args, |h.params|, taken);
    FreeConcat(plan.prefix, rest);
    if Guards(h.body) == [] {
      GuardlessParts(h, args, taken);
      var (ren, used) := Renames(h.body, |h.body|, plan.taken);
      RenamedDeclared(h.body, plan.rho + ren);
      LocalsUnaffected(h, args, taken, ren);
    }
  }

  lemma {:induction false} LocalsUnaffected(h: Helper, args: seq<Expr>, taken: set<string>, ren: Substitution)
    requires Syntactic(h)
    ensures LocalImages(Declared(h.body), Hoist(h, args, |h.params|, taken).rho + ren)
      == LocalImages(Declared(h.body), ren)
  {
    var rho := Hoist(h, args, |h.params|, taken).rho;
    PlanKeys(h, args, taken);
    forall x <- Declared(h.body) ensures SubstName(x, rho + ren) == SubstName(x, ren) {}
  }

  /** Names added for one call are made up, or are locals of the helper. */
  lemma {:induction false} AddedParts(h: Helper, args: seq<Expr>, taken: set<string>)
    requires Syntactic(h)
    ensures taken <= Replace(h, args, taken).taken
    ensures Added(h, args, taken) <= Generated(h, args, taken) + Declared(h.body)
  {
    var plan := Hoist(h, args, |h.params|, taken);
    HoistPlanned(h, args, |h.params|, taken);
    if Guards(h.body) == [] {
      GuardlessParts(h, args, taken);
      var (ren, used) := Renames(h.body, |h.body|, plan.taken);
      assert Added(h, args, taken) == (plan.taken - taken) + LocalImages(Declared(h.body), ren);
      forall x <- Declared(h.body) ensures SubstName(x, ren) in Generated(h, args, taken) + Declared(h.body) {
        if x in ren { assert ren[x].name in Generated(h, args, taken); }
      }
    }
  }

  lemma {:induction false} AddedApart(h: Helper, args: seq<Expr>, taken: set<string>)
    requires Syntactic(h) && Generated(h, args, taken) !! BodyIdentifiers(h)
    ensures taken <= Replace(h, args, taken).taken && Added(h, args, taken) !! OuterNames(h)
  {
    AddedParts(h, args, taken);
  }

  // ---------------------------------------------------------------- names in inserted text

  function Targets(rho: Substitution): set<string> {
    set x | x in rho && rho[x].Var? :: rho[x].name
  }

  /** The names that can appear after substituting in text with the names `from`. */
  function Image(from: set<string>, rho: Substitution): set<string> {
    (from - rho.Keys) + Targets(rho)
  }

  /** Renamings and parameter substitutions only, and nothing dropped is written. */
  ghost predicate Simple(writes: set<string>, rho: Substitution) {
    NoDroppedWrite(writes, rho) && forall x <- rho :: rho[x].Var? || rho[x] == UndefinedLit
  }

  lemma {:induction false} AtomImage(a: Atom, rho: Substitution)
    requires Simple(AtomWrites(a), rho)
    ensures AtomNames(SubstAtom(a, rho)) <= Image(AtomNames(a), rho)
    decreases a, 1
  {
    match a
    case Op(_, args) => AtomsImage(args, rho);
    case Set(x, rhs) => AtomImage(rhs, rho); assert !Dropped(rho, x);
    case _ =>
  }

  lemma {:induction false} AtomsImage(args: seq<Atom>, rho: Substitution)
    requires Simple(AtomsWrites(args), rho)
    ensures AtomsNames(SubstAtoms(args, rho)) <= Image(AtomsNames(args), rho)
    decreases args, 0
  {
    if args != [] {
      AtomImage(args[0], rho);
      AtomsImage(args[1..], rho);
    }
  }

  lemma {:induction false} ExprImage(e: Expr, rho: Substitution)
    requires Simple(ExprWrites(e), rho)
    ensures ExprNames(SubstExpr(e, rho)) <= Image(ExprNames(e), rho)
  {
    match e
    case Leaf(a) => AtomImage(a, rho);
    case Paren(e1) => ExprImage(e1, rho);
    case Not(e1) => ExprImage(e1, rho);
    case Cmp(_, l, r) => ExprImage(l, rho); ExprImage(r, rho);
    case And(l, r) => ExprImage(l, rho); ExprImage(r, rho);
    case Or(l, r) => ExprImage(l, rho); ExprImage(r, rho);
    case Cond(c, t, f) => ExprImage(c, rho); ExprImage(t, rho); ExprImage(f, rho);
  }

  lemma {:induction false} ArgsImage(args: seq<Expr>, rho: Substitution)
    requires Simple(ArgsWrites(args), rho)
    ensures ArgsNames(SubstArgs(args, rho)) <= Image(ArgsNames(args), rho)
  {
    if args != [] {
      ExprImage(args[0], rho);
      ArgsImage(args[1..], rho);
    }
  }

  lemma {:induction false} ImageMono(from: set<string>, from1: set<string>, rho: Substitution)
    requires from <= from1
    ensures Image(from, rho) <= Image(from1, rho)
  {
  }

  lemma {:induction false} SimpleMono(writes: set<string>, writes1: set<string>, rho: Substitution)
    requires writes1 <= writes && Simple(writes, rho)
    ensures Simple(writes1, rho)
  {
  }

  lemma {:induction false} StmtImage(s: Stmt, rho: Substitution)
    requires Simple(Writes(s), rho)
    ensures Free(SubstStmt(s, rho)) <= Image(Free(s), rho)
    decreases s, 1
  {
    hide SubstExpr, SubstArgs, ExprNames, ArgsNames, SubstSeq, SubstClauses, FreeSeq, FreeClauses, WritesSeq,
      WritesClauses;
    match s
    case Do(e) => ExprImage(e, rho);
    case Declare(x, e) =>
      SimpleMono(Writes(s), ExprWrites(e), rho);
      ExprImage(e, rho);
      assert !Dropped(rho, x);
    case Return(Some(e)) => ExprImage(e, rho);
    case If(_, _, _) => IfImage(s, rho);
    case Block(body) => ScopeImage(body, rho);
    case While(c, body) =>
      SimpleMono(Writes(s), ExprWrites(c), rho);
      SimpleMono(Writes(s), Writes(body), rho);
      ExprImage(c, rho);
      StmtImage(body, rho);
    case Switch(on, cs) =>
      SimpleMono(Writes(s), ExprWrites(on), rho);
      SimpleMono(Writes(s), WritesClauses(cs) - DeclaredClauses(cs), rho);
      ExprImage(on, rho);
      CaseBlockImage(cs, rho);
      hide Simple;
      assert Free(SubstStmt(s, rho)) <= Image(ExprNames(on), rho) + Image(FreeClauses(cs) - DeclaredClauses(cs), rho);
    case Labeled(_, s1) => StmtImage(s1, rho);
    case Nested(body) => ScopeImage(body, rho);
    case Call(args) => ArgsImage(args, rho);
    case _ =>
  }

  lemma {:induction false} IfImage(s: Stmt, rho: Substitution)
    requires s.If? && Simple(Writes(s), rho)
    ensures Free(SubstStmt(s, rho)) <= Image(Free(s), rho)
    decreases s, 0
  {
    var c, t, f := s.c, s.t, s.f;
    SimpleMono(Writes(s), ExprWrites(c), rho);
    SimpleMono(Writes(s), Writes(t), rho);
    ImageMono(ExprNames(c), Free(s), rho);
    ImageMono(Free(t), Free(s), rho);
    ExprImage(c, rho);
    StmtImage(t, rho);
    if f.Some? {
      SimpleMono(Writes(s), Writes(f.value), rho);
      ImageMono(Free(f.value), Free(s), rho);
      StmtImage(f.value, rho);
    }
    hide Image, Simple;
  }

  lemma {:induction false} ScopeImage(body: seq<Stmt>, rho: Substitution)
    requires Simple(WritesSeq(body) - Declared(body), rho)
    ensures var sub := SubstSeq(body, rho - Declared(body));
      FreeSeq(sub) - Declared(sub) <= Image(FreeSeq(body) - Declared(body), rho)
    decreases body, 1
  {
    var d := Declared(body);
    InnerSimple(WritesSeq(body), d, rho);
    SeqImage(body, rho - d);
    SubstDeclared(body, rho - d);
  }

  lemma {:induction false} InnerSimple(writes: set<string>, d: set<string>, rho: Substitution)
    requires Simple(writes - d, rho)
    ensures Simple(writes, rho - d) && Targets(rho - d) <= Targets(rho)
  {
    forall x <- writes ensures !Dropped(rho - d, x) {
      InnerName(rho, d, x);
      if x !in d { assert x in writes - d; }
    }
  }

  lemma {:induction false} CaseBlockImage(cs: seq<Clause>, rho: Substitution)
    requires Simple(WritesClauses(cs) - DeclaredClauses(cs), rho)
    ensures var sub := SubstClauses(cs, rho - DeclaredClauses(cs));
      FreeClauses(sub) - DeclaredClauses(sub) <= Image(FreeClauses(cs) - DeclaredClauses(cs), rho)
    decreases cs, 1
  {
    var d := DeclaredClauses(cs);
    InnerSimple(WritesClauses(cs), d, rho);
    ClausesImage(cs, rho - d);
    SubstDeclaredClauses(cs, rho - d);
  }

  lemma {:induction false} SeqImage(body: seq<Stmt>, rho: Substitution)
    requires Simple(WritesSeq(body), rho)
    ensures FreeSeq(SubstSeq(body, rho)) <= Image(FreeSeq(body), rho)
    decreases body, 0
  {
    if body != [] {
      StmtImage(body[0], rho);
      SeqImage(body[1..], rho);
    }
  }

  lemma {:induction false} ClausesImage(cs: seq<Clause>, rho: Substitution)
    requires Simple(WritesClauses(cs), rho)
    ensures FreeClauses(SubstClauses(cs, rho)) <= Image(FreeClauses(cs), rho)
    decreases cs, 0
  {
    if cs != [] {
      SeqImage(cs[0].body, rho);
      ClausesImage(cs[1..], rho);
    }
  }

  function AccNames(acc: Option<Expr>): set<string> {
    if acc.Some? then ExprNames(acc.value) else {}
  }

  lemma {:induction false} OrChainNames(acc: Option<Expr>, e: Expr, rho: Substitution)
    ensures ExprNames(OrChain(acc, e, rho)) <= AccNames(acc) + ExprNames(SubstExpr(e, rho))
    decreases e, 1
  {
    match e
    case Paren(e1) => OrChainNames(acc, e1, rho);
    case And(l, r) => OrChainNames(acc, l, rho); OrChainNames(Some(OrChain(acc, l, rho)), r, rho);
    case _ => AndChainNames(None, e, rho);
  }

  lemma {:induction false} AndChainNames(acc: Option<Expr>, e: Expr, rho: Substitution)
    requires !Core(e).And?
    ensures ExprNames(AndChain(acc, e, rho)) <= AccNames(acc) + ExprNames(SubstExpr(e, rho))
    decreases e, 0
  {
    match e
    case Paren(e1) => AndChainNames(acc, e1, rho);
    case Or(l, r) => AndPartNames(acc, l, rho); AndPartNames(Some(AndPart(acc, l, rho)), r, rho);
    case _ => OperandNames(e, rho);
  }

  lemma {:induction false} OperandNames(e: Expr, rho: Substitution)
    ensures ExprNames(NegOperand(e, rho)) == ExprNames(SubstExpr(e, rho))
  {
    var es := SubstExpr(e, rho);
    assert ExprNames(Not(Paren(es))) == ExprNames(Paren(es));
  }

  lemma {:induction false} AndPartNames(acc: Option<Expr>, e: Expr, rho: Substitution)
    ensures ExprNames(AndPart(acc, e, rho)) <= AccNames(acc) + ExprNames(SubstExpr(e, rho))
    decreases e, 2
  {
    if NegText(e, rho).prec < AND {
      OrChainNames(None, e, rho);
    } else {
      CorePrec(e, rho);
      AndChainNames(acc, e, rho);
    }
  }

  lemma {:induction false} CombineNames(guards: seq<Expr>, n: nat, rho: Substitution)
    requires 0 < n <= |guards| && Simple(ArgsWrites(guards), rho)
    ensures ExprNames(CombineParts(guards[..n], rho)) <= Image(ArgsNames(guards), rho)
    ensures n == 1 ==> ExprNames(OrChain(None, guards[0], rho)) <= Image(ArgsNames(guards), rho)
  {
    GuardIn(guards, n - 1);
    assert Simple(ExprWrites(guards[n - 1]), rho);
    ExprImage(guards[n - 1], rho);
    if n > 1 {
      CombineNames(guards, n - 1, rho);
      assert guards[..n][..n - 1] == guards[..n - 1];
      AndPartNames(Some(CombineParts(guards[..n - 1], rho)), guards[n - 1], rho);
    } else {
      AndPartNames(None, guards[0], rho);
      OrChainNames(None, guards[0], rho);
    }
  }

  /** Locals of the tail that a guard mentions. */
  function GuardLocals(h: Helper): set<string> {
    ArgsNames(Guards(h.body)) * Declared(h.body)
  }

  /** Inserted text mentions the arguments, the helper's outer names, what it adds, and the tail's
      locals that guards mention, and nothing else. */
  lemma {:induction false} InsertedNames(h: Helper, args: seq<Expr>, taken: set<string>)
    requires Accepted(h) && Syntactic(h)
    ensures FreeSeq(InsertedAt(h, args, taken))
      <= ArgsNames(args) + OuterNames(h) + Added(h, args, taken) + GuardLocals(h)
  {
    var plan := Hoist(h, args, |h.params|, taken);
    InsertedText(h, args, taken);
    FreeConcat(plan.prefix, RestText(h, args, taken));
    HoistNames(h, args, |h.params|, taken);
    TempsAdded(h, args, taken);
    if Guards(h.body) == [] {
      GuardlessNames(h, args, taken);
    } else {
      GuardedNames(h, args, taken);
    }
  }

  lemma {:induction false} HoistNames(h: Helper, args: seq<Expr>, n: nat, taken: set<string>)
    requires n <= |h.params|
    ensures var plan := Hoist(h, args, n, taken);
      taken <= plan.taken && FreeSeq(plan.prefix) <= ArgsNames(args) + (plan.taken - taken)
  {
    if n > 0 {
      HoistNames(h, args, n - 1, taken);
      HoistStepNames(h, args, n - 1, Hoist(h, args, n - 1, taken));
    }
  }

  lemma {:induction false} HoistStepNames(h: Helper, args: seq<Expr>, k: nat, before: Plan)
    requires k < |h.params|
    ensures var plan := HoistStep(h, args, k, before);
      && before.taken <= plan.taken
      && FreeSeq(plan.prefix) <= FreeSeq(before.prefix) + ArgsNames(args) + (plan.taken - before.taken)
  {
    hide Used, IsLiteral;
    if k < |args| {
      GuardIn(args, k);
      var temp := TempFor(h.params[k], before.taken);
      FreeConcat(before.prefix, [Declare(temp, args[k])]);
      FreeConcat(before.prefix, [Do(args[k])]);
      assert FreeSeq([Declare(temp, args[k])]) == {temp} + ExprNames(args[k]);
      assert FreeSeq([Do(args[k])]) == ExprNames(args[k]);
    }
  }

  lemma {:induction false} PlanSimple(h: Helper, args: seq<Expr>, taken: set<string>)
    requires Accepted(h) && Syntactic(h)
    ensures var plan := Hoist(h, args, |h.params|, taken);
      && taken <= plan.taken && Simple(WritesSeq(h.body), plan.rho) && Targets(plan.rho) <= plan.taken - taken
      && FreeSeq(h.body) - Declared(h.body) - plan.rho.Keys <= OuterNames(h)
      && plan.rho.Keys !! Declared(h.body)
  {
    HoistPlanned(h, args, |h.params|, taken);
    PlanKeys(h, args, taken);
  }

  lemma {:induction false} GuardedNames(h: Helper, args: seq<Expr>, taken: set<string>)
    requires Accepted(h) && Syntactic(h) && Guards(h.body) != []
    ensures FreeSeq(RestText(h, args, taken)) <= OuterNames(h) + Added(h, args, taken) + GuardLocals(h)
  {
    var rho, guards, tail := Hoist(h, args, |h.params|, taken).rho, Guards(h.body), TailOf(h.body);
    var cond, block := CombineTree(guards, rho), Block(SubstSeq(tail, rho - Declared(tail)));
    GuardedText(h, args, taken, cond, block);
    hide CombineTree, SubstSeq, FreeSeq, Free, ExprNames, ArgsNames, Hoist, RestText, Accepted, Guards, TailOf;
    PlanSimple(h, args, taken);
    TempsAdded(h, args, taken);
    BodyNames(h.body);
    GuardedImages(h, args, taken);
  }

  lemma {:induction false} GuardedText(h: Helper, args: seq<Expr>, taken: set<string>, cond: Expr, block: Stmt)
    requires Guards(h.body) != []
    requires var rho, tail := Hoist(h, args, |h.params|, taken).rho, TailOf(h.body);
      cond == CombineTree(Guards(h.body), rho) && block == Block(SubstSeq(tail, rho - Declared(tail)))
    ensures FreeSeq(RestText(h, args, taken)) == ExprNames(cond) + Free(block)
  {
    hide CombineTree, SubstSeq, ExprNames, Hoist, Guards, TailOf;
    var s := If(cond, block, None);
    assert RestText(h, args, taken) == [s];
    assert Free(s) == ExprNames(cond) + Free(block);
    assert FreeSeq([s]) == Free(s) + FreeSeq([s][1..]) && FreeSeq([]) == {} && [s][1..] == [];
  }

  lemma {:induction false} GuardedImages(h: Helper, args: seq<Expr>, taken: set<string>)
    requires Accepted(h) && Syntactic(h) && Guards(h.body) != []
    ensures var rho, guards, tail := Hoist(h, args, |h.params|, taken).rho, Guards(h.body), TailOf(h.body);
      && ExprNames(CombineTree(guards, rho)) <= Image(ArgsNames(guards), rho)
      && Free(Block(SubstSeq(tail, rho - Declared(tail)))) <= Image(FreeSeq(tail) - Declared(tail), rho)
  {
    hide *;
    var rho, guards, tail := Hoist(h, args, |h.params|, taken).rho, Guards(h.body), TailOf(h.body);
    PlanSimple(h, args, taken);
    BodyNames(h.body);
    SimpleMono(WritesSeq(h.body), ArgsWrites(guards), rho);
    SimpleMono(WritesSeq(h.body), WritesSeq(tail) - Declared(tail), rho);
    ConditionImage(guards, rho);
    BlockImage(tail, rho);
  }

  lemma {:induction false} ConditionImage(guards: seq<Expr>, rho: Substitution)
    requires guards != [] && Simple(ArgsWrites(guards), rho)
    ensures ExprNames(CombineTree(guards, rho)) <= Image(ArgsNames(guards), rho)
  {
    assert guards[..|guards|] == guards;
    hide ArgsNames, ExprNames, Image;
    CombineNames(guards, |guards|, rho);
  }

  lemma {:induction false} BlockImage(tail: seq<Stmt>, rho: Substitution)
    requires Simple(WritesSeq(tail) - Declared(tail), rho)
    ensures Free(Block(SubstSeq(tail, rho - Declared(tail)))) <= Image(FreeSeq(tail) - Declared(tail), rho)
  {
    ScopeImage(tail, rho);
    hide SubstSeq, FreeSeq, Declared, Image;
  }

  lemma {:induction false} GuardlessNames(h: Helper, args: seq<Expr>, taken: set<string>)
    requires Accepted(h) && Syntactic(h) && Guards(h.body) == []
    ensures FreeSeq(RestText(h, args, taken)) <= OuterNames(h) + Added(h, args, taken)
  {
    var plan := Hoist(h, args, |h.params|, taken);
    PlanSimple(h, args, taken);
    TempsAdded(h, args, taken);
    GuardlessParts(h, args, taken);
    var (ren, used) := Renames(h.body, |h.body|, plan.taken);
    var both := plan.rho + ren;
    forall x <- WritesSeq(h.body) ensures !Dropped(both, x) {
      LocalNeverDropped(h, args, taken, ren, used, x);
    }
    SeqImage(h.body, both);
    LocalImagesUsed(Declared(h.body), plan.taken, ren, used);
    assert RestText(h, args, taken) == SubstSeq(h.body, both);
    assert Added(h, args, taken) == used - taken;
    hide *;
    CombinedImages(FreeSeq(h.body), Declared(h.body), plan.rho, ren, OuterNames(h), taken, plan.taken, used);
  }

  lemma {:induction false} CombinedImages(
    free: set<string>, d: set<string>, rho: Substitution, ren: Substitution, outer: set<string>,
    taken: set<string>, temps: set<string>, used: set<string>)
    requires free - d - rho.Keys <= outer && taken <= temps <= used
    requires Targets(rho) <= temps - taken && Targets(ren) <= used - temps && d - ren.Keys <= used - temps
    ensures Image(free, rho + ren) <= outer + (used - taken)
  {
    assert Targets(rho + ren) <= Targets(rho) + Targets(ren);
    forall x <- free - (rho + ren).Keys ensures x in outer + (used - taken) {
      if x in d { assert x in d - ren.Keys; } else { assert x in free - d - rho.Keys; }
    }
  }

  lemma {:induction false} LocalImagesUsed(names: set<string>, taken: set<string>, ren: Substitution, used: set<string>)
    requires LocalsPlanned(names, taken, ren, used)
    ensures Targets(ren) <= used - taken && names - ren.Keys <= used - taken
  {
    forall x <- names ensures SubstName(x, ren) in used - taken {
      assert SubstName(x, ren) in LocalImages(names, ren);
    }
    forall x <- ren ensures ren[x].name in used - taken {
      assert SubstName(x, ren) == ren[x].name;
    }
  }

  // ---------------------------------------------------------------- no calls

  lemma {:induction false} SubstNoCalls(s: Stmt, rho: Substitution)
    requires NoCalls(s)
    ensures NoCalls(SubstStmt(s, rho))
    decreases s, 1
  {
    match s
    case If(_, t, f) =>
      SubstNoCalls(t, rho);
      if f.Some? { SubstNoCalls(f.value, rho); }
    case Block(body) => SubstSeqNoCalls(body, rho - Declared(body));
    case While(_, body) => SubstNoCalls(body, rho);
    case Switch(_, cs) => SubstClausesNoCalls(cs, rho - DeclaredClauses(cs));
    case Labeled(_, s1) => SubstNoCalls(s1, rho);
    case Nested(body) => SubstSeqNoCalls(body, rho - Declared(body));
    case _ =>
  }

  lemma {:induction false} SubstSeqNoCalls(body: seq<Stmt>, rho: Substitution)
    requires NoCallsSeq(body)
    ensures NoCallsSeq(SubstSeq(body, rho))
    decreases body, 0
  {
    if body != [] { SubstNoCalls(body[0], rho); SubstSeqNoCalls(body[1..], rho); }
  }

  lemma {:induction false} SubstClausesNoCalls(cs: seq<Clause>, rho: Substitution)
    requires NoCallsClauses(cs)
    ensures NoCallsClauses(SubstClauses(cs, rho))
    decreases cs, 0
  {
    if cs != [] { SubstSeqNoCalls(cs[0].body, rho); SubstClausesNoCalls(cs[1..], rho); }
  }

  lemma {:induction false} NoCallsConcat(a: seq<Stmt>, b: seq<Stmt>)
    ensures NoCallsSeq(a + b) <==> NoCallsSeq(a) && NoCallsSeq(b)
  {
    if a == [] {
      assert a + b == b;
    } else {
      assert (a + b)[1..] == a[1..] + b;
      NoCallsConcat(a[1..], b);
    }
  }

  lemma {:induction false} HoistNoCalls(h: Helper, args: seq<Expr>, n: nat, taken: set<string>)
    requires n <= |h.params|
    ensures NoCallsSeq(Hoist(h, args, n, taken).prefix)
  {
    if n > 0 {
      HoistNoCalls(h, args, n - 1, taken);
      var before := Hoist(h, args, n - 1, taken);
      if n - 1 < |args| {
        NoCallsConcat(before.prefix, [Declare(TempFor(h.params[n - 1], before.taken), args[n - 1])]);
        NoCallsConcat(before.prefix, [Do(args[n - 1])]);
      }
    }
  }

  lemma {:induction false} InsertedNoCalls(h: Helper, args: seq<Expr>, taken: set<string>)
    requires Accepted(h) && Syntactic(h)
    ensures NoCallsSeq(InsertedAt(h, args, taken))
  {
    var plan := Hoist(h, args, |h.params|, taken);
    InsertedText(h, args, taken);
    HoistNoCalls(h, args, |h.params|, taken);
    NoCallsConcat(plan.prefix, RestText(h, args, taken));
    TailNoCalls(h.body, GuardCount(h.body));
    var tail := TailOf(h.body);
    SubstSeqNoCalls(tail, plan.rho - Declared(tail));
    if Guards(h.body) == [] {
      GuardlessParts(h, args, taken);
      SubstSeqNoCalls(h.body, plan.rho + Renames(h.body, |h.body|, plan.taken).0);
    } else {
      assert NoCalls(Block(SubstSeq(tail, plan.rho - Declared(tail))));
      assert NoCalls(RestText(h, args, taken)[0]);
    }
  }
}
