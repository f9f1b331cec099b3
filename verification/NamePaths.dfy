/** Names, read off the text by position and by substitution: what it means that a statement mentions,
    uses, assigns or declares a name, or calls. */
module NamePaths {
  import opened Optional
  import opened JsExpression
  import opened HelperLanguage
  import opened EscapePaths
  import opened InlinePlan
  import opened InlineBlock
  import opened ShadowCheck

  // ---------------------------------------------------------------- expressions

  /** An expression mentions a name exactly when renaming it changes the text. */
  lemma {:induction false} ExprMentions(e: Expr, x: string, y: string)
    requires x != y
    ensures x in ExprNames(e) <==> SubstExpr(e, map[x := Var(y)]) != e
  {
    match e
    case Leaf(a) => AtomMentions(a, x, y);
    case Paren(e1) => ExprMentions(e1, x, y);
    case Not(e1) => ExprMentions(e1, x, y);
    case Cmp(_, l, r) => ExprMentions(l, x, y); ExprMentions(r, x, y);
    case And(l, r) => ExprMentions(l, x, y); ExprMentions(r, x, y);
    case Or(l, r) => ExprMentions(l, x, y); ExprMentions(r, x, y);
    case Cond(c, t, f) => ExprMentions(c, x, y); ExprMentions(t, x, y); ExprMentions(f, x, y);
  }

  lemma {:induction false} AtomMentions(a: Atom, x: string, y: string)
    requires x != y
    ensures x in AtomNames(a) <==> SubstAtom(a, map[x := Var(y)]) != a
    decreases a, 1
  {
    match a
    case Op(_, args) => AtomsMention(args, x, y);
    case Set(_, rhs) => AtomMentions(rhs, x, y);
    case _ =>
  }

  lemma {:induction false} AtomsMention(args: seq<Atom>, x: string, y: string)
    requires x != y
    ensures x in AtomsNames(args) <==> SubstAtoms(args, map[x := Var(y)]) != args
    decreases args, 0
  {
    if args != [] {
      AtomMentions(args[0], x, y);
      AtomsMention(args[1..], x, y);
      var rho := map[x := Var(y)];
      assert SubstAtoms(args, rho) == [SubstAtom(args[0], rho)] + SubstAtoms(args[1..], rho);
      assert args == [args[0]] + args[1..];
    }
  }

  /** It assigns a name exactly when putting a value in place of it leaves the name somewhere. */
  lemma {:induction false} ExprAssigns(e: Expr, x: string)
    ensures x in ExprWrites(e) <==> x in ExprNames(SubstExpr(e, map[x := UndefinedLit]))
  {
    match e
    case Leaf(a) => AtomAssigns(a, x);
    case Paren(e1) => ExprAssigns(e1, x);
    case Not(e1) => ExprAssigns(e1, x);
    case Cmp(_, l, r) => ExprAssigns(l, x); ExprAssigns(r, x);
    case And(l, r) => ExprAssigns(l, x); ExprAssigns(r, x);
    case Or(l, r) => ExprAssigns(l, x); ExprAssigns(r, x);
    case Cond(c, t, f) => ExprAssigns(c, x); ExprAssigns(t, x); ExprAssigns(f, x);
  }

  lemma {:induction false} AtomAssigns(a: Atom, x: string)
    ensures x in AtomWrites(a) <==> x in AtomNames(SubstAtom(a, map[x := UndefinedLit]))
    decreases a, 1
  {
    match a
    case Op(_, args) => AtomsAssign(args, x);
    case Set(_, rhs) => AtomAssigns(rhs, x);
    case _ =>
  }

  lemma {:induction false} AtomsAssign(args: seq<Atom>, x: string)
    ensures x in AtomsWrites(args) <==> x in AtomsNames(SubstAtoms(args, map[x := UndefinedLit]))
    decreases args, 0
  {
    if args != [] {
      AtomAssigns(args[0], x);
      AtomsAssign(args[1..], x);
    }
  }

  // ---------------------------------------------------------------- ways through a statement

  /** Some path leads to a statement that hits, past none that stops. */
  ghost predicate Leads(s: Stmt, hit: Stmt -> bool, stop: Stmt -> bool) {
    exists path :: LeadsBy(s, path, hit, stop)
  }

  ghost predicate LeadsBy(s: Stmt, path: seq<nat>, hit: Stmt -> bool, stop: Stmt -> bool) {
    At(s, path).Some? && hit(At(s, path).value) && forall p <- Passed(s, path) :: !stop(p)
  }

  ghost predicate LeadsIn(parts: seq<Stmt>, hit: Stmt -> bool, stop: Stmt -> bool) {
    exists i: nat :: i < |parts| && Leads(parts[i], hit, stop)
  }

  lemma {:induction false} LeadsStep(s: Stmt, hit: Stmt -> bool, stop: Stmt -> bool)
    ensures Leads(s, hit, stop) <==> hit(s) || (!stop(s) && LeadsIn(Parts(s), hit, stop))
  {
    if hit(s) { assert LeadsBy(s, [], hit, stop); }
    if path :| LeadsBy(s, path, hit, stop) && path != [] {
      assert path == [path[0]] + path[1..];
      StepIn(s, path[1..], path[0]);
      assert s in Passed(s, path);
      assert forall p <- Passed(Parts(s)[path[0]], path[1..]) :: p in Passed(s, path);
      assert LeadsBy(Parts(s)[path[0]], path[1..], hit, stop);
    }
    if !stop(s) && LeadsIn(Parts(s), hit, stop) {
      var i: nat :| i < |Parts(s)| && Leads(Parts(s)[i], hit, stop);
      var path :| LeadsBy(Parts(s)[i], path, hit, stop);
      StepIn(s, path, i);
      assert LeadsBy(s, [i] + path, hit, stop);
    }
  }

  function Size(s: Stmt): nat
    decreases s, 1
  {
    match s
    case If(_, t, f) => 1 + Size(t) + (if f.Some? then Size(f.value) else 0)
    case Block(body) => 1 + SizeSeq(body)
    case While(_, body) => 1 + Size(body)
    case Switch(_, cs) => 1 + SizeClauses(cs)
    case Labeled(_, s1) => 1 + Size(s1)
    case Nested(body) => 1 + SizeSeq(body)
    case _ => 1
  }

  function SizeSeq(body: seq<Stmt>): nat
    decreases body, 0
  {
    if body == [] then 0 else Size(body[0]) + SizeSeq(body[1..])
  }

  function SizeClauses(cs: seq<Clause>): nat
    decreases cs, 0
  {
    if cs == [] then 0 else SizeSeq(cs[0].body) + SizeClauses(cs[1..])
  }

  lemma {:induction false} SizeHas(body: seq<Stmt>, i: nat)
    requires i < |body|
    ensures Size(body[i]) <= SizeSeq(body)
  {
    if i > 0 { SizeHas(body[1..], i - 1); }
  }

  lemma {:induction false} SizeConcat(a: seq<Stmt>, b: seq<Stmt>)
    ensures SizeSeq(a + b) == SizeSeq(a) + SizeSeq(b)
  {
    if a == [] {
      assert a + b == b;
    } else {
      assert (a + b)[1..] == a[1..] + b;
      SizeConcat(a[1..], b);
    }
  }

  lemma {:induction false} SizeBodies(cs: seq<Clause>)
    ensures SizeSeq(Bodies(cs)) == SizeClauses(cs)
  {
    if cs != [] {
      SizeBodies(cs[1..]);
      SizeConcat(cs[0].body, Bodies(cs[1..]));
    }
  }

  lemma {:induction false} PartSmaller(s: Stmt, i: nat)
    requires i < |Parts(s)|
    ensures Size(Parts(s)[i]) < Size(s)
  {
    match s
    case Block(body) => SizeHas(body, i);
    case Switch(_, cs) => SizeBodies(cs); SizeHas(Bodies(cs), i);
    case Nested(body) => SizeHas(body, i);
    case _ =>
  }

  ghost predicate HoldsIn(parts: seq<Stmt>, what: Stmt -> bool) {
    exists i: nat :: i < |parts| && what(parts[i])
  }

  lemma {:induction false} HoldsConcat(a: seq<Stmt>, b: seq<Stmt>, what: Stmt -> bool)
    ensures HoldsIn(a + b, what) <==> HoldsIn(a, what) || HoldsIn(b, what)
  {
    if i: nat :| i < |a| && what(a[i]) { assert (a + b)[i] == a[i]; }
    if i: nat :| i < |b| && what(b[i]) { assert (a + b)[|a| + i] == b[i]; }
  }

  lemma {:induction false} HoldsFirst(body: seq<Stmt>, what: Stmt -> bool)
    requires body != []
    ensures HoldsIn(body, what) <==> what(body[0]) || HoldsIn(body[1..], what)
  {
    HoldsConcat([body[0]], body[1..], what);
    assert [body[0]] + body[1..] == body;
    assert HoldsIn([body[0]], what) <==> what(body[0]) by {
      if what(body[0]) { assert what([body[0]][0]); }
    }
  }

  /** What holds of a statement if it hits, or else of one of its parts unless it stops. */
  ghost predicate Spreads(what: Stmt -> bool, hit: Stmt -> bool, stop: Stmt -> bool) {
    forall s: Stmt :: what(s) <==> hit(s) || (!stop(s) && HoldsIn(Parts(s), what))
  }

  /** Then it holds exactly when a path leads to a hit. */
  lemma {:induction false} SpreadsByPath(s: Stmt, what: Stmt -> bool, hit: Stmt -> bool, stop: Stmt -> bool)
    requires Spreads(what, hit, stop)
    ensures what(s) <==> Leads(s, hit, stop)
    decreases Size(s)
  {
    LeadsStep(s, hit, stop);
    forall i: nat | i < |Parts(s)| ensures what(Parts(s)[i]) <==> Leads(Parts(s)[i], hit, stop) {
      PartSmaller(s, i);
      SpreadsByPath(Parts(s)[i], what, hit, stop);
    }
  }

  // ---------------------------------------------------------------- names

  /** Names a statement mentions itself, not in a part. */
  function OwnNames(s: Stmt): set<string> {
    match s
    case Do(e) => ExprNames(e)
    case Declare(x, e) => {x} + ExprNames(e)
    case Return(Some(e)) => ExprNames(e)
    case If(c, _, _) => ExprNames(c)
    case While(c, _) => ExprNames(c)
    case Switch(on, _) => ExprNames(on)
    case Call(args) => ArgsNames(args)
    case _ => {}
  }

  /** ... and those it gives a value. */
  function OwnWrites(s: Stmt): set<string> {
    match s
    case Do(e) => ExprWrites(e)
    case Declare(x, e) => {x} + ExprWrites(e)
    case Return(Some(e)) => ExprWrites(e)
    case If(c, _, _) => ExprWrites(c)
    case While(c, _) => ExprWrites(c)
    case Switch(on, _) => ExprWrites(on)
    case Call(args) => ArgsWrites(args)
    case _ => {}
  }

  /** The scope that a statement opens for its parts binds the name. */
  predicate Hides(s: Stmt, x: string) {
    exists p <- Parts(s) :: (s.Block? || s.Nested? || s.Switch?) && p.Declare? && p.name == x
  }

  lemma {:induction false} DeclaredHas(body: seq<Stmt>, x: string)
    ensures x in Declared(body) <==> exists p <- body :: p.Declare? && p.name == x
  {
    if body != [] {
      DeclaredHas(body[1..], x);
      assert body == [body[0]] + body[1..];
    }
  }

  lemma {:induction false} HidesIs(s: Stmt, x: string)
    ensures Hides(s, x) <==>
      x in match s { case Block(body) => Declared(body) case Nested(body) => Declared(body)
                     case Switch(_, cs) => DeclaredClauses(cs) case _ => {} }
  {
    match s
    case Block(body) => DeclaredHas(body, x);
    case Nested(body) => DeclaredHas(body, x);
    case Switch(_, cs) => DeclaredHas(Bodies(cs), x); BodiesNames(cs);
    case _ =>
  }

  function NamesHere(x: string): Stmt -> bool {
    (s: Stmt) => x in OwnNames(s)
  }

  function WritesHere(x: string): Stmt -> bool {
    (s: Stmt) => x in OwnWrites(s)
  }

  function DeclaresHere(x: string): Stmt -> bool {
    (s: Stmt) => s.Declare? && s.name == x
  }

  function Hidden(x: string): Stmt -> bool {
    (s: Stmt) => Hides(s, x)
  }

  function Nowhere(): Stmt -> bool {
    (s: Stmt) => false
  }

  function UsesName(x: string): Stmt -> bool {
    (s: Stmt) => x in Free(s)
  }

  lemma {:induction false} FreeParts(body: seq<Stmt>, x: string)
    ensures x in FreeSeq(body) <==> HoldsIn(body, UsesName(x))
  {
    if body != [] {
      FreeParts(body[1..], x);
      HoldsFirst(body, UsesName(x));
    }
  }

  lemma {:induction false} FreeCases(cs: seq<Clause>, x: string)
    ensures x in FreeClauses(cs) <==> HoldsIn(Bodies(cs), UsesName(x))
  {
    if cs != [] {
      FreeParts(cs[0].body, x);
      FreeCases(cs[1..], x);
      HoldsConcat(cs[0].body, Bodies(cs[1..]), UsesName(x));
    }
  }

  lemma {:induction false} FreeStep(s: Stmt, x: string)
    ensures UsesName(x)(s) <==> NamesHere(x)(s) || (!Hidden(x)(s) && HoldsIn(Parts(s), UsesName(x)))
  {
    HidesIs(s, x);
    match s
    case If(_, t, f) =>
      HoldsFirst(Parts(s), UsesName(x));
      if f.Some? { HoldsFirst(Parts(s)[1..], UsesName(x)); }
    case Block(body) => FreeParts(body, x);
    case While(_, body) => HoldsFirst(Parts(s), UsesName(x));
    case Switch(_, cs) => FreeCases(cs, x);
    case Labeled(_, s1) => HoldsFirst(Parts(s), UsesName(x));
    case Nested(body) => FreeParts(body, x);
    case _ =>
  }

  /** A name is free in a statement exactly when a path leads to a mention of it past no scope that binds it. */
  lemma {:induction false} FreeByPath(s: Stmt, x: string)
    ensures x in Free(s) <==> Leads(s, NamesHere(x), Hidden(x))
  {
    forall t: Stmt { FreeStep(t, x); }
    SpreadsByPath(s, UsesName(x), NamesHere(x), Hidden(x));
  }

  function WritesName(x: string): Stmt -> bool {
    (s: Stmt) => x in Writes(s)
  }

  lemma {:induction false} WritesParts(body: seq<Stmt>, x: string)
    ensures x in WritesSeq(body) <==> HoldsIn(body, WritesName(x))
  {
    if body != [] {
      WritesParts(body[1..], x);
      HoldsFirst(body, WritesName(x));
    }
  }

  lemma {:induction false} WritesCases(cs: seq<Clause>, x: string)
    ensures x in WritesClauses(cs) <==> HoldsIn(Bodies(cs), WritesName(x))
  {
    if cs != [] {
      WritesParts(cs[0].body, x);
      WritesCases(cs[1..], x);
      HoldsConcat(cs[0].body, Bodies(cs[1..]), WritesName(x));
    }
  }

  lemma {:induction false} WritesStep(s: Stmt, x: string)
    ensures WritesName(x)(s) <==> WritesHere(x)(s) || (!Hidden(x)(s) && HoldsIn(Parts(s), WritesName(x)))
  {
    HidesIs(s, x);
    match s
    case If(_, t, f) =>
      HoldsFirst(Parts(s), WritesName(x));
      if f.Some? { HoldsFirst(Parts(s)[1..], WritesName(x)); }
    case Block(body) => WritesParts(body, x);
    case While(_, body) => HoldsFirst(Parts(s), WritesName(x));
    case Switch(_, cs) => WritesCases(cs, x);
    case Labeled(_, s1) => HoldsFirst(Parts(s), WritesName(x));
    case Nested(body) => WritesParts(body, x);
    case _ =>
  }

  /** It is written exactly when such a path leads to an assignment or declaration of it. */
  lemma {:induction false} WritesByPath(s: Stmt, x: string)
    ensures x in Writes(s) <==> Leads(s, WritesHere(x), Hidden(x))
  {
    forall t: Stmt { WritesStep(t, x); }
    SpreadsByPath(s, WritesName(x), WritesHere(x), Hidden(x));
  }

  function MentionsName(x: string): Stmt -> bool {
    (s: Stmt) => x in Mentions(s)
  }

  lemma {:induction false} MentionsParts(body: seq<Stmt>, x: string)
    ensures x in MentionsSeq(body) <==> HoldsIn(body, MentionsName(x))
  {
    if body != [] {
      MentionsParts(body[1..], x);
      HoldsFirst(body, MentionsName(x));
    }
  }

  lemma {:induction false} MentionsCases(cs: seq<Clause>, x: string)
    ensures x in MentionsClauses(cs) <==> HoldsIn(Bodies(cs), MentionsName(x))
  {
    if cs != [] {
      MentionsParts(cs[0].body, x);
      MentionsCases(cs[1..], x);
      HoldsConcat(cs[0].body, Bodies(cs[1..]), MentionsName(x));
    }
  }

  lemma {:induction false} MentionsStep(s: Stmt, x: string)
    ensures MentionsName(x)(s) <==> NamesHere(x)(s) || (!Nowhere()(s) && HoldsIn(Parts(s), MentionsName(x)))
  {
    match s
    case If(_, t, f) =>
      HoldsFirst(Parts(s), MentionsName(x));
      if f.Some? { HoldsFirst(Parts(s)[1..], MentionsName(x)); }
    case Block(body) => MentionsParts(body, x);
    case While(_, body) => HoldsFirst(Parts(s), MentionsName(x));
    case Switch(_, cs) => MentionsCases(cs, x);
    case Labeled(_, s1) => HoldsFirst(Parts(s), MentionsName(x));
    case Nested(body) => MentionsParts(body, x);
    case _ =>
  }

  /** It is mentioned exactly when any path leads to a mention ... */
  lemma {:induction false} MentionsByPath(s: Stmt, x: string)
    ensures x in Mentions(s) <==> Leads(s, NamesHere(x), Nowhere())
  {
    forall t: Stmt { MentionsStep(t, x); }
    SpreadsByPath(s, MentionsName(x), NamesHere(x), Nowhere());
  }

  function BindsName(x: string): Stmt -> bool {
    (s: Stmt) => x in Binders(s)
  }

  lemma {:induction false} BindersParts(body: seq<Stmt>, x: string)
    ensures x in BindersSeq(body) <==> HoldsIn(body, BindsName(x))
  {
    if body != [] {
      BindersParts(body[1..], x);
      HoldsFirst(body, BindsName(x));
    }
  }

  lemma {:induction false} BindersCases(cs: seq<Clause>, x: string)
    ensures x in BindersClauses(cs) <==> HoldsIn(Bodies(cs), BindsName(x))
  {
    if cs != [] {
      BindersParts(cs[0].body, x);
      BindersCases(cs[1..], x);
      HoldsConcat(cs[0].body, Bodies(cs[1..]), BindsName(x));
    }
  }

  lemma {:induction false} BindersStep(s: Stmt, x: string)
    ensures BindsName(x)(s) <==> DeclaresHere(x)(s) || (!Nowhere()(s) && HoldsIn(Parts(s), BindsName(x)))
  {
    match s
    case If(_, t, f) =>
      HoldsFirst(Parts(s), BindsName(x));
      if f.Some? { HoldsFirst(Parts(s)[1..], BindsName(x)); }
    case Block(body) => BindersParts(body, x);
    case While(_, body) => HoldsFirst(Parts(s), BindsName(x));
    case Switch(_, cs) => BindersCases(cs, x);
    case Labeled(_, s1) => HoldsFirst(Parts(s), BindsName(x));
    case Nested(body) => BindersParts(body, x);
    case _ =>
  }

  /** ... and bound exactly when any path leads to its declaration. */
  lemma {:induction false} BindersByPath(s: Stmt, x: string)
    ensures x in Binders(s) <==> Leads(s, DeclaresHere(x), Nowhere())
  {
    forall t: Stmt { BindersStep(t, x); }
    SpreadsByPath(s, BindsName(x), DeclaresHere(x), Nowhere());
  }

  function Calls(): Stmt -> bool {
    (s: Stmt) => !NoCalls(s)
  }

  function CallsHere(): Stmt -> bool {
    (s: Stmt) => s.Call?
  }

  lemma {:induction false} CallsParts(body: seq<Stmt>)
    ensures !NoCallsSeq(body) <==> HoldsIn(body, Calls())
  {
    if body != [] {
      CallsParts(body[1..]);
      HoldsFirst(body, Calls());
    }
  }

  lemma {:induction false} CallsCases(cs: seq<Clause>)
    ensures !NoCallsClauses(cs) <==> HoldsIn(Bodies(cs), Calls())
  {
    if cs != [] {
      CallsParts(cs[0].body);
      CallsCases(cs[1..]);
      HoldsConcat(cs[0].body, Bodies(cs[1..]), Calls());
    }
  }

  lemma {:induction false} CallsStep(s: Stmt)
    ensures Calls()(s) <==> CallsHere()(s) || HoldsIn(Parts(s), Calls())
  {
    match s
    case If(_, t, f) =>
      HoldsFirst(Parts(s), Calls());
      if f.Some? { HoldsFirst(Parts(s)[1..], Calls()); }
    case Block(body) => CallsParts(body);
    case While(_, body) => HoldsFirst(Parts(s), Calls());
    case Switch(_, cs) => CallsCases(cs);
    case Labeled(_, s1) => HoldsFirst(Parts(s), Calls());
    case Nested(body) => CallsParts(body);
    case _ =>
  }

  /** The recursion check finds a call exactly when some path leads to one. */
  lemma {:induction false} CallsByPath(s: Stmt)
    ensures !NoCalls(s) <==> Leads(s, CallsHere(), Nowhere())
  {
    forall t: Stmt { CallsStep(t); }
    SpreadsByPath(s, Calls(), CallsHere(), Nowhere());
  }

  /** A parameter counts as used exactly when the body mentions it outside any scope that binds it. */
  lemma {:induction false} UsedByPath(h: Helper, p: string)
    ensures Used(h, p) <==> LeadsIn(h.body, NamesHere(p), Hidden(p))
  {
    FreeParts(h.body, p);
    forall i | 0 <= i < |h.body| { FreeByPath(h.body[i], p); }
  }
}
