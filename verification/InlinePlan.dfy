/** What the inliner decides and builds for one call: the guards and the tail of a helper,
    the hoisted arguments, the substitution, and the renamed locals. */
module InlinePlan {
  import opened Optional
  import opened JsExpression
  import opened HelperLanguage
  import opened GuardText
  import opened GuardInversion
  import opened EscapeAnalysis
  import opened FreshNames

  // ---------------------------------------------------------------- guards and tail

  /** `if (c) return;` or `if (c) { return; }`, without an `else`. */
  function AsGuard(s: Stmt): Option<Expr> {
    match s
    case If(c, Return(None), None) => Some(c)
    case If(c, Block(inner), None) => if inner == [Return(None)] then Some(c) else None
    case _ => None
  }

  /** These two forms are guards, and nothing else is. */
  lemma {:induction false} GuardForms(s: Stmt, c: Expr)
    ensures AsGuard(s) == Some(c) <==>
      s == If(c, Return(None), None) || s == If(c, Block([Return(None)]), None)
  {
    if s == If(c, Block([Return(None)]), None) { assert s.t.body == [Return(None)]; }
  }

  function GuardCount(body: seq<Stmt>): (n: nat)
    ensures n <= |body|
    ensures forall i | 0 <= i < n :: AsGuard(body[i]).Some?
    ensures n < |body| ==> AsGuard(body[n]).None?
  {
    if body == [] || AsGuard(body[0]).None? then 0 else 1 + GuardCount(body[1..])
  }

  function Guards(body: seq<Stmt>): seq<Expr> {
    seq(GuardCount(body), i requires 0 <= i < GuardCount(body) => AsGuard(body[i]).value)
  }

  function TailOf(body: seq<Stmt>): seq<Stmt> {
    body[GuardCount(body)..]
  }

  lemma {:induction false} GuardCountUnique(body: seq<Stmt>, n: nat)
    requires n <= |body| && (forall i | 0 <= i < n :: AsGuard(body[i]).Some?)
    requires n < |body| ==> AsGuard(body[n]).None?
    ensures n == GuardCount(body)
  {
  }

  method Partition(body: seq<Stmt>) returns (guards: seq<Expr>, tail: seq<Stmt>)
    ensures guards == Guards(body) && tail == TailOf(body)
  {
    guards := [];
    var i := 0;
    while i < |body|
      invariant i <= |body| && |guards| == i
      invariant forall j | 0 <= j < i :: AsGuard(body[j]) == Some(guards[j])
    {
      var cond := AsGuard(body[i]);
      if cond.None? { break; }
      guards := guards + [cond.value];
      i := i + 1;
    }
    GuardCountUnique(body, i);
    tail := body[i..];
  }

  // ---------------------------------------------------------------- acceptance

  predicate NoCalls(s: Stmt)
    decreases s, 1
  {
    match s
    case If(_, t, f) => NoCalls(t) && (f.Some? ==> NoCalls(f.value))
    case Block(body) => NoCallsSeq(body)
    case While(_, body) => NoCalls(body)
    case Switch(_, cs) => NoCallsClauses(cs)
    case Labeled(_, s1) => NoCalls(s1)
    case Nested(body) => NoCallsSeq(body)
    case Call(_) => false
    case _ => true
  }

  predicate NoCallsSeq(body: seq<Stmt>)
    decreases body, 0
  {
    body != [] ==> NoCalls(body[0]) && NoCallsSeq(body[1..])
  }

  predicate NoCallsClauses(cs: seq<Clause>)
    decreases cs, 0
  {
    cs != [] ==> NoCallsSeq(cs[0].body) && NoCallsClauses(cs[1..])
  }

  /** The checks of `analyze` that bear on meaning: not recursive, no parameter written, a tail
      that stays inside. */
  predicate Accepted(h: Helper) {
    && NoCallsSeq(h.body)
    && (forall p <- h.params :: p !in WritesSeq(h.body))
    && forall t <- TailOf(h.body) :: TailAccepted(t)
  }

  /** What a JavaScript parser guarantees of any helper it accepts: distinct parameters and
      locals, guards printed from parse trees, jumps with targets. */
  predicate Syntactic(h: Helper) {
    && (forall i, j | 0 <= i < j < |h.params| :: h.params[i] != h.params[j])
    && (forall g <- Guards(h.body) :: Parsed(g))
    && (forall t <- TailOf(h.body) :: WellFormed(t) && !IsJump(t))
    && DistinctLocals(TailOf(h.body))
    && (forall p <- h.params :: p !in Declared(h.body))
  }

  predicate DistinctLocals(body: seq<Stmt>) {
    forall i, j | 0 <= i < j < |body| && body[i].Declare? && body[j].Declare? :: body[i].name != body[j].name
  }

  // ---------------------------------------------------------------- arguments

  /** The plan under construction: hoisted statements, substitution, names in use. */
  datatype Plan = Plan(prefix: seq<Stmt>, rho: Substitution, taken: set<string>)

  predicate IsLiteral(e: Expr) {
    match e
    case Paren(e1) => IsLiteral(e1)
    case Leaf(Lit(_)) => true
    case _ => false
  }

  predicate Used(h: Helper, p: string) {
    p in FreeSeq(h.body)
  }

  function TempFor(p: string, taken: set<string>): string {
    Fresh("__inl_" + p, taken)
  }

  /** One parameter, under `--strict-effects`. */
  function HoistStep(h: Helper, args: seq<Expr>, i: nat, plan: Plan): Plan
    requires i < |h.params|
  {
    var p := h.params[i];
    if !Used(h, p) then
      if i < |args| && !IsLiteral(args[i]) then plan.(prefix := plan.prefix + [Do(args[i])]) else plan
    else if i >= |args| then plan.(rho := plan.rho[p := UndefinedLit])
    else
      var temp := TempFor(p, plan.taken);
      Plan(plan.prefix + [Declare(temp, args[i])], plan.rho[p := Var(temp)], plan.taken + {temp})
  }

  function Hoist(h: Helper, args: seq<Expr>, n: nat, taken: set<string>): Plan
    requires n <= |h.params|
  {
    if n == 0 then Plan([], map[], taken) else HoistStep(h, args, n - 1, Hoist(h, args, n - 1, taken))
  }

  // ---------------------------------------------------------------- locals

  /** Renaming of the first `n` tail statements' own locals, and the names in use after it. */
  function Renames(tail: seq<Stmt>, n: nat, taken: set<string>): (Substitution, set<string>)
    requires n <= |tail|
  {
    if n == 0 then (map[], taken) else
    var (ren, used) := Renames(tail, n - 1, taken);
    var t := tail[n - 1];
    if !t.Declare? then (ren, used)
    else if t.name !in used then (ren, used + {t.name})
    else (ren[t.name := Var(Fresh(t.name, used))], used + {Fresh(t.name, used)})
  }

  method RenameCollidingLocals(tail: seq<Stmt>, taken: set<string>)
    returns (edits: Substitution, taken': set<string>)
    ensures (edits, taken') == Renames(tail, |tail|, taken)
  {
    edits, taken' := map[], taken;
    for i := 0 to |tail|
      invariant (edits, taken') == Renames(tail, i, taken)
    {
      var t := tail[i];
      if !t.Declare? { continue; }
      if t.name !in taken' {
        taken' := taken' + {t.name};
        continue;
      }
      var renamed := FreshName(t.name, taken');
      taken' := taken' + {renamed};
      edits := edits[t.name := Var(renamed)];
    }
  }

  // ---------------------------------------------------------------- the replacement

  datatype Replacement = Replacement(
    prefix: seq<Stmt>, condition: Option<seq<Tok>>, tail: seq<Stmt>, taken: set<string>)

  function Replace(h: Helper, args: seq<Expr>, taken: set<string>): Replacement {
    var plan := Hoist(h, args, |h.params|, taken);
    var guards, tail := Guards(h.body), TailOf(h.body);
    if guards != [] then
      Replacement(plan.prefix, Some(CombineText(guards, plan.rho)),
        SubstSeq(tail, plan.rho - Declared(tail)), plan.taken)
    else
      var (ren, used) := Renames(tail, |tail|, plan.taken);
      Replacement(plan.prefix, None, SubstSeq(tail, plan.rho + ren), used)
  }

  method BuildReplacement(h: Helper, args: seq<Expr>, reserved: set<string>) returns (r: Replacement)
    ensures r == Replace(h, args, reserved)
  {
    var prefix: seq<Stmt> := [];
    var substByParam: Substitution := map[];
    var reservedNames := reserved;
    for i := 0 to |h.params|
      invariant Plan(prefix, substByParam, reservedNames) == Hoist(h, args, i, reserved)
    {
      var p := h.params[i];
      if !Used(h, p) {
        if i < |args| && !IsLiteral(args[i]) {
          prefix := prefix + [Do(args[i])];
        }
        continue;
      }
      if i >= |args| {
        substByParam := substByParam[p := UndefinedLit];
        continue;
      }
      var temp := FreshName("__inl_" + p, reservedNames);
      reservedNames := reservedNames + {temp};
      prefix := prefix + [Declare(temp, args[i])];
      substByParam := substByParam[p := Var(temp)];
    }
    var guards, tail := Partition(h.body);
    if guards != [] {
      return Replacement(prefix, Some(CombineText(guards, substByParam)),
        SubstSeq(tail, substByParam - Declared(tail)), reservedNames);
    }
    var edits, used := RenameCollidingLocals(tail, reservedNames);
    return Replacement(prefix, None, SubstSeq(tail, substByParam + edits), used);
  }

  /** The statements put in place of the call. The condition is text, so what it means is
      what the parser reads. */
  function Inserted(r: Replacement): Option<seq<Stmt>> {
    match r.condition
    case None => Some(r.prefix + r.tail)
    case Some(text) =>
      match ParseCondition(text)
      case None => None
      case Some(c) => Some(r.prefix + [If(c, Block(r.tail), None)])
  }
}
