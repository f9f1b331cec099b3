/** What a replacement looks like: which arguments get a statement of their own, which locals are
    renamed, and what the names that are made up look like. */
module InlineShape {
  import opened Optional
  import opened JsExpression
  import opened HelperLanguage
  import opened FreshNames
  import opened InlinePlan
  import opened InlineCorrect

  // ---------------------------------------------------------------- names

  function DigitValue(c: char): int {
    c as int - '0' as int
  }

  function NumberOf(digits: string): int {
    if digits == "" then 0 else 10 * NumberOf(digits[..|digits| - 1]) + DigitValue(digits[|digits| - 1])
  }

  /** A suffix is a number written in decimal digits, the first of which is not zero. */
  lemma {:induction false} DecimalIs(n: nat)
    ensures NumberOf(Decimal(n)) == n && Decimal(n) != "" && (n > 0 ==> Decimal(n)[0] != '0')
    ensures forall c <- Decimal(n) :: '0' <= c <= '9'
  {
    DigitIs(n % 10);
    if n < 10 {
      assert Decimal(n)[..0] == "";
    } else {
      DecimalIs(n / 10);
      var init, last := Decimal(n / 10), Digit(n % 10);
      assert Decimal(n) == init + [last] && Decimal(n)[..|init|] == init;
    }
  }

  lemma {:induction false} DigitIs(d: nat)
    requires d < 10
    ensures '0' <= Digit(d) <= '9' && DigitValue(Digit(d)) == d && (d > 0 ==> Digit(d) != '0')
  {
  }

  /** A made-up name is the wanted one, or that one with an underscore and a number from 2 on, and
      every name with a smaller number is taken. */
  lemma {:induction false} FreshIs(base: string, taken: set<string>) returns (k: nat)
    ensures k >= 1 && Fresh(base, taken) !in taken
    ensures Fresh(base, taken) == if k == 1 then base else base + "_" + Decimal(k)
    ensures k > 1 ==> base in taken && forall j: nat | 2 <= j < k :: base + "_" + Decimal(j) in taken
  {
    assert Fresh(base, taken) == FreshFrom(base, taken, 1);
    k :| 1 <= k && FreshFrom(base, taken, 1) == Candidate(base, k) && AllTaken(base, taken, 1, k);
    forall j: nat | 1 <= j < k ensures Candidate(base, j) in taken {
    }
    assert k > 1 ==> Candidate(base, 1) in taken;
    forall j: nat | 2 <= j < k ensures base + "_" + Decimal(j) in taken { assert Candidate(base, j) in taken; }
  }

  // ---------------------------------------------------------------- hoisted arguments

  /** Literals, in parentheses or not. */
  predicate Unwrapped(e: Expr, inner: Expr) {
    e == inner || (e.Paren? && Unwrapped(e.e, inner))
  }

  lemma {:induction false} LiteralIs(e: Expr)
    ensures IsLiteral(e) <==> exists v :: Unwrapped(e, Leaf(Lit(v)))
  {
    if e.Paren? {
      LiteralIs(e.e);
      if v :| Unwrapped(e.e, Leaf(Lit(v))) { assert Unwrapped(e, Leaf(Lit(v))); }
      if v :| Unwrapped(e, Leaf(Lit(v))) { assert Unwrapped(e.e, Leaf(Lit(v))); }
    } else if e.Leaf? && e.atom.Lit? {
      assert Unwrapped(e, Leaf(Lit(e.atom.v)));
    }
  }

  /** Argument `i` is evaluated ahead of the body: its parameter is used, or it may have an effect. */
  predicate Evaluated(h: Helper, args: seq<Expr>, i: nat) {
    i < |h.params| && i < |args| && (Used(h, h.params[i]) || !IsLiteral(args[i]))
  }

  /** The statement for argument `i`: a constant that stands for its parameter, or the argument alone. */
  ghost predicate EvaluatedBy(h: Helper, args: seq<Expr>, i: nat, taken: set<string>, rho: Substitution, s: Stmt) {
    && Evaluated(h, args, i)
    && if Used(h, h.params[i])
       then h.params[i] in rho && rho[h.params[i]].Var? && s == Declare(rho[h.params[i]].name, args[i])
         && (exists t: set<string> :: taken <= t && rho[h.params[i]].name == Fresh("__inl_" + h.params[i], t))
       else s == Do(args[i])
  }

  /** The arguments evaluated among the first `n`, in order. */
  ghost predicate Lists(h: Helper, args: seq<Expr>, n: nat, at: seq<nat>) {
    && (forall j | 0 <= j < |at| :: at[j] < n)
    && (forall i, j | 0 <= i < j < |at| :: at[i] < at[j])
    && forall i: nat | i < n && Evaluated(h, args, i) :: i in at
  }

  ghost predicate Shaped(h: Helper, args: seq<Expr>, n: nat, taken: set<string>, plan: Plan, at: seq<nat>) {
    && |at| == |plan.prefix| && taken <= plan.taken && Lists(h, args, n, at)
    && forall j | 0 <= j < |at| :: EvaluatedBy(h, args, at[j], taken, plan.rho, plan.prefix[j])
  }

  /** The statements in front are those of the evaluated arguments, from left to right. */
  lemma {:induction false} PrefixExactly(h: Helper, args: seq<Expr>, n: nat, taken: set<string>) returns (at: seq<nat>)
    requires DistinctParams(h) && n <= |h.params|
    ensures Shaped(h, args, n, taken, Hoist(h, args, n, taken), at)
  {
    if n == 0 {
      at := [];
    } else {
      at := PrefixExactly(h, args, n - 1, taken);
      hide Shaped, Used, IsLiteral, HoistStep;
      at := ShapedNext(h, args, n - 1, taken, Hoist(h, args, n - 1, taken), at);
    }
  }

  lemma {:induction false} StillEvaluated(
    h: Helper, args: seq<Expr>, i: nat, n: nat, taken: set<string>, before: Plan, s: Stmt)
    requires DistinctParams(h) && i < n < |h.params| && EvaluatedBy(h, args, i, taken, before.rho, s)
    ensures EvaluatedBy(h, args, i, taken, HoistStep(h, args, n, before).rho, s)
  {
    hide Used, IsLiteral, Fresh;
    assert h.params[i] != h.params[n];
  }

  lemma {:induction false} JustEvaluated(h: Helper, args: seq<Expr>, n: nat, taken: set<string>, before: Plan)
    requires n < |h.params| && taken <= before.taken
    ensures var plan := HoistStep(h, args, n, before);
      && taken <= plan.taken
      && if Evaluated(h, args, n)
         then |plan.prefix| == |before.prefix| + 1 && plan.prefix[..|before.prefix|] == before.prefix
           && EvaluatedBy(h, args, n, taken, plan.rho, plan.prefix[|before.prefix|])
         else plan.prefix == before.prefix
  {
    hide Used, IsLiteral, Fresh;
  }

  lemma {:induction false} ListsNext(h: Helper, args: seq<Expr>, n: nat, at: seq<nat>)
    requires Lists(h, args, n, at)
    ensures Lists(h, args, n + 1, if Evaluated(h, args, n) then at + [n] else at)
  {
    hide Evaluated;
  }

  lemma {:induction false} ListsBelow(h: Helper, args: seq<Expr>, n: nat, at: seq<nat>, j: nat)
    requires Lists(h, args, n, at) && j < |at|
    ensures at[j] < n
  {
  }

  lemma {:induction false} ShapedNext(
    h: Helper, args: seq<Expr>, n: nat, taken: set<string>, before: Plan, at: seq<nat>) returns (next: seq<nat>)
    requires DistinctParams(h) && n < |h.params| && Shaped(h, args, n, taken, before, at)
    ensures Shaped(h, args, n + 1, taken, HoistStep(h, args, n, before), next)
  {
    var plan := HoistStep(h, args, n, before);
    hide HoistStep, EvaluatedBy, Evaluated, DistinctParams, Lists;
    JustEvaluated(h, args, n, taken, before);
    ListsNext(h, args, n, at);
    next := if Evaluated(h, args, n) then at + [n] else at;
    forall j | 0 <= j < |at| ensures EvaluatedBy(h, args, at[j], taken, plan.rho, before.prefix[j]) {
      ListsBelow(h, args, n, at, j);
      StillEvaluated(h, args, at[j], n, taken, before, before.prefix[j]);
    }
  }

  // ---------------------------------------------------------------- renamed locals

  /** The names in use when the tail's `n`-th statement is met: those taken from the start, and for
      each local before it the name it ends up with. */
  function InUse(tail: seq<Stmt>, n: nat, taken: set<string>, ren: Substitution): set<string>
    requires n <= |tail|
  {
    taken + set i | 0 <= i < n && tail[i].Declare? :: SubstName(tail[i].name, ren)
  }

  lemma {:induction false} InUseNext(tail: seq<Stmt>, n: nat, taken: set<string>, ren: Substitution)
    requires n < |tail|
    ensures InUse(tail, n + 1, taken, ren)
      == InUse(tail, n, taken, ren) + if tail[n].Declare? then {SubstName(tail[n].name, ren)} else {}
  {
    hide SubstName;
  }

  lemma {:induction false} InUseSame(tail: seq<Stmt>, n: nat, taken: set<string>, a: Substitution, b: Substitution)
    requires n <= |tail|
    requires forall i | 0 <= i < n && tail[i].Declare? :: SubstName(tail[i].name, a) == SubstName(tail[i].name, b)
    ensures InUse(tail, n, taken, a) == InUse(tail, n, taken, b)
  {
    hide SubstName;
    if n > 0 {
      InUseSame(tail, n - 1, taken, a, b);
      InUseNext(tail, n - 1, taken, a);
      InUseNext(tail, n - 1, taken, b);
    }
  }

  /** Local `i` is renamed exactly when its name is in use by then, to a name that is not. */
  ghost predicate RenamedWhen(tail: seq<Stmt>, i: nat, taken: set<string>, ren: Substitution)
    requires i < |tail| && tail[i].Declare?
  {
    var x, used := tail[i].name, InUse(tail, i, taken, ren);
    if x in used then x in ren && ren[x] == Var(Fresh(x, used)) else x !in ren
  }

  ghost predicate IsLocal(tail: seq<Stmt>, n: nat, x: string)
    requires n <= |tail|
  {
    exists i :: 0 <= i < n && tail[i].Declare? && tail[i].name == x
  }

  /** The substitution after one more local. */
  function OneRenaming(x: string, used: set<string>, before: Substitution): Substitution {
    if x in used then before[x := Var(Fresh(x, used))] else before
  }

  lemma {:induction false} RenamingKeys(x: string, used: set<string>, before: Substitution)
    ensures forall y <- OneRenaming(x, used, before) :: y in before || y == x
  {
  }

  lemma {:induction false} SameNames(tail: seq<Stmt>, i: nat, m: nat, taken: set<string>, before: Substitution,
                                     used: set<string>)
    requires DistinctLocals(tail) && i <= m < |tail| && tail[m].Declare?
    ensures InUse(tail, i, taken, OneRenaming(tail[m].name, used, before)) == InUse(tail, i, taken, before)
  {
    hide InUse, Fresh;
    InUseSame(tail, i, taken, OneRenaming(tail[m].name, used, before), before);
  }

  lemma {:induction false} RenamedStays(tail: seq<Stmt>, i: nat, m: nat, taken: set<string>, before: Substitution,
                                        used: set<string>)
    requires DistinctLocals(tail) && i < m < |tail| && tail[i].Declare? && tail[m].Declare?
    requires RenamedWhen(tail, i, taken, before)
    ensures RenamedWhen(tail, i, taken, OneRenaming(tail[m].name, used, before))
  {
    hide InUse, Fresh;
    SameNames(tail, i, m, taken, before, used);
  }

  lemma {:induction false} RenamedHere(tail: seq<Stmt>, m: nat, taken: set<string>, before: Substitution)
    requires DistinctLocals(tail) && m < |tail| && tail[m].Declare? && !IsLocal(tail, m, tail[m].name)
    requires tail[m].name !in before
    ensures var used := InUse(tail, m, taken, before);
      var ren := OneRenaming(tail[m].name, used, before);
      && RenamedWhen(tail, m, taken, ren)
      && InUse(tail, m + 1, taken, ren) == used + {SubstName(tail[m].name, ren)}
  {
    hide InUse, Fresh, IsLocal;
    var used := InUse(tail, m, taken, before);
    SameNames(tail, m, m, taken, before, used);
    InUseNext(tail, m, taken, OneRenaming(tail[m].name, used, before));
  }

  lemma {:induction false} NewLocal(tail: seq<Stmt>, m: nat)
    requires DistinctLocals(tail) && m < |tail| && tail[m].Declare?
    ensures !IsLocal(tail, m, tail[m].name) && IsLocal(tail, m + 1, tail[m].name)
  {
  }

  lemma {:induction false} LocalsGrow(tail: seq<Stmt>, m: nat, x: string)
    requires m < |tail| && IsLocal(tail, m, x)
    ensures IsLocal(tail, m + 1, x)
  {
  }

  ghost predicate OnlyLocals(tail: seq<Stmt>, n: nat, ren: Substitution)
    requires n <= |tail|
  {
    forall x <- ren :: IsLocal(tail, n, x)
  }

  ghost predicate RenamedAll(tail: seq<Stmt>, n: nat, taken: set<string>, ren: Substitution)
    requires n <= |tail|
  {
    (forall i | 0 <= i < n && tail[i].Declare? :: RenamedWhen(tail, i, taken, ren)) && OnlyLocals(tail, n, ren)
  }

  lemma {:induction false} OnlyLocalsNext(tail: seq<Stmt>, m: nat, before: Substitution, used: set<string>)
    requires DistinctLocals(tail) && m < |tail| && tail[m].Declare? && OnlyLocals(tail, m, before)
    ensures OnlyLocals(tail, m + 1, OneRenaming(tail[m].name, used, before)) && tail[m].name !in before
    ensures !IsLocal(tail, m, tail[m].name)
  {
    NewLocal(tail, m);
    RenamingKeys(tail[m].name, used, before);
    hide IsLocal, OneRenaming, DistinctLocals;
    forall x <- before ensures IsLocal(tail, m + 1, x) { LocalsGrow(tail, m, x); }
  }

  lemma {:induction false} RenamedNext(tail: seq<Stmt>, m: nat, taken: set<string>, before: Substitution)
    requires DistinctLocals(tail) && m < |tail| && tail[m].Declare? && RenamedAll(tail, m, taken, before)
    ensures var used := InUse(tail, m, taken, before);
      var ren := OneRenaming(tail[m].name, used, before);
      RenamedAll(tail, m + 1, taken, ren) && InUse(tail, m + 1, taken, ren) == used + {SubstName(tail[m].name, ren)}
  {
    hide RenamedWhen, IsLocal, InUse, DistinctLocals, OneRenaming, SubstName, OnlyLocals;
    var used := InUse(tail, m, taken, before);
    OnlyLocalsNext(tail, m, before, used);
    RenamedHere(tail, m, taken, before);
    forall i | 0 <= i < m && tail[i].Declare?
      ensures RenamedWhen(tail, i, taken, OneRenaming(tail[m].name, used, before))
    {
      RenamedStays(tail, i, m, taken, before, used);
    }
  }

  /** The names in use afterwards are the locals' new names and those taken from the start, and only
      locals are renamed. */
  lemma {:induction false} RenamedExactly(tail: seq<Stmt>, n: nat, taken: set<string>)
    requires DistinctLocals(tail) && n <= |tail|
    ensures var (ren, used) := Renames(tail, n, taken);
      used == InUse(tail, n, taken, ren) && RenamedAll(tail, n, taken, ren)
  {
    if n == 0 {
      assert InUse(tail, 0, taken, map[]) == taken;
    } else {
      var m := n - 1;
      var (before, used0) := Renames(tail, m, taken);
      RenamedExactly(tail, m, taken);
      RenamesStep(tail, m, taken);
      hide InUse, RenamedAll, Renames, DistinctLocals;
      if tail[m].Declare? {
        RenamedNext(tail, m, taken, before);
      } else {
        InUseNext(tail, m, taken, before);
        RenamedSkip(tail, m, taken, before);
      }
    }
  }

  lemma {:induction false} RenamesStep(tail: seq<Stmt>, m: nat, taken: set<string>)
    requires m < |tail| && DistinctLocals(tail)
    requires RenamedAll(tail, m, taken, Renames(tail, m, taken).0)
    ensures var (before, used) := Renames(tail, m, taken);
      Renames(tail, m + 1, taken) ==
        if !tail[m].Declare? then (before, used) else
        var ren := OneRenaming(tail[m].name, used, before); (ren, used + {SubstName(tail[m].name, ren)})
  {
    if tail[m].Declare? { OnlyLocalsNext(tail, m, Renames(tail, m, taken).0, {}); }
    hide IsLocal, RenamedWhen, DistinctLocals;
  }

  lemma {:induction false} RenamedSkip(tail: seq<Stmt>, m: nat, taken: set<string>, ren: Substitution)
    requires m < |tail| && !tail[m].Declare? && RenamedAll(tail, m, taken, ren)
    ensures RenamedAll(tail, m + 1, taken, ren)
  {
    hide IsLocal, RenamedWhen;
    forall x <- ren ensures IsLocal(tail, m + 1, x) { LocalsGrow(tail, m, x); }
    assert OnlyLocals(tail, m + 1, ren);
  }
}
