/** Which tails may leave the helper's frame: the inliner's walk over jumps and returns, and
    why an accepted tail can only complete normally or throw.

    The walk looks for a catching ancestor of each `break` and `continue`, going outward from
    the jump to the tail statement. `Exits` says the same thing from the inside out: the jumps
    that can leave a statement when it runs. */
module EscapeAnalysis {
  import opened Optional
  import opened JsExpression
  import opened HelperLanguage

  /** What the walk can tell about one ancestor of a jump. */
  datatype Ancestor = Loop | SwitchStatement | LabelOf(name: string) | OtherNode

  predicate IsJump(s: Stmt) {
    s.Break? || s.Continue?
  }

  predicate Catches(a: Ancestor, target: Option<string>, isBreak: bool) {
    match target
    case Some(l) => a == LabelOf(l)
    case None => a.Loop? || (isBreak && a.SwitchStatement?)
  }

  /** The walk outward: `ancestors` from the jump's parent to the tail statement itself. */
  method JumpEscapes(ancestors: seq<Ancestor>, target: Option<string>, isBreak: bool) returns (escapes: bool)
    ensures escapes <==> Uncaught(ancestors, target, isBreak)
  {
    var i := 0;
    while i < |ancestors|
      invariant i <= |ancestors|
      invariant Uncaught(ancestors[..i], target, isBreak)
    {
      assert ancestors[i] in ancestors;
      assert forall a <- ancestors[..i + 1] :: a == ancestors[i] || a in ancestors[..i];
      if target.Some? {
        if ancestors[i].LabelOf? && ancestors[i].name == target.value { return false; }
      } else {
        if ancestors[i].Loop? { return false; }
        if isBreak && ancestors[i].SwitchStatement? { return false; }
      }
      i := i + 1;
    }
    assert ancestors[..i] == ancestors;
    return true;
  }

  predicate Uncaught(ancestors: seq<Ancestor>, target: Option<string>, isBreak: bool) {
    forall a <- ancestors :: !Catches(a, target, isBreak)
  }

  function NodeOf(s: Stmt): Ancestor {
    match s
    case While(_, _) => Loop
    case Switch(_, _) => SwitchStatement
    case Labeled(l, _) => LabelOf(l)
    case _ => OtherNode
  }

  /** Does the walk find an escaping jump strictly inside the tail statement? `up` is empty at
      the tail statement itself, which is not one of its own descendants. */
  predicate EscapingJump(s: Stmt, up: seq<Ancestor>)
    decreases s, 1
  {
    var inner := [NodeOf(s)] + up;
    match s
    case Break(l) => up != [] && Uncaught(up, l, true)
    case Continue(l) => up != [] && Uncaught(up, l, false)
    case If(_, t, f) => EscapingJump(t, inner) || (f.Some? && EscapingJump(f.value, inner))
    case Block(body) => EscapingJumpSeq(body, inner)
    case While(_, body) => EscapingJump(body, inner)
    case Switch(_, cs) => EscapingJumpClauses(cs, inner)
    case Labeled(_, s1) => EscapingJump(s1, inner)
    case Nested(body) => EscapingJumpSeq(body, inner)
    case _ => false
  }

  predicate EscapingJumpSeq(body: seq<Stmt>, up: seq<Ancestor>)
    decreases body, 0
  {
    body != [] && (EscapingJump(body[0], up) || EscapingJumpSeq(body[1..], up))
  }

  predicate EscapingJumpClauses(cs: seq<Clause>, up: seq<Ancestor>)
    decreases cs, 0
  {
    cs != [] && (EscapingJumpSeq(cs[0].body, up) || EscapingJumpClauses(cs[1..], up))
  }

  /** A `return` whose nearest function is the helper. */
  predicate ReturnsFromHelper(s: Stmt)
    decreases s, 1
  {
    match s
    case Return(_) => true
    case If(_, t, f) => ReturnsFromHelper(t) || (f.Some? && ReturnsFromHelper(f.value))
    case Block(body) => ReturnsFromHelperSeq(body)
    case While(_, body) => ReturnsFromHelper(body)
    case Switch(_, cs) => ReturnsFromHelperClauses(cs)
    case Labeled(_, s1) => ReturnsFromHelper(s1)
    case _ => false
  }

  predicate ReturnsFromHelperSeq(body: seq<Stmt>)
    decreases body, 0
  {
    body != [] && (ReturnsFromHelper(body[0]) || ReturnsFromHelperSeq(body[1..]))
  }

  predicate ReturnsFromHelperClauses(cs: seq<Clause>)
    decreases cs, 0
  {
    cs != [] && (ReturnsFromHelperSeq(cs[0].body) || ReturnsFromHelperClauses(cs[1..]))
  }

  predicate TailAccepted(t: Stmt) {
    !ReturnsFromHelper(t) && !EscapingJump(t, [])
  }

  // ---------------------------------------------------------------- the jumps that leave

  /** The break and continue completions `s` can have; `labels` stand directly on it. */
  function Exits(s: Stmt, labels: set<string>): set<Completion>
    decreases s, 1
  {
    match s
    case Break(l) => {Broke(l)}
    case Continue(l) => {Continued(l)}
    case If(_, t, f) => Exits(t, {}) + (if f.Some? then Exits(f.value, {}) else {})
    case Block(body) => ExitsSeq(body)
    case While(_, body) => LoopExits(Exits(body, {}), labels)
    case Switch(_, cs) => ExitsClauses(cs) - {Broke(None)}
    case Labeled(l, s1) => Exits(s1, labels + {l}) - {Broke(Some(l))}
    case Nested(body) => ExitsSeq(body)
    case _ => {}
  }

  function LoopExits(exits: set<Completion>, labels: set<string>): set<Completion> {
    set k | k in exits && !NextRound(k, labels) && k != Broke(None)
  }

  function ExitsSeq(body: seq<Stmt>): set<Completion>
    decreases body, 0
  {
    if body == [] then {} else Exits(body[0], {}) + ExitsSeq(body[1..])
  }

  function ExitsClauses(cs: seq<Clause>): set<Completion>
    decreases cs, 0
  {
    if cs == [] then {} else ExitsSeq(cs[0].body) + ExitsClauses(cs[1..])
  }

  predicate LabelsLoop(s: Stmt) {
    s.While? || (s.Labeled? && LabelsLoop(s.s))
  }

  /** The early errors of ECMA-262 (2022), sections 14.8.1, 14.9.1 and 15.2.1: a jump in a
      nested function has its target there, and a labelled `continue` names a loop. */
  predicate WellFormed(s: Stmt)
    decreases s, 1
  {
    match s
    case If(_, t, f) => WellFormed(t) && (f.Some? ==> WellFormed(f.value))
    case Block(body) => WellFormedSeq(body)
    case While(_, body) => WellFormed(body)
    case Switch(_, cs) => WellFormedClauses(cs)
    case Labeled(l, s1) =>
      WellFormed(s1) && (!LabelsLoop(s1) ==> Continued(Some(l)) !in Exits(s1, {}))
    case Nested(body) => WellFormedSeq(body) && ExitsSeq(body) == {}
    case _ => true
  }

  predicate WellFormedSeq(body: seq<Stmt>)
    decreases body, 0
  {
    body != [] ==> WellFormed(body[0]) && WellFormedSeq(body[1..])
  }

  predicate WellFormedClauses(cs: seq<Clause>)
    decreases cs, 0
  {
    cs != [] ==> WellFormedSeq(cs[0].body) && WellFormedClauses(cs[1..])
  }

  predicate IsExit(k: Completion) {
    k.Broke? || k.Continued?
  }

  lemma {:induction false} OnlyExits(s: Stmt, labels: set<string>)
    ensures forall k <- Exits(s, labels) :: IsExit(k)
    decreases s, 1
  {
    match s
    case If(_, t, f) =>
      OnlyExits(t, {});
      if f.Some? { OnlyExits(f.value, {}); }
    case Block(body) => OnlyExitsSeq(body);
    case While(_, body) => OnlyExits(body, {});
    case Switch(_, cs) => OnlyExitsClauses(cs);
    case Labeled(l, s1) => OnlyExits(s1, labels + {l});
    case Nested(body) => OnlyExitsSeq(body);
    case _ =>
  }

  lemma {:induction false} OnlyExitsSeq(body: seq<Stmt>)
    ensures forall k <- ExitsSeq(body) :: IsExit(k)
    decreases body, 0
  {
    if body != [] { OnlyExits(body[0], {}); OnlyExitsSeq(body[1..]); }
  }

  lemma {:induction false} OnlyExitsClauses(cs: seq<Clause>)
    ensures forall k <- ExitsClauses(cs) :: IsExit(k)
    decreases cs, 0
  {
    if cs != [] { OnlyExitsSeq(cs[0].body); OnlyExitsClauses(cs[1..]); }
  }

  // ---------------------------------------------------------------- the walk is exact

  predicate UncaughtExit(up: seq<Ancestor>, k: Completion)
    requires IsExit(k)
  {
    Uncaught(up, k.target, k.Broke?)
  }

  ghost predicate LeavesUncaught(exits: set<Completion>, up: seq<Ancestor>) {
    exists k <- exits :: IsExit(k) && UncaughtExit(up, k)
  }

  /** A loop consumes a labelled `continue` that names it. */
  lemma {:induction false} OwnLabel(s: Stmt, labels: set<string>, l: string)
    requires LabelsLoop(s) && l in labels
    ensures Continued(Some(l)) !in Exits(s, labels)
  {
    if s.Labeled? { OwnLabel(s.s, labels + {s.name}, l); }
  }

  /** On a statement that is not a loop, labels only matter to the loops they stand on. */
  lemma {:induction false} LabelsIgnored(s: Stmt, labels: set<string>)
    requires !LabelsLoop(s)
    ensures Exits(s, labels) == Exits(s, {})
  {
    if s.Labeled? {
      LabelsIgnored(s.s, labels + {s.name});
      LabelsIgnored(s.s, {s.name});
      assert {} + {s.name} == {s.name};
    }
  }

  ghost predicate LabelsAbove(labels: set<string>, up: seq<Ancestor>) {
    forall l <- labels :: LabelOf(l) in up
  }

  /** The walk reports a statement exactly when some jump can leave it and is caught by
      nothing between it and the tail statement. */
  lemma {:induction false} WalkExact(s: Stmt, labels: set<string>, up: seq<Ancestor>)
    requires WellFormed(s) && LabelsAbove(labels, up) && (up == [] ==> !IsJump(s))
    ensures EscapingJump(s, up) <==> LeavesUncaught(Exits(s, labels), up)
    decreases s, 1
  {
    var inner := [NodeOf(s)] + up;
    match s
    case Break(l) => assert EscapingJump(s, up) ==> UncaughtExit(up, Broke(l));
    case Continue(l) => assert EscapingJump(s, up) ==> UncaughtExit(up, Continued(l));
    case If(_, t, f) =>
      WalkExact(t, {}, inner);
      if f.Some? { WalkExact(f.value, {}, inner); }
      SameCatch(Exits(s, labels), up);
    case Block(body) =>
      WalkExactSeq(body, inner);
      SameCatch(Exits(s, labels), up);
    case Nested(body) => WalkExactSeq(body, inner);
    case Switch(_, cs) =>
      WalkExactClauses(cs, inner);
      OnlyExitsClauses(cs);
      SwitchCatch(ExitsClauses(cs), up);
    case While(_, body) =>
      WalkExact(body, {}, inner);
      OnlyExits(body, {});
      LoopCatch(Exits(body, {}), labels, up);
    case Labeled(l, s1) =>
      assert LabelsAbove(labels + {l}, inner);
      WalkExact(s1, labels + {l}, inner);
      if LabelsLoop(s1) { OwnLabel(s1, labels + {l}, l); } else { LabelsIgnored(s1, labels + {l}); }
      OnlyExits(s1, labels + {l});
      LabelCatch(Exits(s1, labels + {l}), l, up);
    case _ =>
  }

  lemma {:induction false} SameCatch(exits: set<Completion>, up: seq<Ancestor>)
    ensures LeavesUncaught(exits, [OtherNode] + up) <==> LeavesUncaught(exits, up)
  {
    forall k <- exits | IsExit(k)
      ensures UncaughtExit([OtherNode] + up, k) <==> UncaughtExit(up, k)
    {
      CatchCons(OtherNode, up, k);
    }
  }

  lemma {:induction false} CatchCons(a: Ancestor, up: seq<Ancestor>, k: Completion)
    requires IsExit(k)
    ensures UncaughtExit([a] + up, k) <==> !Catches(a, k.target, k.Broke?) && UncaughtExit(up, k)
  {
    assert forall b :: b in [a] + up <==> b == a || b in up;
  }

  lemma {:induction false} SwitchCatch(exits: set<Completion>, up: seq<Ancestor>)
    requires forall k <- exits :: IsExit(k)
    ensures LeavesUncaught(exits, [SwitchStatement] + up) <==> LeavesUncaught(exits - {Broke(None)}, up)
  {
    forall k <- exits
      ensures UncaughtExit([SwitchStatement] + up, k) <==> k != Broke(None) && UncaughtExit(up, k)
    {
      CatchCons(SwitchStatement, up, k);
    }
  }

  lemma {:induction false} LoopCatch(exits: set<Completion>, labels: set<string>, up: seq<Ancestor>)
    requires (forall k <- exits :: IsExit(k)) && LabelsAbove(labels, up)
    ensures LeavesUncaught(exits, [Loop] + up)
      <==> LeavesUncaught(LoopExits(exits, labels), up)
  {
    forall k <- exits
      ensures UncaughtExit([Loop] + up, k)
        <==> !NextRound(k, labels) && k != Broke(None) && UncaughtExit(up, k)
    {
      CatchCons(Loop, up, k);
      if k.Continued? && k.target.Some? && k.target.value in labels {
        assert LabelOf(k.target.value) in up;
      }
    }
  }

  lemma {:induction false} LabelCatch(exits: set<Completion>, l: string, up: seq<Ancestor>)
    requires (forall k <- exits :: IsExit(k)) && Continued(Some(l)) !in exits
    ensures LeavesUncaught(exits, [LabelOf(l)] + up) <==> LeavesUncaught(exits - {Broke(Some(l))}, up)
  {
    forall k <- exits
      ensures UncaughtExit([LabelOf(l)] + up, k) <==> k != Broke(Some(l)) && UncaughtExit(up, k)
    {
      CatchCons(LabelOf(l), up, k);
    }
  }

  lemma {:induction false} WalkExactSeq(body: seq<Stmt>, up: seq<Ancestor>)
    requires WellFormedSeq(body) && up != []
    ensures EscapingJumpSeq(body, up) <==> LeavesUncaught(ExitsSeq(body), up)
    decreases body, 0
  {
    if body != [] {
      WalkExact(body[0], {}, up);
      WalkExactSeq(body[1..], up);
    }
  }

  lemma {:induction false} WalkExactClauses(cs: seq<Clause>, up: seq<Ancestor>)
    requires WellFormedClauses(cs) && up != []
    ensures EscapingJumpClauses(cs, up) <==> LeavesUncaught(ExitsClauses(cs), up)
    decreases cs, 0
  {
    if cs != [] {
      WalkExactSeq(cs[0].body, up);
      WalkExactClauses(cs[1..], up);
    }
  }

  // ---------------------------------------------------------------- runs

  /** Every completion of a run is one the text announces. */
  predicate Announced(k: Completion, exits: set<Completion>, mayReturn: bool) {
    (k == Returned ==> mayReturn) && (IsExit(k) ==> k in exits)
  }

  lemma {:induction false} RunAnnounced(env: Env, s: Stmt, labels: set<string>, st: State, fuel: nat)
    requires env.helper.None?
    ensures Announced(Run(env, s, labels, st, fuel).0, Exits(s, labels), ReturnsFromHelper(s))
    decreases fuel, s, 2
  {
    match s
    case If(c, t, f) =>
      var (v, s1) := Test(env.m, c, st);
      RunAnnounced(env, t, {}, s1, fuel);
      if f.Some? { RunAnnounced(env, f.value, {}, s1, fuel); }
    case Block(body) => RunScopeAnnounced(env, body, st, fuel);
    case While(c, body) =>
      if fuel > 0 {
        var (v, s1) := Test(env.m, c, st);
        RunAnnounced(env, body, {}, s1, fuel);
        RunAnnounced(env, s, labels, Run(env, body, {}, s1, fuel).1, fuel - 1);
      }
    case Switch(on, cs) =>
      var (o, s1) := Eval(env.m, on, st);
      var chosen := Select(o.v, cs);
      if o.Ok? && chosen.Some? {
        RunClausesAnnounced(env, cs, chosen.value, s1.(frame := Push(s1.frame, DeclaredClauses(cs))), fuel);
      }
    case Labeled(l, s1) => RunAnnounced(env, s1, labels + {l}, st, fuel);
    case Nested(body) => RunScopeAnnounced(env, body, st, fuel);
    case _ =>
  }

  lemma {:induction false} RunScopeAnnounced(env: Env, body: seq<Stmt>, st: State, fuel: nat)
    requires env.helper.None?
    ensures Announced(RunScope(env, body, st, fuel).0, ExitsSeq(body), ReturnsFromHelperSeq(body))
    decreases fuel, body, 2
  {
    RunSeqAnnounced(env, body, st.(frame := Push(st.frame, Declared(body))), fuel);
  }

  lemma {:induction false} RunSeqAnnounced(env: Env, body: seq<Stmt>, st: State, fuel: nat)
    requires env.helper.None?
    ensures Announced(RunSeq(env, body, st, fuel).0, ExitsSeq(body), ReturnsFromHelperSeq(body))
    decreases fuel, body, 1
  {
    if body != [] {
      RunAnnounced(env, body[0], {}, st, fuel);
      RunSeqAnnounced(env, body[1..], Run(env, body[0], {}, st, fuel).1, fuel);
    }
  }

  lemma {:induction false} ClauseAnnounced(cs: seq<Clause>, k: nat)
    requires k < |cs|
    ensures ExitsSeq(cs[k].body) <= ExitsClauses(cs)
    ensures ReturnsFromHelperSeq(cs[k].body) ==> ReturnsFromHelperClauses(cs)
  {
    if k > 0 {
      assert cs[k] == cs[1..][k - 1];
      ClauseAnnounced(cs[1..], k - 1);
    }
  }

  lemma {:induction false} RunClausesAnnounced(env: Env, cs: seq<Clause>, k: nat, st: State, fuel: nat)
    requires env.helper.None? && k <= |cs|
    ensures Announced(RunClauses(env, cs, k, st, fuel).0, ExitsClauses(cs), ReturnsFromHelperClauses(cs))
    decreases fuel, cs, 1, |cs| - k
  {
    if k < |cs| {
      ClauseAnnounced(cs, k);
      RunSeqAnnounced(env, cs[k].body, st, fuel);
      RunClausesAnnounced(env, cs, k + 1, RunSeq(env, cs[k].body, st, fuel).1, fuel);
    }
  }

  predicate Contained(k: Completion) {
    k == Normal || k.Raised? || k == OutOfFuel
  }

  /** Escape analysis, exactly: among well-formed statements that are not bare jumps, the
      accepted ones are those no return or jump can leave. */
  lemma {:induction false} AcceptedExact(t: Stmt)
    requires WellFormed(t) && !IsJump(t)
    ensures TailAccepted(t) <==> !ReturnsFromHelper(t) && Exits(t, {}) == {}
  {
    WalkExact(t, {}, []);
    OnlyExits(t, {});
    if k :| k in Exits(t, {}) {
      assert UncaughtExit([], k);
    }
  }

  /** An accepted tail statement never completes with a return, a break or a continue. */
  lemma {:induction false} AcceptedNeverEscapes(env: Env, t: Stmt, st: State, fuel: nat)
    requires env.helper.None? && WellFormed(t) && !IsJump(t) && TailAccepted(t)
    ensures Contained(Run(env, t, {}, st, fuel).0)
  {
    AcceptedExact(t);
    RunAnnounced(env, t, {}, st, fuel);
  }

  lemma {:induction false} TailNeverEscapes(env: Env, tail: seq<Stmt>, st: State, fuel: nat)
    requires env.helper.None?
    requires forall t <- tail :: WellFormed(t) && !IsJump(t) && TailAccepted(t)
    ensures Contained(RunSeq(env, tail, st, fuel).0)
  {
    if tail != [] {
      AcceptedNeverEscapes(env, tail[0], st, fuel);
      TailNeverEscapes(env, tail[1..], Run(env, tail[0], {}, st, fuel).1, fuel);
    }
  }

  /** The walk inspects descendants only, so a tail that is itself a jump slips through; at
      the top level of a function body such a statement is a syntax error. */
  lemma {:induction false} BareJumpSlipsThrough(env: Env, st: State, fuel: nat)
    ensures TailAccepted(Break(None)) && Run(env, Break(None), {}, st, fuel).0 == Broke(None)
  {
  }
}
