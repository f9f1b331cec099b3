/** The tail checks, read off the text by position: a path of child positions leads to a statement,
    and what counts is which statements it passes through on the way. */
module EscapePaths {
  import opened Optional
  import opened JsExpression
  import opened HelperLanguage
  import opened EscapeAnalysis

  // ---------------------------------------------------------------- positions

  /** The statements standing directly in a statement, in text order. */
  function Parts(s: Stmt): seq<Stmt> {
    match s
    case If(_, t, Some(f)) => [t, f]
    case If(_, t, None) => [t]
    case Block(body) => body
    case While(_, body) => [body]
    case Switch(_, cs) => Bodies(cs)
    case Labeled(_, s1) => [s1]
    case Nested(body) => body
    case _ => []
  }

  function At(s: Stmt, path: seq<nat>): Option<Stmt>
    decreases |path|
  {
    if path == [] then Some(s)
    else if path[0] < |Parts(s)| then At(Parts(s)[path[0]], path[1..])
    else None
  }

  /** The statements passed on the way, the start included and the end not. */
  function Passed(s: Stmt, path: seq<nat>): seq<Stmt>
    decreases |path|
  {
    if path != [] && path[0] < |Parts(s)| then [s] + Passed(Parts(s)[path[0]], path[1..]) else []
  }

  /** Each way into a statement starts with one of its parts. */
  lemma {:induction false} StepIn(s: Stmt, path: seq<nat>, i: nat)
    requires i < |Parts(s)|
    ensures At(s, [i] + path) == At(Parts(s)[i], path)
    ensures Passed(s, [i] + path) == [s] + Passed(Parts(s)[i], path)
  {
    assert ([i] + path)[1..] == path;
  }

  // ---------------------------------------------------------------- returns

  /** A `return` of the helper itself: no function literal lies on the way to it. */
  ghost predicate ReturnAt(s: Stmt, path: seq<nat>) {
    At(s, path).Some? && At(s, path).value.Return? && forall p <- Passed(s, path) :: !p.Nested?
  }

  ghost predicate ReturnIn(parts: seq<Stmt>) {
    exists i: nat, path :: i < |parts| && ReturnAt(parts[i], path)
  }

  lemma {:induction false} ReturnStep(s: Stmt)
    requires !s.Return?
    ensures (exists path :: ReturnAt(s, path)) <==> !s.Nested? && ReturnIn(Parts(s))
  {
    if path :| ReturnAt(s, path) {
      assert path != [] && path == [path[0]] + path[1..];
      StepIn(s, path[1..], path[0]);
      assert s in Passed(s, path);
      assert forall p <- Passed(Parts(s)[path[0]], path[1..]) :: p in Passed(s, path);
      assert ReturnAt(Parts(s)[path[0]], path[1..]);
    }
    if !s.Nested? && ReturnIn(Parts(s)) {
      var i: nat, path :| i < |Parts(s)| && ReturnAt(Parts(s)[i], path);
      StepIn(s, path, i);
      assert ReturnAt(s, [i] + path);
    }
  }

  lemma {:induction false} ReturnParts(a: seq<Stmt>, b: seq<Stmt>)
    ensures ReturnIn(a + b) <==> ReturnIn(a) || ReturnIn(b)
  {
    if ReturnIn(a) {
      var i: nat, path :| i < |a| && ReturnAt(a[i], path);
      assert (a + b)[i] == a[i];
    }
    if ReturnIn(b) {
      var i: nat, path :| i < |b| && ReturnAt(b[i], path);
      assert (a + b)[|a| + i] == b[i];
    }
  }

  /** The check finds a `return` exactly when a path leads to one past no function literal. */
  lemma {:induction false} ReturnsByPath(s: Stmt)
    ensures ReturnsFromHelper(s) <==> exists path :: ReturnAt(s, path)
    decreases s, 1
  {
    if s.Return? {
      assert ReturnAt(s, []);
    } else {
      ReturnStep(s);
      match s
      case If(_, t, f) =>
        ReturnsByPath(t);
        ReturnOne(t);
        if f.Some? {
          ReturnsByPath(f.value);
          ReturnOne(f.value);
          ReturnParts([t], [f.value]);
          assert [t] + [f.value] == [t, f.value];
        }
      case Block(body) => ReturnsBySeq(body);
      case While(_, body) => ReturnsByPath(body); ReturnOne(body);
      case Switch(_, cs) => ReturnsByClauses(cs);
      case Labeled(_, s1) => ReturnsByPath(s1); ReturnOne(s1);
      case _ =>
    }
  }

  lemma {:induction false} ReturnOne(s: Stmt)
    ensures ReturnIn([s]) <==> exists path :: ReturnAt(s, path)
  {
    if path :| ReturnAt(s, path) { assert ReturnAt([s][0], path); }
  }

  lemma {:induction false} ReturnsBySeq(body: seq<Stmt>)
    ensures ReturnsFromHelperSeq(body) <==> ReturnIn(body)
    decreases body, 0
  {
    if body != [] {
      ReturnsByPath(body[0]);
      ReturnsBySeq(body[1..]);
      ReturnOne(body[0]);
      ReturnParts([body[0]], body[1..]);
      assert [body[0]] + body[1..] == body;
    }
  }

  lemma {:induction false} ReturnsByClauses(cs: seq<Clause>)
    ensures ReturnsFromHelperClauses(cs) <==> ReturnIn(Bodies(cs))
    decreases cs, 0
  {
    if cs != [] {
      ReturnsBySeq(cs[0].body);
      ReturnsByClauses(cs[1..]);
      ReturnParts(cs[0].body, Bodies(cs[1..]));
    }
  }

  // ---------------------------------------------------------------- jumps

  /** What a `break` or `continue` can be aimed at. */
  predicate Stops(p: Stmt, jump: Stmt) {
    match jump
    case Break(Some(l)) => p.Labeled? && p.name == l
    case Continue(Some(l)) => p.Labeled? && p.name == l
    case Break(None) => p.While? || p.Switch?
    case Continue(None) => p.While?
    case _ => false
  }

  /** A jump that nothing on the way to it stops, nor anything above. */
  ghost predicate JumpAt(s: Stmt, path: seq<nat>, up: seq<Ancestor>) {
    && At(s, path).Some? && IsJump(At(s, path).value)
    && Uncaught(up, At(s, path).value.target, At(s, path).value.Break?)
    && forall p <- Passed(s, path) :: !Stops(p, At(s, path).value)
  }

  ghost predicate JumpIn(parts: seq<Stmt>, up: seq<Ancestor>) {
    exists i: nat, path :: i < |parts| && JumpAt(parts[i], path, up)
  }

  lemma {:induction false} StopsIs(p: Stmt, jump: Stmt, up: seq<Ancestor>)
    requires IsJump(jump)
    ensures Uncaught([NodeOf(p)] + up, jump.target, jump.Break?)
      <==> !Stops(p, jump) && Uncaught(up, jump.target, jump.Break?)
  {
    CatchCons(NodeOf(p), up, if jump.Break? then Broke(jump.target) else Continued(jump.target));
  }

  lemma {:induction false} JumpStep(s: Stmt, up: seq<Ancestor>)
    requires !IsJump(s)
    ensures (exists path :: JumpAt(s, path, up)) <==> JumpIn(Parts(s), [NodeOf(s)] + up)
  {
    if path :| JumpAt(s, path, up) {
      assert path != [] && path == [path[0]] + path[1..];
      StepIn(s, path[1..], path[0]);
      StopsIs(s, At(s, path).value, up);
      assert s in Passed(s, path);
      assert forall p <- Passed(Parts(s)[path[0]], path[1..]) :: p in Passed(s, path);
      assert JumpAt(Parts(s)[path[0]], path[1..], [NodeOf(s)] + up);
    }
    if JumpIn(Parts(s), [NodeOf(s)] + up) {
      var i: nat, path :| i < |Parts(s)| && JumpAt(Parts(s)[i], path, [NodeOf(s)] + up);
      StepIn(s, path, i);
      StopsIs(s, At(s, [i] + path).value, up);
      assert JumpAt(s, [i] + path, up);
    }
  }

  lemma {:induction false} JumpParts(a: seq<Stmt>, b: seq<Stmt>, up: seq<Ancestor>)
    ensures JumpIn(a + b, up) <==> JumpIn(a, up) || JumpIn(b, up)
  {
    if JumpIn(a, up) {
      var i: nat, path :| i < |a| && JumpAt(a[i], path, up);
      assert (a + b)[i] == a[i];
    }
    if JumpIn(b, up) {
      var i: nat, path :| i < |b| && JumpAt(b[i], path, up);
      assert (a + b)[|a| + i] == b[i];
    }
  }

  lemma {:induction false} JumpOne(s: Stmt, up: seq<Ancestor>)
    ensures JumpIn([s], up) <==> exists path :: JumpAt(s, path, up)
  {
    if path :| JumpAt(s, path, up) { assert JumpAt([s][0], path, up); }
  }

  lemma {:induction false} JumpHere(s: Stmt, up: seq<Ancestor>)
    requires IsJump(s)
    ensures (exists path :: JumpAt(s, path, up)) <==> Uncaught(up, s.target, s.Break?)
  {
    if Uncaught(up, s.target, s.Break?) { assert JumpAt(s, [], up); }
    if path :| JumpAt(s, path, up) { assert path == []; }
  }

  lemma {:induction false} JumpsBelow(s: Stmt, up: seq<Ancestor>)
    requires up != [] || !IsJump(s)
    ensures EscapingJump(s, up) <==> exists path :: JumpAt(s, path, up)
    decreases s, 1
  {
    if IsJump(s) {
      JumpHere(s, up);
    } else {
      var inner := [NodeOf(s)] + up;
      JumpStep(s, up);
      match s
      case If(_, t, f) =>
        JumpsBelow(t, inner);
        JumpOne(t, inner);
        if f.Some? {
          JumpsBelow(f.value, inner);
          JumpOne(f.value, inner);
          JumpParts([t], [f.value], inner);
          assert [t] + [f.value] == [t, f.value];
        }
      case Block(body) => JumpsBySeq(body, inner);
      case While(_, body) => JumpsBelow(body, inner); JumpOne(body, inner);
      case Switch(_, cs) => JumpsByClauses(cs, inner);
      case Labeled(_, s1) => JumpsBelow(s1, inner); JumpOne(s1, inner);
      case Nested(body) => JumpsBySeq(body, inner);
      case _ =>
    }
  }

  lemma {:induction false} JumpsBySeq(body: seq<Stmt>, up: seq<Ancestor>)
    requires up != []
    ensures EscapingJumpSeq(body, up) <==> JumpIn(body, up)
    decreases body, 0
  {
    if body != [] {
      JumpsBelow(body[0], up);
      JumpsBySeq(body[1..], up);
      JumpOne(body[0], up);
      JumpParts([body[0]], body[1..], up);
      assert [body[0]] + body[1..] == body;
    }
  }

  lemma {:induction false} JumpsByClauses(cs: seq<Clause>, up: seq<Ancestor>)
    requires up != []
    ensures EscapingJumpClauses(cs, up) <==> JumpIn(Bodies(cs), up)
    decreases cs, 0
  {
    if cs != [] {
      JumpsBySeq(cs[0].body, up);
      JumpsByClauses(cs[1..], up);
      JumpParts(cs[0].body, Bodies(cs[1..]), up);
    }
  }

  /** A jump below the statement that nothing on the way to it stops. */
  ghost predicate FreeJump(s: Stmt, path: seq<nat>) {
    && path != [] && At(s, path).Some? && IsJump(At(s, path).value)
    && forall p <- Passed(s, path) :: !Stops(p, At(s, path).value)
  }

  /** The tail checks accept a statement exactly when no path leads to a `return` past no function
      literal, or to a jump below the statement past nothing it can be aimed at. */
  lemma {:induction false} AcceptedByPath(t: Stmt)
    ensures TailAccepted(t) <==>
      !(exists path :: ReturnAt(t, path)) && !(exists path :: FreeJump(t, path))
  {
    ReturnsByPath(t);
    if IsJump(t) {
      assert Parts(t) == [];
    } else {
      JumpsBelow(t, []);
      if path :| JumpAt(t, path, []) { assert FreeJump(t, path); }
      if path :| FreeJump(t, path) { assert JumpAt(t, path, []); }
    }
  }

  // ---------------------------------------------------------------- function literals

  /** Every function literal with its body taken out. */
  function Emptied(s: Stmt): Stmt
    decreases s, 1
  {
    match s
    case If(c, t, f) => If(c, Emptied(t), if f.Some? then Some(Emptied(f.value)) else None)
    case Block(body) => Block(EmptiedSeq(body))
    case While(c, body) => While(c, Emptied(body))
    case Switch(on, cs) => Switch(on, EmptiedClauses(cs))
    case Labeled(l, s1) => Labeled(l, Emptied(s1))
    case Nested(_) => Nested([])
    case _ => s
  }

  function EmptiedSeq(body: seq<Stmt>): seq<Stmt>
    decreases body, 0
  {
    if body == [] then [] else [Emptied(body[0])] + EmptiedSeq(body[1..])
  }

  function EmptiedClauses(cs: seq<Clause>): seq<Clause>
    decreases cs, 0
  {
    if cs == [] then [] else [Clause(cs[0].test, EmptiedSeq(cs[0].body))] + EmptiedClauses(cs[1..])
  }

  /** What stands in a function literal has no part in the return check ... */
  lemma {:induction false} ReturnsOutside(s: Stmt)
    ensures ReturnsFromHelper(Emptied(s)) == ReturnsFromHelper(s)
    decreases s, 1
  {
    match s
    case If(_, t, f) => ReturnsOutside(t); if f.Some? { ReturnsOutside(f.value); }
    case Block(body) => ReturnsOutsideSeq(body);
    case While(_, body) => ReturnsOutside(body);
    case Switch(_, cs) => ReturnsOutsideClauses(cs);
    case Labeled(_, s1) => ReturnsOutside(s1);
    case _ =>
  }

  lemma {:induction false} ReturnsOutsideSeq(body: seq<Stmt>)
    ensures ReturnsFromHelperSeq(EmptiedSeq(body)) == ReturnsFromHelperSeq(body)
    decreases body, 0
  {
    if body != [] { ReturnsOutside(body[0]); ReturnsOutsideSeq(body[1..]); }
  }

  lemma {:induction false} ReturnsOutsideClauses(cs: seq<Clause>)
    ensures ReturnsFromHelperClauses(EmptiedClauses(cs)) == ReturnsFromHelperClauses(cs)
    decreases cs, 0
  {
    if cs != [] { ReturnsOutsideSeq(cs[0].body); ReturnsOutsideClauses(cs[1..]); }
  }

  /** ... and a well-formed function literal is always accepted. */
  lemma {:induction false} LiteralAccepted(body: seq<Stmt>)
    requires WellFormed(Nested(body))
    ensures TailAccepted(Nested(body))
  {
    AcceptedExact(Nested(body));
    ReturnsByPath(Nested(body));
  }
}
