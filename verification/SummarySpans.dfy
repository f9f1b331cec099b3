/** Which spans the walk collects, said over the nodes of the tree: every node that is visited
    without passing through a comment gives the spans its own shape calls for, and nothing else
    gives any. */
module SummarySpans {
  import opened Optional
  import opened LineSpans
  import opened SummaryTree
  import opened SummaryLaminar
  import opened SummaryForest

  // ---------------------------------------------------------------- what a node gives

  /** A descendant, or the node itself, with no comment above it. */
  ghost predicate Visited(n: Node, m: Node) {
    m == n || (!n.comment && exists c <- n.children :: Visited(c, m))
  }

  /** All lines of a comment but its first two and its last. */
  predicate CommentGives(m: Node, s: LineSpan, lim: Limits) {
    && m.comment && m.endRow - m.startRow + 1 >= lim.minComment
    && s == LineSpan(m.startRow + 3, m.endRow) && m.startRow + 3 <= m.endRow
  }

  /** All lines of an elidable node but its first and last. */
  predicate BodyGives(m: Node, s: LineSpan, lim: Limits) {
    && !m.comment && m.elidable && m.endRow - m.startRow + 1 >= lim.minBody
    && s == LineSpan(m.startRow + 2, m.endRow) && m.startRow + 2 <= m.endRow
  }

  /** `cs[a..b]` are groupable, and neither neighbour is. */
  predicate MaximalRun(cs: seq<Node>, a: nat, b: nat) {
    && a < b <= |cs| && (forall i | a <= i < b :: cs[i].groupable)
    && (a > 0 ==> !cs[a - 1].groupable) && (b < |cs| ==> !cs[b].groupable)
  }

  /** The lines after the content of a run's first member and before its last member. */
  predicate RunGives(m: Node, a: nat, b: nat, s: LineSpan, lim: Limits) {
    && !m.comment && MaximalRun(m.children, a, b) && b - a >= 2
    && m.children[b - 1].endRow - m.children[a].startRow + 1 >= lim.minBody
    && s == LineSpan(ContentEndLine(m.children[a]) + 1, m.children[b - 1].startRow) && s.start <= s.end
  }

  ghost predicate Gives(m: Node, s: LineSpan, lim: Limits) {
    CommentGives(m, s, lim) || BodyGives(m, s, lim) || exists a: nat, b: nat :: RunGives(m, a, b, s, lim)
  }

  // ---------------------------------------------------------------- the content of a node

  /** The last content line is the last row that holds a character of the node. */
  lemma {:induction false} ContentRows(n: Node, row: nat)
    requires PosBefore(n.startRow, n.startCol + 1, n.endRow, n.endCol)
    ensures StartLine(n) <= row + 1 <= ContentEndLine(n) <==>
      exists col: nat :: PosBefore(n.startRow, n.startCol, row, col) && PosBefore(row, col + 1, n.endRow, n.endCol)
  {
    if StartLine(n) <= row + 1 <= ContentEndLine(n) {
      var col := if row == n.startRow then n.startCol else 0;
      assert PosBefore(n.startRow, n.startCol, row, col) && PosBefore(row, col + 1, n.endRow, n.endCol);
    }
  }

  // ---------------------------------------------------------------- runs

  lemma {:induction false} RunsAreMaximal(cs: seq<Node>, a: nat, i: nat, r: (nat, nat))
    requires a <= i <= |cs| && (forall j | a <= j < i :: cs[j].groupable) && (a > 0 ==> !cs[a - 1].groupable)
    ensures r in Runs(cs, a, i) && r.0 < r.1 <==> a <= r.0 && MaximalRun(cs, r.0, r.1)
    decreases |cs| - i
  {
    if i == |cs| {
      assert r.0 > a && r.0 <= i ==> a <= r.0 - 1 < i;
    } else if cs[i].groupable {
      RunsAreMaximal(cs, a, i + 1, r);
    } else {
      RunsAreMaximal(cs, i + 1, i + 1, r);
      if a <= r.0 <= i && MaximalRun(cs, r.0, r.1) {
        assert forall j | r.0 <= j < r.1 :: cs[j].groupable;
        assert r.0 == a || a <= r.0 - 1 < i;
        assert r.1 <= i;
        assert r.1 == i || a <= r.1 < i;
      }
    }
  }

  lemma {:induction false} RunSpanIs(n: Node, a: nat, b: nat, s: LineSpan, lim: Limits)
    requires ValidTree(n) && !n.comment && MaximalRun(n.children, a, b)
    ensures RunSpan(n.children, a, b, lim) == Some(s) <==> RunGives(n, a, b, s, lim)
  {
    if b - a >= 2 {
      SiblingsOrdered(n, a, b - 1);
      ChildLines(n, a);
      ChildLines(n, b - 1);
    }
  }

  // ---------------------------------------------------------------- spans at any depth

  /** The span stands somewhere in the forest. */
  ghost predicate Holds(f: seq<SpanTree>, s: LineSpan) {
    exists t <- f :: t.span == s || Holds(t.kids, s)
  }

  lemma {:induction false} HoldsConcat(a: seq<SpanTree>, b: seq<SpanTree>, s: LineSpan)
    ensures Holds(a + b, s) <==> Holds(a, s) || Holds(b, s)
  {
    assert forall t :: t in a + b <==> t in a || t in b;
  }

  lemma {:induction false} HoldsOne(t: SpanTree, s: LineSpan)
    ensures Holds([t], s) <==> t.span == s || Holds(t.kids, s)
  {
    assert t in [t];
  }

  lemma {:induction false} HoldsNone(s: LineSpan)
    ensures !Holds([], s)
  {
  }

  /** A node's own runs. */
  ghost predicate RunsGive(n: Node, s: LineSpan, lim: Limits) {
    exists a: nat, b: nat :: RunGives(n, a, b, s, lim)
  }

  lemma {:induction false} RunForestHolds(n: Node, s: LineSpan, lim: Limits)
    requires ValidTree(n) && !n.comment
    ensures Holds(RunForest(n.children, Runs(n.children, 0, 0), lim), s) <==> RunsGive(n, s, lim)
  {
    hide *;
    hide RunsGive;
    if Holds(RunForest(n.children, Runs(n.children, 0, 0), lim), s) { HeldIsGiven(n, s, lim); }
    if RunsGive(n, s, lim) { GivenIsHeld(n, s, lim); }
  }

  lemma {:induction false} HeldIsGiven(n: Node, s: LineSpan, lim: Limits)
    requires ValidTree(n) && !n.comment && Holds(RunForest(n.children, Runs(n.children, 0, 0), lim), s)
    ensures RunsGive(n, s, lim)
  {
    hide Runs, RunForest, Holds, RunSpan, RunGives, ValidTree;
    var r := LeafHolds(n.children, Runs(n.children, 0, 0), s, lim);
    RunsAreMaximal(n.children, 0, 0, r);
    RunSpanIs(n, r.0, r.1, s, lim);
  }

  lemma {:induction false} GivenIsHeld(n: Node, s: LineSpan, lim: Limits)
    requires ValidTree(n) && !n.comment && RunsGive(n, s, lim)
    ensures Holds(RunForest(n.children, Runs(n.children, 0, 0), lim), s)
  {
    var runs := Runs(n.children, 0, 0);
    var a: nat, b: nat :| RunGives(n, a, b, s, lim);
    GivesRun(n, a, b, s, lim);
    hide Runs, RunForest, Holds, RunSpan, RunGives, ValidTree;
    RunsAreMaximal(n.children, 0, 0, (a, b));
    RunSpanIs(n, a, b, s, lim);
    var i :| 0 <= i < |runs| && runs[i] == (a, b);
    RunForestHas(n.children, runs, lim, i);
    InHolds(RunForest(n.children, runs, lim), SpanTree(s, []));
  }

  lemma {:induction false} LeafHolds(cs: seq<Node>, runs: seq<(nat, nat)>, s: LineSpan, lim: Limits)
    returns (r: (nat, nat))
    requires (forall r <- runs :: r.0 <= r.1 <= |cs|) && Holds(RunForest(cs, runs, lim), s)
    ensures r in runs && r.0 < r.1 && RunSpan(cs, r.0, r.1, lim) == Some(s)
  {
    var t :| t in RunForest(cs, runs, lim) && (t.span == s || Holds(t.kids, s));
    InRunForest(cs, runs, lim, t);
    HoldsNone(s);
    r :| r in runs && RunSpan(cs, r.0, r.1, lim) == Some(t.span);
  }

  lemma {:induction false} InHolds(f: seq<SpanTree>, t: SpanTree)
    requires t in f
    ensures Holds(f, t.span)
  {
  }

  lemma {:induction false} GivesRun(n: Node, a: nat, b: nat, s: LineSpan, lim: Limits)
    requires RunGives(n, a, b, s, lim)
    ensures MaximalRun(n.children, a, b)
  {
  }

  /** What a node and everything reached from it gives. */
  ghost predicate Collects(n: Node, s: LineSpan, lim: Limits) {
    exists m :: Visited(n, m) && Gives(m, s, lim)
  }

  ghost predicate ChildCollects(n: Node, s: LineSpan, lim: Limits) {
    exists c <- n.children :: Collects(c, s, lim)
  }

  lemma {:induction false} CollectsStep(n: Node, s: LineSpan, lim: Limits)
    ensures Collects(n, s, lim) <==> Gives(n, s, lim) || (!n.comment && ChildCollects(n, s, lim))
  {
    if Collects(n, s, lim) {
      var m :| Visited(n, m) && Gives(m, s, lim);
      if m != n {
        var c :| c in n.children && Visited(c, m);
        assert Collects(c, s, lim);
      }
    }
    if !n.comment && ChildCollects(n, s, lim) {
      var c :| c in n.children && Collects(c, s, lim);
      var m :| Visited(c, m) && Gives(m, s, lim);
      assert Visited(n, m);
    }
    if Gives(n, s, lim) { assert Visited(n, n); }
  }

  /** A span stands in the forest, at any depth, exactly when some node reached gives it. */
  lemma {:induction false} CollectedExactly(n: Node, s: LineSpan, lim: Limits)
    requires ValidTree(n)
    ensures Holds(Forest(n, lim), s) <==> Collects(n, s, lim)
    decreases n, 1
  {
    hide Holds, Collects, ChildCollects;
    CollectsStep(n, s, lim);
    HoldsNone(s);
    if n.comment {
      var c := CommentSpan(n, lim);
      if c.Some? { HoldsOne(SpanTree(c.value, []), s); }
    } else {
      InteriorHolds(n, s, lim);
      var b := BodySpan(n, lim);
      if b.Some? { HoldsOne(SpanTree(b.value, Interior(n, lim)), s); }
    }
  }

  lemma {:induction false} InteriorHolds(n: Node, s: LineSpan, lim: Limits)
    requires ValidTree(n) && !n.comment
    ensures Holds(Interior(n, lim), s) <==> RunsGive(n, s, lim) || ChildCollects(n, s, lim)
    decreases n, 0
  {
    hide Holds, Collects, RunForest, Forests, Runs, RunsGive;
    var cs := n.children;
    RunForestHolds(n, s, lim);
    HoldsConcat(RunForest(cs, Runs(cs, 0, 0), lim), Forests(cs, lim), s);
    ForestsHold(n, |cs|, s, lim);
    assert cs[..|cs|] == cs;
  }

  lemma {:induction false} ForestsHold(n: Node, k: nat, s: LineSpan, lim: Limits)
    requires ValidTree(n) && k <= |n.children|
    ensures Holds(Forests(n.children[..k], lim), s) <==> exists c <- n.children[..k] :: Collects(c, s, lim)
    decreases n, 0, k
  {
    hide Holds, Collects;
    if k == 0 {
      HoldsNone(s);
    } else {
      var cs := n.children;
      assert cs[..k][..k - 1] == cs[..k - 1] && cs[..k] == cs[..k - 1] + [cs[k - 1]];
      ForestsHold(n, k - 1, s, lim);
      CollectedExactly(cs[k - 1], s, lim);
      HoldsConcat(Forests(cs[..k - 1], lim), Forest(cs[k - 1], lim), s);
    }
  }

  // ---------------------------------------------------------------- order

  /** The span of the run of `runs` that begins at `a`. */
  ghost predicate FromRun(cs: seq<Node>, runs: seq<(nat, nat)>, a: nat, span: LineSpan, lim: Limits) {
    exists b: nat :: (a, b) in runs && a <= b <= |cs| && RunSpan(cs, a, b, lim) == Some(span)
  }

  ghost predicate FromMaximalRun(cs: seq<Node>, a: nat, span: LineSpan, lim: Limits) {
    exists b :: MaximalRun(cs, a, b) && RunSpan(cs, a, b, lim) == Some(span)
  }

  /** The spans inside a node: those of its runs first, from left to right, then those of its
      children in child order. */
  lemma {:induction false} InteriorOrder(n: Node, lim: Limits) returns (k: nat, origin: seq<nat>)
    ensures k <= |Interior(n, lim)| == |origin|
    ensures forall i | 0 <= i < k :: FromMaximalRun(n.children, origin[i], Interior(n, lim)[i].span, lim)
    ensures forall i | k <= i < |origin| ::
      origin[i] < |n.children| && Interior(n, lim)[i] in Forest(n.children[origin[i]], lim)
    ensures forall i, j | 0 <= i < j < k :: origin[i] < origin[j]
    ensures forall i, j | k <= i < j < |origin| :: origin[i] <= origin[j]
  {
    var cs, runs := n.children, Runs(n.children, 0, 0);
    RunsInOrder(cs, 0, 0);
    hide Runs, RunForest, Forests, Forest;
    var first := RunOrder(cs, runs, lim);
    var rest := ChildOrder(cs, lim);
    k, origin := |first|, first + rest;
    forall i | 0 <= i < k ensures FromMaximalRun(cs, origin[i], Interior(n, lim)[i].span, lim) {
      MaximalOrigin(cs, first[i], RunForest(cs, runs, lim)[i].span, lim);
    }
  }

  lemma {:induction false} MaximalOrigin(cs: seq<Node>, a: nat, span: LineSpan, lim: Limits)
    requires FromRun(cs, Runs(cs, 0, 0), a, span, lim)
    ensures FromMaximalRun(cs, a, span, lim)
  {
    var b: nat :| (a, b) in Runs(cs, 0, 0) && a <= b <= |cs| && RunSpan(cs, a, b, lim) == Some(span);
    RunsAreMaximal(cs, 0, 0, (a, b));
  }

  ghost predicate Ascending(runs: seq<(nat, nat)>) {
    forall j, k | 0 <= j < k < |runs| :: runs[j].0 < runs[k].0
  }

  lemma {:induction false} RunOrder(cs: seq<Node>, runs: seq<(nat, nat)>, lim: Limits) returns (origin: seq<nat>)
    requires (forall r <- runs :: r.0 <= r.1 <= |cs|) && Ascending(runs)
    ensures |origin| == |RunForest(cs, runs, lim)|
    ensures forall i | 0 <= i < |origin| :: FromRun(cs, runs, origin[i], RunForest(cs, runs, lim)[i].span, lim)
    ensures forall i, j | 0 <= i < j < |origin| :: origin[i] < origin[j]
  {
    if runs == [] {
      origin := [];
    } else {
      assert Ascending(runs[1..]);
      var later := RunOrder(cs, runs[1..], lim);
      var f := RunForest(cs, runs[1..], lim);
      assert RunForest(cs, runs, lim) == LeafOf(RunSpan(cs, runs[0].0, runs[0].1, lim)) + f;
      hide RunForest, Ascending, FromRun;
      forall i | 0 <= i < |later| ensures FromRun(cs, runs, later[i], f[i].span, lim) && runs[0].0 < later[i] {
        FromLater(cs, runs, later[i], f[i].span, lim);
      }
      origin := RunOrderStep(cs, runs, f, later, lim);
    }
  }

  lemma {:induction false} RunOrderStep(cs: seq<Node>, runs: seq<(nat, nat)>, f: seq<SpanTree>, later: seq<nat>,
                                        lim: Limits)
    returns (origin: seq<nat>)
    requires (forall r <- runs :: r.0 <= r.1 <= |cs|) && runs != [] && |f| == |later|
    requires forall i | 0 <= i < |later| :: FromRun(cs, runs, later[i], f[i].span, lim) && runs[0].0 < later[i]
    requires forall i, j | 0 <= i < j < |later| :: later[i] < later[j]
    ensures var g := LeafOf(RunSpan(cs, runs[0].0, runs[0].1, lim)) + f;
      && |origin| == |g|
      && (forall i | 0 <= i < |origin| :: FromRun(cs, runs, origin[i], g[i].span, lim))
      && forall i, j | 0 <= i < j < |origin| :: origin[i] < origin[j]
  {
    var s := RunSpan(cs, runs[0].0, runs[0].1, lim);
    if s.Some? {
      FirstRun(cs, runs, s.value, lim);
      origin := [runs[0].0] + later;
    } else {
      origin := later;
    }
    hide RunSpan, FromRun;
  }

  lemma {:induction false} FirstRun(cs: seq<Node>, runs: seq<(nat, nat)>, span: LineSpan, lim: Limits)
    requires (forall r <- runs :: r.0 <= r.1 <= |cs|) && runs != []
    requires RunSpan(cs, runs[0].0, runs[0].1, lim) == Some(span)
    ensures FromRun(cs, runs, runs[0].0, span, lim)
  {
    assert (runs[0].0, runs[0].1) in runs;
  }

  lemma {:induction false} FromLater(cs: seq<Node>, runs: seq<(nat, nat)>, a: nat, span: LineSpan, lim: Limits)
    requires runs != [] && Ascending(runs) && FromRun(cs, runs[1..], a, span, lim)
    ensures FromRun(cs, runs, a, span, lim) && runs[0].0 < a
  {
    var b: nat :| (a, b) in runs[1..] && a <= b <= |cs| && RunSpan(cs, a, b, lim) == Some(span);
    var k :| 0 <= k < |runs[1..]| && runs[1..][k] == (a, b);
    assert runs[k + 1] == (a, b);
    assert (a, b) in runs;
  }

  lemma {:induction false} ChildOrder(cs: seq<Node>, lim: Limits) returns (origin: seq<nat>)
    ensures |origin| == |Forests(cs, lim)|
    ensures forall i | 0 <= i < |origin| :: origin[i] < |cs| && Forests(cs, lim)[i] in Forest(cs[origin[i]], lim)
    ensures forall i, j | 0 <= i < j < |origin| :: origin[i] <= origin[j]
  {
    if cs == [] {
      origin := [];
    } else {
      var last := |cs| - 1;
      var before := ChildOrder(cs[..last], lim);
      origin := before + seq(|Forest(cs[last], lim)|, _ => last);
      assert Forests(cs, lim) == Forests(cs[..last], lim) + Forest(cs[last], lim);
    }
  }

  // ---------------------------------------------------------------- the arena

  lemma {:induction false} LaidOut(f: seq<SpanTree>, parent: Option<nat>, base: nat, s: LineSpan)
    ensures (exists e <- Flatten(f, parent, base) :: e.span == s) <==> Holds(f, s)
    decreases f
  {
    if f == [] {
      EmptyLayout(parent, base);
      HoldsNone(s);
    } else {
      var next := base + 1 + |Flatten(f[0].kids, Some(base), base + 1)|;
      FlattenSteps(f, parent, base);
      LaidOut(f[0].kids, Some(base), base + 1, s);
      LaidOut(f[1..], parent, next, s);
      HoldsOne(f[0], s);
      HoldsConcat([f[0]], f[1..], s);
      assert f == [f[0]] + f[1..];
      SomeSpan([Entry(parent, f[0].span)], Flatten(f[0].kids, Some(base), base + 1), Flatten(f[1..], parent, next), s);
    }
  }

  lemma {:induction false} SomeSpan(a: seq<Entry>, b: seq<Entry>, c: seq<Entry>, s: LineSpan)
    ensures (exists e <- a + b + c :: e.span == s)
      <==> (exists e <- a :: e.span == s) || (exists e <- b :: e.span == s) || exists e <- c :: e.span == s
  {
    assert forall e :: e in a + b + c <==> e in a || e in b || e in c;
  }

  /** The walk puts a span into the arena exactly when some node visited gives it. */
  lemma {:induction false} ArenaSpans(n: Node, s: LineSpan, lim: Limits)
    requires ValidTree(n)
    ensures (exists e <- Grow([], Forest(n, lim), None) :: e.span == s) <==> Collects(n, s, lim)
  {
    CollectedExactly(n, s, lim);
    hide Holds, Collects, Forest;
    LaidOut(Forest(n, lim), None, 0, s);
    assert Grow([], Forest(n, lim), None) == Flatten(Forest(n, lim), None, 0);
  }
}
