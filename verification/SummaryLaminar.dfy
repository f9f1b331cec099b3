/** The span forest of a syntax tree: always nested, and laminar exactly when no elided run
    of siblings hides a member that has spans of its own. */
module SummaryLaminar {
  import opened Optional
  import opened LineSpans
  import opened SummaryTree

  // ---------------------------------------------------------------- positions

  lemma {:induction false} SiblingsOrdered(n: Node, i: nat, j: nat)
    requires ValidTree(n) && i < j < |n.children|
    ensures EndLine(n.children[i]) <= StartLine(n.children[j])
    decreases j
  {
    assert Follows(n.children[j - 1], n.children[j]);
    if i < j - 1 {
      SiblingsOrdered(n, i, j - 1);
      assert ValidTree(n.children[j - 1]);
    }
  }

  lemma {:induction false} ChildLines(n: Node, i: nat)
    requires ValidTree(n) && i < |n.children|
    ensures StartLine(n) <= StartLine(n.children[i]) <= ContentEndLine(n.children[i]) <= EndLine(n.children[i])
    ensures EndLine(n.children[i]) <= EndLine(n)
    ensures EndLine(n.children[i]) <= ContentEndLine(n.children[i]) + 1
  {
    assert ValidTree(n.children[i]) && Nested(n, n.children[i]);
  }

  ghost predicate Strictly(lo: nat, s: LineSpan, hi: nat) {
    lo < s.start <= s.end < hi
  }

  /** A run that gets a span leaves its first and last member outside it. */
  lemma {:induction false} RunSpanLines(n: Node, a: nat, b: nat, lim: Limits)
    requires ValidTree(n) && a <= b <= |n.children| && RunSpan(n.children, a, b, lim).Some?
    ensures var s := RunSpan(n.children, a, b, lim).value;
      && a + 1 < b
      && s == LineSpan(ContentEndLine(n.children[a]) + 1, StartLine(n.children[b - 1]) - 1)
      && Strictly(StartLine(n), s, EndLine(n))
  {
    ChildLines(n, a);
    ChildLines(n, b - 1);
    SiblingsOrdered(n, a, b - 1);
  }

  // ---------------------------------------------------------------- membership

  lemma {:induction false} InRunForest(cs: seq<Node>, runs: seq<(nat, nat)>, lim: Limits, t: SpanTree)
    requires (forall r <- runs :: r.0 <= r.1 <= |cs|) && t in RunForest(cs, runs, lim)
    ensures t.kids == [] && exists r :: r in runs && RunSpan(cs, r.0, r.1, lim) == Some(t.span)
  {
    if t in LeafOf(RunSpan(cs, runs[0].0, runs[0].1, lim)) {
      assert runs[0] in runs;
    } else {
      InRunForest(cs, runs[1..], lim, t);
      var r :| r in runs[1..] && RunSpan(cs, r.0, r.1, lim) == Some(t.span);
      assert r in runs;
    }
  }

  lemma {:induction false} RunForestHas(cs: seq<Node>, runs: seq<(nat, nat)>, lim: Limits, i: nat)
    requires (forall r <- runs :: r.0 <= r.1 <= |cs|) && i < |runs|
    requires RunSpan(cs, runs[i].0, runs[i].1, lim).Some?
    ensures SpanTree(RunSpan(cs, runs[i].0, runs[i].1, lim).value, []) in RunForest(cs, runs, lim)
  {
    if i > 0 { RunForestHas(cs, runs[1..], lim, i - 1); }
  }

  lemma {:induction false} InForests(cs: seq<Node>, lim: Limits, t: SpanTree)
    ensures t in Forests(cs, lim) <==> exists k :: 0 <= k < |cs| && t in Forest(cs[k], lim)
  {
    if cs != [] {
      var last := |cs| - 1;
      InForests(cs[..last], lim, t);
      if k :| 0 <= k < |cs| && t in Forest(cs[k], lim) {
        if k < last { assert cs[..last][k] == cs[k]; }
      }
      if k :| 0 <= k < last && t in Forest(cs[..last][k], lim) {
        assert t in Forest(cs[k], lim);
      }
    }
  }

  // ---------------------------------------------------------------- regions

  /** What a node contributes lies strictly between its first and last line. */
  lemma {:induction false} ForestRegion(n: Node, lim: Limits)
    requires ValidTree(n)
    ensures forall t <- Forest(n, lim) :: Strictly(StartLine(n), t.span, EndLine(n))
    decreases n, 1
  {
    if !n.comment { InteriorRegion(n, lim); }
  }

  lemma {:induction false} InteriorRegion(n: Node, lim: Limits)
    requires ValidTree(n)
    ensures forall t <- Interior(n, lim) :: Strictly(StartLine(n), t.span, EndLine(n))
    decreases n, 0
  {
    var cs := n.children;
    var runs := Runs(cs, 0, 0);
    RunsInOrder(cs, 0, 0);
    forall t <- Interior(n, lim) ensures Strictly(StartLine(n), t.span, EndLine(n)) {
      if t in RunForest(cs, runs, lim) {
        InRunForest(cs, runs, lim, t);
        var r :| r in runs && RunSpan(cs, r.0, r.1, lim) == Some(t.span);
        RunSpanLines(n, r.0, r.1, lim);
      } else {
        InForests(cs, lim, t);
        var k :| 0 <= k < |cs| && t in Forest(cs[k], lim);
        ForestRegion(cs[k], lim);
        ChildLines(n, k);
      }
    }
  }

  /** Every child span lies within its parent's, in every valid tree. */
  lemma {:induction false} ForestContained(n: Node, lim: Limits)
    requires ValidTree(n)
    ensures forall t <- Forest(n, lim) :: Contained(t)
    decreases n, 1
  {
    if !n.comment {
      InteriorContained(n, lim);
      InteriorRegion(n, lim);
    }
  }

  lemma {:induction false} InteriorContained(n: Node, lim: Limits)
    requires ValidTree(n)
    ensures forall t <- Interior(n, lim) :: Contained(t)
    decreases n, 0
  {
    var cs := n.children;
    var runs := Runs(cs, 0, 0);
    RunsInOrder(cs, 0, 0);
    forall t <- Interior(n, lim) ensures Contained(t) {
      if t in RunForest(cs, runs, lim) {
        InRunForest(cs, runs, lim, t);
      } else {
        InForests(cs, lim, t);
        var k :| 0 <= k < |cs| && t in Forest(cs[k], lim);
        ForestContained(cs[k], lim);
      }
    }
  }

  // ---------------------------------------------------------------- disjointness

  ghost predicate Cross(f: seq<SpanTree>, g: seq<SpanTree>) {
    forall s, t | s in f && t in g :: Apart(s.span, t.span)
  }

  lemma {:induction false} DisjointConcat(f: seq<SpanTree>, g: seq<SpanTree>)
    ensures Disjoint(f + g) <==> Disjoint(f) && Disjoint(g) && Cross(f, g)
  {
    if Disjoint(f + g) {
      forall i, j | 0 <= i < j < |f| ensures Apart(f[i].span, f[j].span) {
        assert (f + g)[i] == f[i] && (f + g)[j] == f[j];
      }
      forall i, j | 0 <= i < j < |g| ensures Apart(g[i].span, g[j].span) {
        assert (f + g)[|f| + i] == g[i] && (f + g)[|f| + j] == g[j];
      }
      forall s, t | s in f && t in g ensures Apart(s.span, t.span) {
        var i :| 0 <= i < |f| && f[i] == s;
        var j :| 0 <= j < |g| && g[j] == t;
        assert (f + g)[i] == s && (f + g)[|f| + j] == t;
      }
    }
  }

  lemma {:induction false} RunsApart(n: Node, r: (nat, nat), r1: (nat, nat), lim: Limits)
    requires ValidTree(n) && r.0 <= r.1 < r1.0 <= r1.1 <= |n.children|
    requires RunSpan(n.children, r.0, r.1, lim).Some? && RunSpan(n.children, r1.0, r1.1, lim).Some?
    ensures Apart(RunSpan(n.children, r.0, r.1, lim).value, RunSpan(n.children, r1.0, r1.1, lim).value)
  {
    RunSpanLines(n, r.0, r.1, lim);
    RunSpanLines(n, r1.0, r1.1, lim);
    SiblingsOrdered(n, r.1 - 1, r1.0);
    ChildLines(n, r.1 - 1);
    ChildLines(n, r1.0);
  }

  lemma {:induction false} RunsDisjoint(n: Node, runs: seq<(nat, nat)>, lim: Limits)
    requires ValidTree(n) && forall r <- runs :: r.0 <= r.1 <= |n.children|
    requires forall j, k | 0 <= j < k < |runs| :: runs[j].1 < runs[k].0
    ensures Disjoint(RunForest(n.children, runs, lim))
  {
    if runs != [] {
      var rest := RunForest(n.children, runs[1..], lim);
      var head := LeafOf(RunSpan(n.children, runs[0].0, runs[0].1, lim));
      assert RunForest(n.children, runs, lim) == head + rest;
      RunsDisjoint(n, runs[1..], lim);
      FirstRunApart(n, runs, lim);
      hide ValidTree, RunSpan, RunForest;
      DisjointConcat(head, rest);
    }
  }

  lemma {:induction false} FirstRunApart(n: Node, runs: seq<(nat, nat)>, lim: Limits)
    requires ValidTree(n) && runs != [] && forall r <- runs :: r.0 <= r.1 <= |n.children|
    requires forall j, k | 0 <= j < k < |runs| :: runs[j].1 < runs[k].0
    ensures Disjoint(LeafOf(RunSpan(n.children, runs[0].0, runs[0].1, lim)))
    ensures Cross(LeafOf(RunSpan(n.children, runs[0].0, runs[0].1, lim)), RunForest(n.children, runs[1..], lim))
  {
    hide ValidTree, RunSpan, RunForest;
    var cs := n.children;
    var head, rest := LeafOf(RunSpan(cs, runs[0].0, runs[0].1, lim)), RunForest(cs, runs[1..], lim);
    forall s, t | s in head && t in rest ensures Apart(s.span, t.span) {
      InRunForest(cs, runs[1..], lim, t);
      var r :| r in runs[1..] && RunSpan(cs, r.0, r.1, lim) == Some(t.span);
      var k :| 0 <= k < |runs[1..]| && runs[1..][k] == r;
      assert runs[k + 1] == r;
      RunsApart(n, runs[0], r, lim);
    }
  }

  lemma {:induction false} ForestsDisjoint(n: Node, k: nat, lim: Limits)
    requires ValidTree(n) && k <= |n.children|
    ensures Disjoint(Forests(n.children[..k], lim)) <==> forall i | 0 <= i < k :: Disjoint(Forest(n.children[i], lim))
  {
    if k > 0 {
      var cs, last := n.children, k - 1;
      assert cs[..k][..last] == cs[..last];
      ForestsDisjoint(n, last, lim);
      forall s, t | s in Forests(cs[..last], lim) && t in Forest(cs[last], lim) ensures Apart(s.span, t.span) {
        InForests(cs[..last], lim, s);
        var i :| 0 <= i < last && s in Forest(cs[..last][i], lim);
        ForestRegion(cs[i], lim);
        ForestRegion(cs[last], lim);
        SiblingsOrdered(n, i, last);
      }
      DisjointConcat(Forests(cs[..last], lim), Forest(cs[last], lim));
    }
  }

  /** A run's span meets exactly the spans of its inner members. */
  lemma {:induction false} RunMeetsChild(n: Node, a: nat, b: nat, k: nat, t: SpanTree, lim: Limits)
    requires ValidTree(n) && a <= b <= |n.children| && k < |n.children|
    requires RunSpan(n.children, a, b, lim).Some? && t in Forest(n.children[k], lim)
    ensures Apart(RunSpan(n.children, a, b, lim).value, t.span) <==> !(a < k < b - 1)
  {
    RunSpanLines(n, a, b, lim);
    ForestRegion(n.children[k], lim);
    ChildLines(n, a);
    ChildLines(n, b - 1);
    if k < a { SiblingsOrdered(n, k, a); }
    if a < k { SiblingsOrdered(n, a, k); }
    if k < b - 1 { SiblingsOrdered(n, k, b - 1); }
    if b - 1 < k { SiblingsOrdered(n, b - 1, k); }
  }

  lemma {:induction false} RunsCrossChildren(n: Node, lim: Limits)
    requires ValidTree(n)
    ensures Cross(RunForest(n.children, Runs(n.children, 0, 0), lim), Forests(n.children, lim))
      <==> forall r <- Runs(n.children, 0, 0) :: CleanRun(n.children, r.0, r.1, lim)
  {
    var cs := n.children;
    var runs := Runs(cs, 0, 0);
    RunsInOrder(cs, 0, 0);
    var f, g := RunForest(cs, runs, lim), Forests(cs, lim);
    if forall r <- runs :: CleanRun(cs, r.0, r.1, lim) {
      forall s, t | s in f && t in g ensures Apart(s.span, t.span) {
        InRunForest(cs, runs, lim, s);
        var r :| r in runs && RunSpan(cs, r.0, r.1, lim) == Some(s.span);
        InForests(cs, lim, t);
        var k :| 0 <= k < |cs| && t in Forest(cs[k], lim);
        assert CleanRun(cs, r.0, r.1, lim);
        RunMeetsChild(n, r.0, r.1, k, t, lim);
      }
    }
    if Cross(f, g) {
      forall r <- runs ensures CleanRun(cs, r.0, r.1, lim) {
        if RunSpan(cs, r.0, r.1, lim).Some? {
          var i :| 0 <= i < |runs| && runs[i] == r;
          RunForestHas(cs, runs, lim, i);
          forall k | r.0 < k < r.1 - 1 ensures Forest(cs[k], lim) == [] {
            if Forest(cs[k], lim) != [] {
              var t := Forest(cs[k], lim)[0];
              InForests(cs, lim, t);
              RunMeetsChild(n, r.0, r.1, k, t, lim);
            }
          }
        }
      }
    }
  }

  // ---------------------------------------------------------------- laminar exactly when clean

  lemma {:induction false} LaminarSingle(t: SpanTree)
    ensures Laminar([t]) <==> Laminar(t.kids)
  {
    assert t in [t];
    assert LaminarTree(t) <==> Laminar(t.kids);
  }

  lemma {:induction false} ForestLaminar(n: Node, lim: Limits)
    requires ValidTree(n)
    ensures Laminar(Forest(n, lim)) <==> CleanRuns(n, lim)
    decreases n, 1
  {
    if n.comment {
      var span := CommentSpan(n, lim);
      if span.Some? { LaminarSingle(SpanTree(span.value, [])); }
    } else {
      InteriorLaminar(n, lim);
      var body := BodySpan(n, lim);
      if body.Some? { LaminarSingle(SpanTree(body.value, Interior(n, lim))); }
    }
  }

  lemma {:induction false} InteriorLaminar(n: Node, lim: Limits)
    requires ValidTree(n) && !n.comment
    ensures Laminar(Interior(n, lim)) <==> CleanRuns(n, lim)
    decreases n, 0
  {
    forall k | 0 <= k < |n.children| ensures Laminar(Forest(n.children[k], lim)) <==> CleanRuns(n.children[k], lim) {
      ForestLaminar(n.children[k], lim);
    }
    CombineLaminar(n, lim);
  }

  /** Runs and children together, the children taken care of. */
  lemma {:induction false} CombineLaminar(n: Node, lim: Limits)
    requires ValidTree(n) && !n.comment
    requires forall k | 0 <= k < |n.children| ::
      Laminar(Forest(n.children[k], lim)) <==> CleanRuns(n.children[k], lim)
    ensures Laminar(Interior(n, lim)) <==> CleanRuns(n, lim)
  {
    var cs := n.children;
    var runs := Runs(cs, 0, 0);
    var f, g := RunForest(cs, runs, lim), Forests(cs, lim);
    RunsInOrder(cs, 0, 0);
    RunsDisjoint(n, runs, lim);
    ForestsDisjoint(n, |cs|, lim);
    assert cs[..|cs|] == cs;
    LaminarInterior(n, lim);
    CleanParts(n, lim);
    hide Runs, RunForest, Forests, Forest, ValidTree, CleanRuns, CleanRun, Disjoint, Cross, LaminarTree, Laminar;
    DisjointConcat(f, g);
    RunsCrossChildren(n, lim);
    RunTreesLaminar(cs, runs, lim);
    ChildTreesLaminar(cs, lim);
    LaminarForests(cs, lim);
  }

  lemma {:induction false} LaminarInterior(n: Node, lim: Limits)
    ensures var f, g := RunForest(n.children, Runs(n.children, 0, 0), lim), Forests(n.children, lim);
      Laminar(Interior(n, lim)) <==>
      Disjoint(f + g) && (forall t <- f :: LaminarTree(t)) && (forall t <- g :: LaminarTree(t))
  {
    var f, g := RunForest(n.children, Runs(n.children, 0, 0), lim), Forests(n.children, lim);
    assert Interior(n, lim) == f + g;
    assert forall t :: t in f + g <==> t in f || t in g;
    hide Disjoint, LaminarTree, RunForest, Runs, Forests;
  }

  lemma {:induction false} CleanParts(n: Node, lim: Limits)
    requires !n.comment
    ensures CleanRuns(n, lim) <==>
      (forall r <- Runs(n.children, 0, 0) :: CleanRun(n.children, r.0, r.1, lim))
      && forall k | 0 <= k < |n.children| :: CleanRuns(n.children[k], lim)
  {
    hide Runs, CleanRun;
  }

  lemma {:induction false} RunTreesLaminar(cs: seq<Node>, runs: seq<(nat, nat)>, lim: Limits)
    requires forall r <- runs :: r.0 <= r.1 <= |cs|
    ensures forall t <- RunForest(cs, runs, lim) :: LaminarTree(t)
  {
    forall t <- RunForest(cs, runs, lim) ensures LaminarTree(t) {
      InRunForest(cs, runs, lim, t);
    }
  }

  ghost predicate TreesLaminar(f: seq<SpanTree>) {
    forall t <- f :: LaminarTree(t)
  }

  lemma {:induction false} ChildTreesLaminar(cs: seq<Node>, lim: Limits)
    ensures TreesLaminar(Forests(cs, lim)) <==> forall k | 0 <= k < |cs| :: TreesLaminar(Forest(cs[k], lim))
  {
    hide Forests, Forest, LaminarTree;
    forall t ensures t in Forests(cs, lim) <==> exists k :: 0 <= k < |cs| && t in Forest(cs[k], lim) {
      InForests(cs, lim, t);
    }
  }

  lemma {:induction false} LaminarForests(cs: seq<Node>, lim: Limits)
    ensures forall k | 0 <= k < |cs| ::
      Laminar(Forest(cs[k], lim)) <==> Disjoint(Forest(cs[k], lim)) && TreesLaminar(Forest(cs[k], lim))
  {
    hide Forest, Disjoint, LaminarTree;
  }
}
