/** The summary end to end: collect, unfold, normalise, cut into segments. */
module SummaryTheorem {
  import opened Numbers
  import opened Optional
  import opened TextLines
  import opened SourceText
  import opened LineSpans
  import opened SummaryTree
  import opened SummaryLaminar
  import opened SummaryForest
  import opened SummaryUnfold
  import opened SummaryCounter
  import opened SummaryNormalize
  import opened SummarySegments
  import Spans = SummarySpans

  datatype Options = Options(
    minBody: Option<nat>, minComment: Option<nat>, unfoldUntil: Option<nat>, unfoldLimit: Option<nat>)

  function OrElse(o: Option<nat>, default: nat): nat {
    match o
    case Some(v) => v
    case None => default
  }

  function LimitsOf(o: Options): Limits {
    Limits(Max(OrElse(o.minBody, 4), 2), Max(OrElse(o.minComment, 6), 4))
  }

  function UnfoldUntil(o: Options): nat {
    OrElse(o.unfoldUntil, 0)
  }

  function UnfoldLimit(o: Options): nat {
    OrElse(o.unfoldLimit, SatAdd(UnfoldUntil(o), UnfoldUntil(o)))
  }

  /** The spans of a set of arena positions, listed in some order. */
  ghost predicate ListsSpans(spans: seq<LineSpan>, es: seq<Entry>, folded: set<nat>) {
    forall s :: s in spans <==> exists i :: i in folded && 0 <= i < |es| && es[i].span == s
  }

  /** Walk a hash set in any order. */
  method SpansOf(forest: ElidableForest, folded: set<nat>) returns (spans: seq<LineSpan>)
    requires forest.Valid() && forall i <- folded :: i < |forest.nodes|
    ensures ListsSpans(spans, forest.entries, folded)
  {
    spans := [];
    var left := folded;
    while left != {}
      invariant left <= folded && ListsSpans(spans, forest.entries, folded - left)
    {
      var i :| i in left;
      left, spans := left - {i}, spans + [forest.nodes[i].span];
      assert folded - left == folded - (left + {i}) + {i};
    }
  }

  /** Whatever the order, the lines are those the folded spans cover. */
  lemma {:induction false} ListedLines(spans: seq<LineSpan>, es: seq<Entry>, folded: set<nat>)
    requires ListsSpans(spans, es, folded)
    ensures LinesIn(spans) == Covered(es, folded, |es|)
  {
    forall l: nat ensures l in LinesIn(spans) <==> l in Covered(es, folded, |es|) {
      LineMembers(spans, l);
      CoveredHas(es, folded, |es|, l);
      if l in Covered(es, folded, |es|) {
        var i :| 0 <= i < |es| && i in folded && l in LinesOf(es[i].span);
        assert es[i].span in spans;
      }
    }
  }

  /** What a summary says about a file, given which spans stay folded. */
  ghost predicate Summarizes(segs: seq<Segment>, es: seq<Entry>, folded: set<nat>, lines: seq<string>) {
    var gone := if lines == [] then {} else Covered(es, folded, |es|) * UpTo(|lines|);
    Alternating(segs, gone, lines) && Reached(segs) == |lines|
  }

  /** The segments show the file except for the folded spans, which the unfold chose, and keep as
      many lines as are outside those spans. */
  ghost predicate SummaryOf(segs: seq<Segment>, es: seq<Entry>, lines: seq<string>, o: Options) {
    var folded := FoldedSpans(es, |lines|, o);
    && Summarizes(segs, es, folded, lines)
    && UnfoldEnds(es, folded, OpenedSpans(es, |lines|, o), |lines|, UnfoldUntil(o), UnfoldLimit(o))
    && KeptLines(segs) == Remaining(es, folded, |lines|)
  }

  function OpenedSpans(es: seq<Entry>, total: nat, o: Options): set<nat> {
    Opened(es, total, UnfoldUntil(o), UnfoldLimit(o))
  }

  function FoldedSpans(es: seq<Entry>, total: nat, o: Options): set<nat> {
    FrontierOf(es, OpenedSpans(es, total, o))
  }

  /** What the parser makes of the source. */
  datatype Syntax = Unknown | Tree(root: Node, hasError: bool)

  datatype SummaryResult = SummaryResult(parsed: bool, elided: bool, totalLines: nat, segments: seq<Segment>)

  method UnparsedResult(source: string, total: nat) returns (r: SummaryResult)
    ensures r == SummaryResult(false, false, total,
      if source == "" then [] else [Segment(Kept, 1, total, Some(source))])
  {
    var segments := if source == "" then [] else [Segment(Kept, 1, total, Some(source))];
    r := SummaryResult(false, false, total, segments);
  }

  /** A source that has a tree without errors is summarised; any other is shown as it is. */
  method Summarize(source: string, syntax: Syntax, o: Options) returns (r: SummaryResult)
    requires |SourceLines(source)| <= U32_MAX
    ensures r.totalLines == |SourceLines(source)|
    ensures r.parsed <==> source != "" && syntax.Tree? && !syntax.hasError
    ensures !r.parsed ==>
      !r.elided && r.segments == if source == "" then [] else [Segment(Kept, 1, r.totalLines, Some(source))]
    ensures r.parsed ==> (r.elided <==> exists g <- r.segments :: g.kind == Elided)
    ensures r.parsed ==> SummaryOf(r.segments, Grow([], Forest(syntax.root, LimitsOf(o)), None), SourceLines(source), o)
  {
    hide Grow, Forest, Covered, LinesIn, Alternating, UnfoldEnds, Summarizes, SourceLines, SummaryOf, ListsSpans,
      Opened, FrontierOf;
    var lines := SourceLines(source);
    if source == "" || syntax.Unknown? || syntax.hasError {
      r := UnparsedResult(source, |lines|);
      return;
    }
    var root := syntax.root;
    var forest := new ElidableForest();
    forest.CollectElidableTree(root, None, LimitsOf(o));
    ghost var es := forest.entries;
    var folded := SelectFoldedSpans(forest, |lines|, UnfoldUntil(o), UnfoldLimit(o));
    assert folded == FoldedSpans(es, |lines|, o);
    FoldedInArena(es, |lines|, o);
    var chosen := SpansOf(forest, folded);
    ListedLines(chosen, es, folded);
    var spans := NormalizeSpans(chosen, |lines|);
    var segments := BuildSegments(lines, spans);
    ShowsAllBut(segments, spans, es, folded, lines);
    SummaryMade(segments, es, lines, o);
    ArenaStarts(root, LimitsOf(o));
    ElidedSome(segments, spans, es, folded, lines);
    r := SummaryResult(true, spans != [], |lines|, segments);
  }

  lemma {:induction false} FoldedInArena(es: seq<Entry>, total: nat, o: Options)
    ensures forall i <- FoldedSpans(es, total, o) :: i < |es|
  {
    hide Opened;
  }

  lemma {:induction false} ShowsAllBut(
    segs: seq<Segment>, spans: seq<LineSpan>, es: seq<Entry>, folded: set<nat>, lines: seq<string>)
    requires LinesIn(spans) == if lines == [] then {} else Covered(es, folded, |es|) * UpTo(|lines|)
    requires Alternating(segs, LinesIn(spans), lines) && Reached(segs) == |lines|
    ensures Summarizes(segs, es, folded, lines)
  {
  }

  lemma {:induction false} SummaryMade(segs: seq<Segment>, es: seq<Entry>, lines: seq<string>, o: Options)
    requires Summarizes(segs, es, FoldedSpans(es, |lines|, o), lines)
    requires UnfoldEnds(es, FoldedSpans(es, |lines|, o), OpenedSpans(es, |lines|, o), |lines|, UnfoldUntil(o),
      UnfoldLimit(o))
    ensures SummaryOf(segs, es, lines, o)
  {
    hide UnfoldEnds, Alternating, Covered, FoldedSpans, OpenedSpans;
    var c := Covered(es, FoldedSpans(es, |lines|, o), |es|);
    var gone := if lines == [] then {} else c * UpTo(|lines|);
    KeptCount(segs, gone, lines);
    assert AllLines(|lines|) - gone == AllLines(|lines|) - c;
  }

  /** In a laminar arena the kept segments hold as many lines as the unfold's counter says. */
  lemma {:induction false} CounterIsKept(segs: seq<Segment>, es: seq<Entry>, lines: seq<string>, o: Options)
    requires SummaryOf(segs, es, lines, o) && Counting(es, |lines|) && |lines| <= U32_MAX
    ensures KeptLines(segs) == Shown(es, OpenedSpans(es, |lines|, o), |lines|)
  {
    hide Alternating, Shown, Remaining, IsFrontier, Counting, OpenedSpans, FoldedSpans;
    LaminarCounts(es, OpenedSpans(es, |lines|, o), FoldedSpans(es, |lines|, o), |lines|);
  }

  // ---------------------------------------------------------------- whether anything is elided

  ghost predicate Starts(t: SpanTree) {
    1 <= t.span.start && forall k <- t.kids :: Starts(k)
  }

  lemma {:induction false} ForestStarts(n: Node, lim: Limits)
    ensures forall t <- Forest(n, lim) :: Starts(t)
    decreases n, 1
  {
    if !n.comment { InteriorStarts(n, lim); }
  }

  lemma {:induction false} InteriorStarts(n: Node, lim: Limits)
    ensures forall t <- Interior(n, lim) :: Starts(t)
    decreases n, 0
  {
    var cs := n.children;
    forall t <- Interior(n, lim) ensures Starts(t) {
      if t in RunForest(cs, Runs(cs, 0, 0), lim) {
        InRunForest(cs, Runs(cs, 0, 0), lim, t);
      } else {
        InForests(cs, lim, t);
        var k :| 0 <= k < |cs| && t in Forest(cs[k], lim);
        ForestStarts(cs[k], lim);
      }
    }
  }

  lemma {:induction false} FlattenStarts(f: seq<SpanTree>, parent: Option<nat>, base: nat)
    requires forall t <- f :: Starts(t)
    ensures forall e <- Flatten(f, parent, base) :: 1 <= e.span.start
    decreases f
  {
    if f != [] {
      assert Starts(f[0]);
      FlattenStarts(f[0].kids, Some(base), base + 1);
      FlattenStarts(f[1..], parent, base + 1 + |Flatten(f[0].kids, Some(base), base + 1)|);
    }
  }

  lemma {:induction false} ArenaStarts(root: Node, lim: Limits)
    ensures forall e <- Grow([], Forest(root, lim), None) :: 1 <= e.span.start
  {
    ForestStarts(root, lim);
    FlattenStarts(Forest(root, lim), None, 0);
  }

  lemma {:induction false} ElidedSome(
    segs: seq<Segment>, spans: seq<LineSpan>, es: seq<Entry>, folded: set<nat>, lines: seq<string>)
    requires Canonical(spans) && Alternating(segs, LinesIn(spans), lines) && Reached(segs) == |lines|
    requires LinesIn(spans) == if lines == [] then {} else Covered(es, folded, |es|) * UpTo(|lines|)
    requires forall e <- es :: 1 <= e.span.start
    ensures spans != [] <==> exists g <- segs :: g.kind == Elided
  {
    hide Alternating, LinesIn, Covered;
    if lines == [] { NoLinesNoSpans(spans); }
    forall s <- spans ensures 1 <= s.start && s.end <= |lines| {
      NormalInFile(spans, s, es, folded, |lines|);
    }
    OneSegmentPerSpan(segs, spans, lines);
    ElidedListed(segs);
  }

  lemma {:induction false} NoLinesNoSpans(spans: seq<LineSpan>)
    requires Canonical(spans)
    ensures spans != [] ==> LinesIn(spans) != {}
  {
    if spans != [] {
      LineMembers(spans, spans[0].start);
      assert spans[0] in spans;
    }
  }

  lemma {:induction false} ElidedListed(segs: seq<Segment>)
    ensures ElidedSpans(segs) != [] <==> exists g <- segs :: g.kind == Elided
  {
    if segs != [] {
      var init, last := segs[..|segs| - 1], segs[|segs| - 1];
      ElidedListed(init);
      assert segs == init + [last];
    }
  }

  /** Filling the elided gaps from the source gives the source back, but for a last newline and
      carriage returns before newlines. */
  lemma {:induction false} SummaryRestores(
    segs: seq<Segment>, es: seq<Entry>, folded: set<nat>, lines: seq<string>, source: string)
    requires Summarizes(segs, es, folded, lines) && lines == SourceLines(source)
    ensures var gone := if lines == [] then {} else Covered(es, folded, |es|) * UpTo(|lines|);
      JoinLines(FillAll(segs, gone, lines)) + LastNewline(source) == DropReturns(source)
  {
    var gone := if lines == [] then {} else Covered(es, folded, |es|) * UpTo(|lines|);
    FillingRestores(segs, gone, lines);
    assert lines[..|lines|] == lines;
    LinesJoined(source);
  }

  /** The hash set's order does not show: any listing of the folded spans leads to the same
      normal form and the same segments, one elided segment per normalised span. */
  lemma {:induction false} OrderIndependent(
    one: seq<LineSpan>, other: seq<LineSpan>, normOne: seq<LineSpan>, normOther: seq<LineSpan>,
    segsOne: seq<Segment>, segsOther: seq<Segment>, es: seq<Entry>, folded: set<nat>, lines: seq<string>)
    requires ListsSpans(one, es, folded) && ListsSpans(other, es, folded) && lines != []
    requires Canonical(normOne) && LinesIn(normOne) == LinesIn(one) * UpTo(|lines|)
    requires Canonical(normOther) && LinesIn(normOther) == LinesIn(other) * UpTo(|lines|)
    requires Alternating(segsOne, LinesIn(normOne), lines) && Reached(segsOne) == |lines|
    requires Alternating(segsOther, LinesIn(normOther), lines) && Reached(segsOther) == |lines|
    requires forall e <- es :: 1 <= e.span.start
    ensures normOne == normOther && segsOne == segsOther && ElidedSpans(segsOne) == normOne
  {
    ListedLines(one, es, folded);
    ListedLines(other, es, folded);
    CanonicalUnique(normOne, normOther);
    SegmentsUnique(segsOne, segsOther, LinesIn(normOne), lines);
    forall s <- normOne ensures 1 <= s.start && s.end <= |lines| {
      NormalInFile(normOne, s, es, folded, |lines|);
    }
    OneSegmentPerSpan(segsOne, normOne, lines);
  }

  lemma {:induction false} NormalInFile(norm: seq<LineSpan>, s: LineSpan, es: seq<Entry>, folded: set<nat>, total: nat)
    requires Canonical(norm) && s in norm && LinesIn(norm) == Covered(es, folded, |es|) * UpTo(total)
    requires forall e <- es :: 1 <= e.span.start
    ensures 1 <= s.start && s.end <= total
  {
    LineMembers(norm, s.start);
    LineMembers(norm, s.end);
    CoveredHas(es, folded, |es|, s.start);
    assert s.start in LinesIn(norm) && s.end in LinesIn(norm);
  }

  /** For a syntax tree over the file, the unfold's counter is the number of lines shown at every
      frontier if and only if the tree's runs are clean, and it starts right if and only if the
      spans folded first are disjoint. */
  lemma {:induction false} TreeCounts(root: Node, total: nat, o: Options)
    requires ValidTree(root) && EndLine(root) <= total + 1 && total <= U32_MAX
    ensures var es := Grow([], Forest(root, LimitsOf(o)), None);
      && (CountsEverywhere(es, total) <==> CleanRuns(root, LimitsOf(o)))
      && (Counting(es, total) <==> CleanRuns(root, LimitsOf(o)))
      && (InitialVisible(es, total) == Remaining(es, KidSet(es, None), total) <==> AllApart(es, KidSet(es, None)))
  {
    var es := Grow([], Forest(root, LimitsOf(o)), None);
    hide Grow, Forest, CleanRuns, ValidTree, LaminarArena, CountsEverywhere;
    CollectedLaminar(root, LimitsOf(o));
    TreeInRange(es, root, total);
    CounterExact(es, total);
    InitialExact(es, total);
    FirstLineShown(es, root, total);
  }

  lemma {:induction false} TreeInRange(es: seq<Entry>, root: Node, total: nat)
    requires (forall e <- es :: Strictly(StartLine(root), e.span, EndLine(root))) && EndLine(root) <= total + 1
    ensures InRange(es, total)
  {
  }

  /** The root's first line is outside every span. */
  lemma {:induction false} FirstLineShown(es: seq<Entry>, root: Node, total: nat)
    requires forall e <- es :: Strictly(StartLine(root), e.span, EndLine(root))
    requires InRange(es, total) && EndLine(root) <= total + 1
    ensures AllLines(total) <= Covered(es, KidSet(es, None), |es|) ==> AllApart(es, KidSet(es, None))
  {
    CoveredHas(es, KidSet(es, None), |es|, 1);
    assert total > 0 ==> 1 in AllLines(total);
    assert es != [] ==> es[0] in es;
  }

  // ---------------------------------------------------------------- unclean runs

  function Statement(first: nat, last: nat, elidable: bool): Node {
    Node(true, false, elidable, true, first, 0, last, 1, [])
  }

  /** Three imports on rows 0, 1-6 and 7, the middle one with a body of its own. */
  function UncleanRoot(): Node {
    Node(true, false, false, false, 0, 0, 8, 0, [Statement(0, 0, false), Statement(1, 6, true), Statement(7, 7, false)])
  }

  lemma {:induction false} UncleanForest(lim: Limits)
    requires lim == Limits(4, 6)
    ensures Forest(UncleanRoot(), lim) == [SpanTree(LineSpan(2, 7), []), SpanTree(LineSpan(3, 6), [])]
  {
    var n, lim, cs := UncleanRoot(), lim, UncleanRoot().children;
    assert Runs(cs, 0, 3) == [(0, 3)] && Runs(cs, 0, 2) == [(0, 3)] && Runs(cs, 0, 1) == [(0, 3)];
    assert Runs(cs, 0, 0) == [(0, 3)];
    assert RunSpan(cs, 0, 3, lim) == Some(LineSpan(2, 7));
    assert [(0 as nat, 3 as nat)][1..] == [];
    assert RunForest(cs, [(0, 3)], lim) == [SpanTree(LineSpan(2, 7), [])];
    LeafForest(cs[0], lim);
    LeafForest(cs[1], lim);
    LeafForest(cs[2], lim);
    assert cs[..3] == cs && cs[..2][..1] == cs[..1] && cs[..1][..0] == [];
    assert Forests(cs[..1], lim) == [];
    assert Forests(cs[..2], lim) == [SpanTree(LineSpan(3, 6), [])];
    assert Forests(cs[..3], lim) == [SpanTree(LineSpan(3, 6), [])];
  }

  lemma {:induction false} LeafForest(n: Node, lim: Limits)
    requires !n.comment && n.children == []
    ensures Forest(n, lim) == match BodySpan(n, lim) case None => [] case Some(s) => [SpanTree(s, [])]
  {
    assert Runs([], 0, 0) == [(0, 0)];
    assert [(0 as nat, 0 as nat)][1..] == [];
    assert RunForest(n.children, [(0, 0)], lim) == [];
    assert Interior(n, lim) == [];
  }

  lemma {:induction false} UncleanArena(a: LineSpan, b: LineSpan)
    ensures Grow([], [SpanTree(a, []), SpanTree(b, [])], None) == [Entry(None, a), Entry(None, b)]
  {
    hide *;
    GrowConcat([], [SpanTree(a, [])], [SpanTree(b, [])], None);
    assert [SpanTree(a, [])] + [SpanTree(b, [])] == [SpanTree(a, []), SpanTree(b, [])];
    GrowLeaf([], a, None);
    assert [] + [Entry(None, a)] == [Entry(None, a)];
    GrowLeaf([Entry(None, a)], b, None);
  }

  lemma {:induction false} StatementValid(first: nat, last: nat, elidable: bool)
    requires first <= last
    ensures ValidTree(Statement(first, last, elidable))
  {
  }

  lemma {:induction false} UncleanValid()
    ensures ValidTree(UncleanRoot())
  {
    StatementValid(0, 0, false);
    StatementValid(1, 6, true);
    StatementValid(7, 7, false);
  }

  lemma {:induction false} UncleanRuns(lim: Limits)
    requires lim == Limits(4, 6)
    ensures ValidTree(UncleanRoot()) && !CleanRuns(UncleanRoot(), lim)
  {
    hide *;
    UncleanValid();
    UncleanForest(lim);
    ForestLaminar(UncleanRoot(), lim);
    OverlapNotLaminar(Forest(UncleanRoot(), lim));
  }

  lemma {:induction false} OverlapNotLaminar(f: seq<SpanTree>)
    requires f == [SpanTree(LineSpan(2, 7), []), SpanTree(LineSpan(3, 6), [])]
    ensures !Laminar(f)
  {
    hide LaminarTree;
    assert !Apart(f[0].span, f[1].span);
  }

  /** Without clean runs the counter starts at 0 although three of the nine lines are shown. */
  lemma {:induction false} UncleanRunMiscounts()
    ensures ValidTree(UncleanRoot()) && !CleanRuns(UncleanRoot(), Limits(4, 6))
    ensures var es := Grow([], Forest(UncleanRoot(), Limits(4, 6)), None);
      InitialVisible(es, 9) == 0 && |AllLines(9) - Covered(es, KidSet(es, None), |es|)| == 3
  {
    UncleanRuns(Limits(4, 6));
    UncleanForest(Limits(4, 6));
    hide *;
    UncleanArena(LineSpan(2, 7), LineSpan(3, 6));
    OverlapCount([Entry(None, LineSpan(2, 7)), Entry(None, LineSpan(3, 6))], LineSpan(2, 7), LineSpan(3, 6));
  }

  lemma {:induction false} OverlapCount(es: seq<Entry>, a: LineSpan, b: LineSpan)
    requires es == [Entry(None, a), Entry(None, b)] && a == LineSpan(2, 7) && b == LineSpan(3, 6)
    ensures InitialVisible(es, 9) == 0 && |AllLines(9) - Covered(es, KidSet(es, None), |es|)| == 3
  {
    OverlapSum(es, a, b);
    OverlapCover(es, a, b);
    hide *;
    assert |{1 as nat, 8, 9}| == 3;
  }

  lemma {:induction false} OverlapSum(es: seq<Entry>, a: LineSpan, b: LineSpan)
    requires es == [Entry(None, a), Entry(None, b)] && a == LineSpan(2, 7) && b == LineSpan(3, 6)
    ensures InitialVisible(es, 9) == 0
  {
    var f := KidSet(es, None);
    RootsSum(es);
    assert LinesAt(es, 0) == 6 && LinesAt(es, 1) == 4;
    hide SumLines, Kids;
    assert SumIn(es, f, 0) == 0;
    assert SumIn(es, f, 1) == 6;
    assert SumIn(es, f, 2) == 10;
  }

  lemma {:induction false} OverlapCover(es: seq<Entry>, a: LineSpan, b: LineSpan)
    requires es == [Entry(None, a), Entry(None, b)] && a == LineSpan(2, 7) && b == LineSpan(3, 6)
    ensures AllLines(9) - Covered(es, KidSet(es, None), 2) == {1, 8, 9}
  {
    var f := KidSet(es, None);
    hide Between;
    assert Covered(es, f, 0) == {};
    assert Covered(es, f, 1) == Between(2, 7);
    assert Covered(es, f, 2) == Between(2, 7) + Between(3, 6);
    assert AllLines(9) == Between(1, 9);
    hide *;
    assert Between(1, 9) - (Between(2, 7) + Between(3, 6)) == {1, 8, 9};
  }

  // ---------------------------------------------------------------- without a target

  lemma {:induction false} RootAbove(es: seq<Entry>, i: nat) returns (r: nat)
    requires NestedArena(es) && i < |es|
    ensures r <= i && es[r].parent == None && Within(es[i].span, es[r].span)
  {
    if es[i].parent == None { r := i; } else { r := RootAbove(es, es[i].parent.value); }
  }

  /** The outermost spans cover what all spans cover. */
  lemma {:induction false} RootsCover(es: seq<Entry>, l: nat)
    requires NestedArena(es)
    ensures l in Covered(es, FrontierOf(es, {}), |es|) <==> exists e <- es :: e.span.start <= l <= e.span.end
  {
    CoveredHas(es, FrontierOf(es, {}), |es|, l);
    forall e <- es | e.span.start <= l <= e.span.end
      ensures exists r :: 0 <= r < |es| && r in FrontierOf(es, {}) && l in LinesOf(es[r].span)
    {
      var i :| 0 <= i < |es| && es[i] == e;
      var r := RootAbove(es, i);
      assert r in FrontierOf(es, {}) && l in LinesOf(es[r].span);
    }
  }

  /** The line is in a segment that is not shown. */
  ghost predicate Omitted(segs: seq<Segment>, l: nat) {
    exists g <- segs :: g.kind == Elided && g.start <= l <= g.end
  }

  lemma {:induction false} OmittedIs(segs: seq<Segment>, elided: set<nat>, lines: seq<string>, l: nat)
    requires Alternating(segs, elided, lines)
    ensures Omitted(segs, l) <==> l in elided && 1 <= l <= Reached(segs)
  {
    if segs != [] {
      var init, last := segs[..|segs| - 1], segs[|segs| - 1];
      OmittedIs(init, elided, lines, l);
      assert segs == init + [last];
      assert Omitted(segs, l) <==> Omitted(init, l) || (last.kind == Elided && last.start <= l <= last.end);
      assert last.start <= l <= last.end ==> KindOf(elided, l) == last.kind;
    }
  }

  /** Without a target of lines to show, a line is left out exactly when it lies in a span that some
      node of the tree gives: a node that is a long comment, or outside comments and elidable, or
      has a long run of groupable children. Limits are 4 and 6 lines unless given, and at least 2
      and 4. */
  lemma {:induction false} SummaryOmits(segs: seq<Segment>, root: Node, lines: seq<string>, o: Options, l: nat)
    requires SummaryOf(segs, Grow([], Forest(root, LimitsOf(o)), None), lines, o) && ValidTree(root)
    requires o.unfoldUntil == None || o.unfoldUntil == Some(0)
    ensures Omitted(segs, l) <==> 1 <= l <= |lines| && Given(root, l, Limits(
      if o.minBody == None then 4 else Max(o.minBody.value, 2),
      if o.minComment == None then 6 else Max(o.minComment.value, 4)))
  {
    var lim := LimitsOf(o);
    var es := Grow([], Forest(root, lim), None);
    var folded := FoldedSpans(es, |lines|, o);
    assert folded == FrontierOf(es, {});
    CollectedLaminar(root, lim);
    GivenIs(root, es, lim, l);
    hide Forest, Grow, ValidTree, Alternating, Covered, Given, NestedArena, FrontierOf, FoldedSpans, OpenedSpans,
      UnfoldEnds;
    RootsCover(es, l);
    OmittedIs(segs, if lines == [] then {} else Covered(es, folded, |es|) * UpTo(|lines|), lines, l);
  }

  ghost predicate Given(root: Node, l: nat, lim: Limits) {
    exists s: LineSpan :: Spans.Collects(root, s, lim) && s.start <= l <= s.end
  }

  lemma {:induction false} GivenIs(root: Node, es: seq<Entry>, lim: Limits, l: nat)
    requires ValidTree(root) && es == Grow([], Forest(root, lim), None)
    ensures Given(root, l, lim) <==> exists e <- es :: e.span.start <= l <= e.span.end
  {
    hide Forest, Grow, ValidTree, Spans.Collects;
    forall s: LineSpan ensures Spans.Collects(root, s, lim) <==> exists e <- es :: e.span == s {
      Spans.ArenaSpans(root, s, lim);
    }
  }

  // ---------------------------------------------------------------- with a target

  /** With a target and no limit of its own, the kept lines stay within twice the target once a span
      has been opened, and fall short of the target only if any further span would go beyond that. */
  lemma {:induction false} TargetMet(
    segs: seq<Segment>, es: seq<Entry>, lines: seq<string>, o: Options, target: nat)
    requires SummaryOf(segs, es, lines, o) && Counting(es, |lines|) && |lines| <= U32_MAX
    requires o.unfoldUntil == Some(target) && o.unfoldLimit == None
    ensures OpenedSpans(es, |lines|, o) != {} ==> KeptLines(segs) <= 2 * target
    ensures KeptLines(segs) < target ==>
      forall i <- FoldedSpans(es, |lines|, o) :: KeptLines(segs) + Reveal(es, i) > 2 * target
  {
    CounterIsKept(segs, es, lines, o);
    hide Summarizes, Counting, OpenedSpans, FoldedSpans, IsFrontier, StopsInTime, BreadthFirst, Reveal, Shown;
    assert UnfoldLimit(o) == Min(2 * target, U32_MAX);
  }
}
