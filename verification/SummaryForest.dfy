/** The arena of elidable spans, filled by a walk over the syntax tree. */
module SummaryForest {
  import opened Numbers
  import opened Optional
  import opened LineSpans
  import opened SummaryTree
  import opened SummaryLaminar

  datatype SpanNode = SpanNode(span: LineSpan, children: seq<nat>)

  /** The arena seen by parent links, in push order. */
  datatype Entry = Entry(parent: Option<nat>, span: LineSpan)

  ghost predicate ParentsFirst(es: seq<Entry>) {
    forall i | 0 <= i < |es| :: es[i].parent.Some? ==> es[i].parent.value < i
  }

  /** The positions whose parent is `p`, in push order. */
  function Kids(es: seq<Entry>, p: Option<nat>): seq<nat> {
    if es == [] then [] else
    var last := |es| - 1;
    Kids(es[..last], p) + if es[last].parent == p then [last] else []
  }

  /** A forest laid out in preorder from position `base` on. */
  function Flatten(f: seq<SpanTree>, parent: Option<nat>, base: nat): seq<Entry>
    decreases f
  {
    if f == [] then [] else
    var kids := Flatten(f[0].kids, Some(base), base + 1);
    [Entry(parent, f[0].span)] + kids + Flatten(f[1..], parent, base + 1 + |kids|)
  }

  /** The arena after laying out one more forest under `parent`. */
  function Grow(es: seq<Entry>, f: seq<SpanTree>, parent: Option<nat>): seq<Entry> {
    es + Flatten(f, parent, |es|)
  }

  class ElidableForest {
    var nodes: seq<SpanNode>
    var roots: seq<nat>
    ghost var entries: seq<Entry>

    ghost predicate Valid()
      reads this
    {
      && |nodes| == |entries|
      && ParentsFirst(entries) && roots == Kids(entries, None)
      && forall i | 0 <= i < |nodes| :: nodes[i] == SpanNode(entries[i].span, Kids(entries, Some(i)))
    }

    constructor ()
      ensures Valid() && entries == []
    {
      nodes, roots, entries := [], [], [];
    }

    method Push(parent: Option<nat>, span: LineSpan) returns (idx: nat)
      requires Valid() && (parent.Some? ==> parent.value < |nodes|)
      modifies this
      ensures Valid() && idx == old(|entries|) && entries == old(entries) + [Entry(parent, span)]
    {
      hide Kids;
      idx := |nodes|;
      NoKidsYet(entries, idx);
      forall p ensures Kids(entries + [Entry(parent, span)], p)
        == Kids(entries, p) + (if p == parent then [idx] else []) {
        KidsSnoc(entries, Entry(parent, span), p);
      }
      nodes := nodes + [SpanNode(span, [])];
      match parent {
        case Some(p) => nodes := nodes[p := nodes[p].(children := nodes[p].children + [idx])];
        case None => roots := roots + [idx];
      }
      entries := entries + [Entry(parent, span)];
    }

    /** Push the span of one run of groupable siblings, if it has one. */
    method FlushGroupableRun(cs: seq<Node>, a: nat, b: nat, parent: Option<nat>, lim: Limits)
      requires Valid() && a <= b <= |cs| && (parent.Some? ==> parent.value < |nodes|)
      modifies this
      ensures Valid() && old(|nodes|) <= |nodes|
      ensures entries == Grow(old(entries), LeafOf(RunSpan(cs, a, b, lim)), parent)
    {
      GrowNothing(entries, parent);
      if b - a < 2 { return; }
      var first, last := cs[a], cs[b - 1];
      var spanLines := SatSub(EndLine(last), StartLine(first)) + 1;
      if spanLines < lim.minBody { return; }
      var firstContentEnd := Min(ContentEndLine(first), SatSub(StartLine(last), 1));
      var start, end := firstContentEnd + 1, SatSub(StartLine(last), 1);
      if start <= end {
        GrowLeaf(entries, LineSpan(start, end), parent);
        var _ := Push(parent, LineSpan(start, end));
      }
    }

    /** First part of the walk inside a node: its runs of groupable children. */
    method CollectRuns(cs: seq<Node>, parent: Option<nat>, lim: Limits)
      requires Valid() && (parent.Some? ==> parent.value < |nodes|)
      modifies this
      ensures Valid() && old(|nodes|) <= |nodes|
      ensures entries == Grow(old(entries), RunForest(cs, Runs(cs, 0, 0), lim), parent)
    {
      hide Flatten, Grow, RunSpan, Runs, RunForest, LeafOf, Kids;
      var runFirst, index := 0, 0;
      ghost var goal := Grow(entries, RunForest(cs, Runs(cs, 0, 0), lim), parent);
      while index < |cs|
        invariant runFirst <= index <= |cs| && Valid() && old(|nodes|) <= |nodes|
        invariant goal == Grow(entries, RunForest(cs, Runs(cs, runFirst, index), lim), parent)
      {
        if !cs[index].groupable {
          ghost var rest := RunForest(cs, Runs(cs, index + 1, index + 1), lim);
          GrowConcat(entries, LeafOf(RunSpan(cs, runFirst, index, lim)), rest, parent);
          RunForestStep(cs, runFirst, index, lim);
          FlushGroupableRun(cs, runFirst, index, parent, lim);
          runFirst := index + 1;
        } else {
          RunGoesOn(cs, runFirst, index);
        }
        index := index + 1;
      }
      RunForestLast(cs, runFirst, lim);
      FlushGroupableRun(cs, runFirst, |cs|, parent, lim);
    }

    /** Second part: each child in turn. */
    method CollectChildren(cs: seq<Node>, parent: Option<nat>, lim: Limits)
      requires Valid() && (parent.Some? ==> parent.value < |nodes|)
      modifies this
      ensures Valid() && old(|nodes|) <= |nodes|
      ensures entries == Grow(old(entries), Forests(cs, lim), parent)
      decreases cs, 0
    {
      hide Flatten, Grow, Forest;
      ghost var grouped := entries;
      GrowNothing(grouped, parent);
      assert cs[..0] == [];
      for index := 0 to |cs|
        invariant Valid() && old(|nodes|) <= |nodes|
        invariant entries == Grow(grouped, Forests(cs[..index], lim), parent)
      {
        assert cs[..index + 1][..index] == cs[..index];
        GrowConcat(grouped, Forests(cs[..index], lim), Forest(cs[index], lim), parent);
        CollectElidableTree(cs[index], parent, lim);
      }
      assert cs[..|cs|] == cs;
    }

    method CollectComment(n: Node, parent: Option<nat>, lim: Limits)
      requires Valid() && (parent.Some? ==> parent.value < |nodes|) && n.comment
      modifies this
      ensures Valid() && old(|nodes|) <= |nodes|
      ensures entries == Grow(old(entries), Forest(n, lim), parent)
    {
      hide Flatten, Grow, Kids;
      GrowNothing(entries, parent);
      if LineCount(n) >= lim.minComment {
        var start, end := StartLine(n) + 2, SatSub(EndLine(n), 1);
        if start <= end {
          GrowLeaf(entries, LineSpan(start, end), parent);
          var _ := Push(parent, LineSpan(start, end));
        }
      }
    }

    /** The walk: it appends the node's forest, in preorder, under `parent`. */
    method CollectElidableTree(n: Node, parent: Option<nat>, lim: Limits)
      requires Valid() && (parent.Some? ==> parent.value < |nodes|)
      modifies this
      ensures Valid() && old(|nodes|) <= |nodes|
      ensures entries == Grow(old(entries), Forest(n, lim), parent)
      decreases n, 1
    {
      hide Flatten, Grow, Kids, Forest, Forests, RunForest, Runs;
      if n.comment {
        CollectComment(n, parent, lim);
        return;
      }
      GrowForest(entries, n, lim, parent);
      var currentParent := parent;
      if n.elidable && LineCount(n) >= lim.minBody {
        var start, end := StartLine(n) + 1, SatSub(EndLine(n), 1);
        if start <= end {
          var idx := Push(parent, LineSpan(start, end));
          currentParent := Some(idx);
        }
      }
      GrowConcat(entries, RunForest(n.children, Runs(n.children, 0, 0), lim), Forests(n.children, lim), currentParent);
      CollectRuns(n.children, currentParent, lim);
      CollectChildren(n.children, currentParent, lim);
    }
  }

  // ---------------------------------------------------------------- layout

  lemma {:induction false} KidsSnoc(es: seq<Entry>, e: Entry, p: Option<nat>)
    ensures Kids(es + [e], p) == Kids(es, p) + (if p == e.parent then [|es|] else [])
  {
    assert (es + [e])[..|es|] == es;
  }

  lemma {:induction false} NoKidsYet(es: seq<Entry>, idx: nat)
    requires ParentsFirst(es) && |es| <= idx
    ensures Kids(es, Some(idx)) == []
  {
    if es != [] { NoKidsYet(es[..|es| - 1], idx); }
  }

  lemma {:induction false} RunForestStep(cs: seq<Node>, a: nat, i: nat, lim: Limits)
    requires a <= i < |cs| && !cs[i].groupable
    ensures RunForest(cs, Runs(cs, a, i), lim)
      == LeafOf(RunSpan(cs, a, i, lim)) + RunForest(cs, Runs(cs, i + 1, i + 1), lim)
  {
    var rest := Runs(cs, i + 1, i + 1);
    assert Runs(cs, a, i) == [(a, i)] + rest;
    assert ([(a, i)] + rest)[1..] == rest;
  }

  lemma {:induction false} RunGoesOn(cs: seq<Node>, a: nat, i: nat)
    requires a <= i < |cs| && cs[i].groupable
    ensures Runs(cs, a, i) == Runs(cs, a, i + 1)
  {
  }

  lemma {:induction false} RunForestLast(cs: seq<Node>, a: nat, lim: Limits)
    requires a <= |cs|
    ensures RunForest(cs, Runs(cs, a, |cs|), lim) == LeafOf(RunSpan(cs, a, |cs|, lim))
  {
    assert [(a, |cs|)][1..] == [];
  }

  lemma {:induction false} GrowNothing(es: seq<Entry>, parent: Option<nat>)
    ensures Grow(es, [], parent) == es
  {
  }

  lemma {:induction false} GrowLeaf(es: seq<Entry>, span: LineSpan, parent: Option<nat>)
    ensures Grow(es, [SpanTree(span, [])], parent) == es + [Entry(parent, span)]
  {
    FlattenOne(SpanTree(span, []), parent, |es|);
  }

  lemma {:induction false} FlattenOne(t: SpanTree, parent: Option<nat>, base: nat)
    ensures Flatten([t], parent, base) == [Entry(parent, t.span)] + Flatten(t.kids, Some(base), base + 1)
  {
    var kids := Flatten(t.kids, Some(base), base + 1);
    assert [t][1..] == [];
    assert Flatten([t], parent, base) == [Entry(parent, t.span)] + kids + Flatten([], parent, base + 1 + |kids|);
  }

  lemma {:induction false} GrowConcat(es: seq<Entry>, f: seq<SpanTree>, g: seq<SpanTree>, parent: Option<nat>)
    ensures Grow(es, f + g, parent) == Grow(Grow(es, f, parent), g, parent)
  {
    FlattenConcat(f, g, parent, |es|);
  }

  /** A node's own span heads the layout of what lies inside it. */
  lemma {:induction false} GrowForest(es: seq<Entry>, n: Node, lim: Limits, parent: Option<nat>)
    requires !n.comment
    ensures Grow(es, Forest(n, lim), parent) ==
      match BodySpan(n, lim)
      case None => Grow(es, Interior(n, lim), parent)
      case Some(span) => Grow(es + [Entry(parent, span)], Interior(n, lim), Some(|es|))
  {
    hide Interior, Flatten, BodySpan;
    if BodySpan(n, lim).Some? {
      var t := SpanTree(BodySpan(n, lim).value, Interior(n, lim));
      assert Forest(n, lim) == [t];
      FlattenOne(t, parent, |es|);
    }
  }

  lemma {:induction false} FlattenConcat(f: seq<SpanTree>, g: seq<SpanTree>, parent: Option<nat>, base: nat)
    ensures Flatten(f + g, parent, base)
      == Flatten(f, parent, base) + Flatten(g, parent, base + |Flatten(f, parent, base)|)
    decreases |f|
  {
    hide *;
    if f == [] {
      EmptyLayout(parent, base);
      assert f + g == g;
    } else {
      var head := [Entry(parent, f[0].span)] + Flatten(f[0].kids, Some(base), base + 1);
      assert (f + g)[1..] == f[1..] + g && (f + g)[0] == f[0];
      FlattenSteps(f, parent, base);
      FlattenSteps(f + g, parent, base);
      FlattenConcat(f[1..], g, parent, base + |head|);
      var rest := Flatten(f[1..], parent, base + |head|);
      assert base + |head + rest| == base + |head| + |rest|;
    }
  }

  // ---------------------------------------------------------------- laminar arenas

  /** Children inside their parents, read off parent links. */
  ghost predicate NestedArena(es: seq<Entry>) {
    && ParentsFirst(es)
    && forall i | 0 <= i < |es| && es[i].parent.Some? :: Within(es[i].span, es[es[i].parent.value].span)
  }

  ghost predicate SiblingsDisjoint(es: seq<Entry>) {
    forall i, j | 0 <= i < j < |es| && es[i].parent == es[j].parent :: Apart(es[i].span, es[j].span)
  }

  ghost predicate LaminarArena(es: seq<Entry>) {
    NestedArena(es) && SiblingsDisjoint(es)
  }

  /** Nesting, for a stretch laid out at `base` under `parent`. */
  ghost predicate Stretch(es: seq<Entry>, parent: Option<nat>, base: nat) {
    forall i | 0 <= i < |es| && es[i].parent != parent ::
      es[i].parent.Some? && base <= es[i].parent.value < base + i
      && Within(es[i].span, es[es[i].parent.value - base].span)
  }

  lemma {:induction false} FlattenTops(f: seq<SpanTree>, parent: Option<nat>, base: nat, e: Entry)
    requires parent.Some? ==> parent.value < base
    requires e in Flatten(f, parent, base)
    ensures e.parent == parent ==> exists t :: t in f && t.span == e.span
    ensures e.parent != parent ==> e.parent.Some? && base <= e.parent.value < base + |Flatten(f, parent, base)|
    decreases f
  {
    var kids := Flatten(f[0].kids, Some(base), base + 1);
    var rest := Flatten(f[1..], parent, base + 1 + |kids|);
    assert Flatten(f, parent, base) == [Entry(parent, f[0].span)] + kids + rest;
    if e in kids {
      FlattenTops(f[0].kids, Some(base), base + 1, e);
    } else if e in rest {
      FlattenTops(f[1..], parent, base + 1 + |kids|, e);
      if e.parent == parent {
        var t :| t in f[1..] && t.span == e.span;
        assert t in f;
      }
    } else {
      assert f[0] in f;
    }
  }

  /** Every tree of the forest stands in its layout. */
  lemma {:induction false} TopsLaidOut(f: seq<SpanTree>, parent: Option<nat>, base: nat, t: SpanTree)
    requires t in f
    ensures Entry(parent, t.span) in Flatten(f, parent, base)
    decreases |f|
  {
    FlattenSteps(f, parent, base);
    if t != f[0] { TopsLaidOut(f[1..], parent, base + 1 + |Flatten(f[0].kids, Some(base), base + 1)|, t); }
  }

  lemma {:induction false} FlattenNested(f: seq<SpanTree>, parent: Option<nat>, base: nat)
    requires (forall t <- f :: Contained(t)) && (parent.Some? ==> parent.value < base)
    ensures Stretch(Flatten(f, parent, base), parent, base)
    decreases f
  {
    hide Flatten, Contained, Stretch;
    if f == [] {
      EmptyLayout(parent, base);
    } else {
      var kids := Flatten(f[0].kids, Some(base), base + 1);
      var rest := Flatten(f[1..], parent, base + 1 + |kids|);
      ContainedParts(f);
      FlattenNested(f[0].kids, Some(base), base + 1);
      FlattenNested(f[1..], parent, base + 1 + |kids|);
      KidsInside(f[0], base);
      RestBeyond(f, parent, base + 1 + |kids|);
      FlattenSteps(f, parent, base);
      NestedJoin(Entry(parent, f[0].span), kids, rest, parent, base);
    }
  }

  /** The layout keeps siblings apart exactly when the forest does. */
  lemma {:induction false} FlattenApart(f: seq<SpanTree>, parent: Option<nat>, base: nat)
    requires parent.Some? ==> parent.value < base
    ensures SiblingsDisjoint(Flatten(f, parent, base)) <==> Laminar(f)
    decreases f
  {
    hide Flatten, Laminar, SiblingsDisjoint;
    EmptyLayout(parent, base);
    LaminarNone();
    if f != [] {
      var kids := Flatten(f[0].kids, Some(base), base + 1);
      var next := base + 1 + |kids|;
      FlattenApart(f[0].kids, Some(base), base + 1);
      FlattenApart(f[1..], parent, next);
      LaminarSteps(f);
      FlattenSteps(f, parent, base);
      KidsBelow(f[0], base);
      RestBeyond(f, parent, next);
      HeadApart(f, parent, next);
      ApartJoin(Entry(parent, f[0].span), kids, Flatten(f[1..], parent, next), parent, base);
    }
  }

  lemma {:induction false} LaminarNone()
    ensures Laminar([])
  {
  }

  lemma {:induction false} LaminarSteps(f: seq<SpanTree>)
    requires f != []
    ensures Laminar(f) <==>
      Laminar(f[0].kids) && Laminar(f[1..]) && forall t <- f[1..] :: Apart(f[0].span, t.span)
  {
    var rest := f[1..];
    assert LaminarTree(f[0]) <==> Laminar(f[0].kids);
    assert forall i | 0 <= i < |rest| :: rest[i] == f[i + 1];
    assert forall t :: t in f <==> t == f[0] || t in rest;
    if Laminar(f) {
      assert forall i, j | 0 <= i < j < |rest| :: Apart(rest[i].span, rest[j].span);
      forall t <- rest ensures Apart(f[0].span, t.span) {
        var i :| 0 <= i < |rest| && rest[i] == t;
        assert Apart(f[0].span, f[i + 1].span);
      }
    }
    if Laminar(rest) && forall t <- rest :: Apart(f[0].span, t.span) {
      forall i, j | 0 <= i < j < |f| ensures Apart(f[i].span, f[j].span) {
        assert f[j] == rest[j - 1] && rest[j - 1] in rest;
        if i > 0 { assert f[i] == rest[i - 1]; }
      }
    }
  }

  lemma {:induction false} EmptyLayout(parent: Option<nat>, base: nat)
    ensures Flatten([], parent, base) == [] && Stretch([], parent, base) && SiblingsDisjoint([])
  {
  }

  lemma {:induction false} FlattenSteps(f: seq<SpanTree>, parent: Option<nat>, base: nat)
    requires f != []
    ensures var kids := Flatten(f[0].kids, Some(base), base + 1);
      Flatten(f, parent, base)
        == [Entry(parent, f[0].span)] + kids + Flatten(f[1..], parent, base + 1 + |kids|)
  {
  }

  lemma {:induction false} ContainedParts(f: seq<SpanTree>)
    requires f != [] && forall t <- f :: Contained(t)
    ensures forall t <- f[0].kids :: Within(t.span, f[0].span) && Contained(t)
    ensures forall t <- f[1..] :: Contained(t)
  {
    assert Contained(f[0]);
  }

  ghost predicate Below(es: seq<Entry>, base: nat, next: nat) {
    forall e <- es :: e.parent.Some? && base <= e.parent.value < next
  }

  ghost predicate Beyond(es: seq<Entry>, parent: Option<nat>, next: nat) {
    forall e <- es :: e.parent == parent || (e.parent.Some? && next <= e.parent.value)
  }

  lemma {:induction false} KidsBelow(t: SpanTree, base: nat)
    ensures var kids := Flatten(t.kids, Some(base), base + 1); Below(kids, base, base + 1 + |kids|)
  {
    var kids := Flatten(t.kids, Some(base), base + 1);
    forall e <- kids ensures e.parent.Some? && base <= e.parent.value < base + 1 + |kids| {
      FlattenTops(t.kids, Some(base), base + 1, e);
    }
  }

  lemma {:induction false} KidsInside(t: SpanTree, base: nat)
    requires forall k <- t.kids :: Within(k.span, t.span)
    ensures var kids := Flatten(t.kids, Some(base), base + 1);
      && Below(kids, base, base + 1 + |kids|)
      && forall e <- kids :: e.parent == Some(base) ==> Within(e.span, t.span)
  {
    KidsBelow(t, base);
    forall e <- Flatten(t.kids, Some(base), base + 1) | e.parent == Some(base) ensures Within(e.span, t.span) {
      FlattenTops(t.kids, Some(base), base + 1, e);
    }
  }

  lemma {:induction false} RestBeyond(f: seq<SpanTree>, parent: Option<nat>, next: nat)
    requires f != [] && (parent.Some? ==> parent.value < next)
    ensures Beyond(Flatten(f[1..], parent, next), parent, next)
  {
    forall e <- Flatten(f[1..], parent, next) ensures e.parent == parent || (e.parent.Some? && next <= e.parent.value) {
      FlattenTops(f[1..], parent, next, e);
    }
  }

  lemma {:induction false} HeadApart(f: seq<SpanTree>, parent: Option<nat>, next: nat)
    requires f != [] && (parent.Some? ==> parent.value < next)
    ensures (forall t <- f[1..] :: Apart(f[0].span, t.span)) <==>
      forall e <- Flatten(f[1..], parent, next) :: e.parent == parent ==> Apart(f[0].span, e.span)
  {
    var rest := Flatten(f[1..], parent, next);
    if forall t <- f[1..] :: Apart(f[0].span, t.span) {
      forall e <- rest | e.parent == parent ensures Apart(f[0].span, e.span) {
        FlattenTops(f[1..], parent, next, e);
      }
    }
    if forall e <- rest :: e.parent == parent ==> Apart(f[0].span, e.span) {
      forall t <- f[1..] ensures Apart(f[0].span, t.span) {
        TopsLaidOut(f[1..], parent, next, t);
        assert Entry(parent, t.span) in rest;
      }
    }
  }

  lemma {:induction false} NestedJoin(head: Entry, kids: seq<Entry>, rest: seq<Entry>, parent: Option<nat>, base: nat)
    requires head.parent == parent && (parent.Some? ==> parent.value < base)
    requires Stretch(kids, Some(base), base + 1) && Stretch(rest, parent, base + 1 + |kids|)
    requires Below(kids, base, base + 1 + |kids|) && Beyond(rest, parent, base + 1 + |kids|)
    requires forall e <- kids :: e.parent == Some(base) ==> Within(e.span, head.span)
    ensures Stretch([head] + kids + rest, parent, base)
  {
    var es, n := [head] + kids + rest, 1 + |kids|;
    forall i | 0 <= i < |es| && es[i].parent != parent
      ensures es[i].parent.Some? && base <= es[i].parent.value < base + i
      ensures Within(es[i].span, es[es[i].parent.value - base].span)
    {
      if i < n {
        assert es[i] == kids[i - 1] && es[i] in kids;
      } else {
        assert es[i] == rest[i - n];
      }
    }
  }

  lemma {:induction false} ApartJoin(head: Entry, kids: seq<Entry>, rest: seq<Entry>, parent: Option<nat>, base: nat)
    requires head.parent == parent && (parent.Some? ==> parent.value < base)
    requires Below(kids, base, base + 1 + |kids|) && Beyond(rest, parent, base + 1 + |kids|)
    ensures SiblingsDisjoint([head] + kids + rest) <==>
      && SiblingsDisjoint(kids) && SiblingsDisjoint(rest)
      && forall e <- rest :: e.parent == parent ==> Apart(head.span, e.span)
  {
    var es, n := [head] + kids + rest, 1 + |kids|;
    if SiblingsDisjoint(es) {
      JoinedApart(head, kids, rest);
    }
    if && SiblingsDisjoint(kids) && SiblingsDisjoint(rest)
       && forall e <- rest :: e.parent == parent ==> Apart(head.span, e.span)
    {
      forall i, j | 0 <= i < j < |es| && es[i].parent == es[j].parent ensures Apart(es[i].span, es[j].span) {
        if 0 < i < n { assert es[i] == kids[i - 1] && es[i] in kids; }
        if j < n {
          assert es[j] == kids[j - 1] && es[j] in kids;
        } else {
          assert es[j] == rest[j - n] && es[j] in rest;
          if i >= n { assert es[i] == rest[i - n]; }
        }
      }
    }
  }

  lemma {:induction false} JoinedApart(head: Entry, kids: seq<Entry>, rest: seq<Entry>)
    requires SiblingsDisjoint([head] + kids + rest)
    ensures SiblingsDisjoint(kids) && SiblingsDisjoint(rest)
    ensures forall e <- rest :: e.parent == head.parent ==> Apart(head.span, e.span)
  {
    var es, n := [head] + kids + rest, 1 + |kids|;
    forall i, j | 0 <= i < j < |kids| && kids[i].parent == kids[j].parent ensures Apart(kids[i].span, kids[j].span) {
      assert es[i + 1] == kids[i] && es[j + 1] == kids[j];
    }
    forall i, j | 0 <= i < j < |rest| && rest[i].parent == rest[j].parent ensures Apart(rest[i].span, rest[j].span) {
      assert es[i + n] == rest[i] && es[j + n] == rest[j];
    }
    forall e <- rest | e.parent == head.parent ensures Apart(head.span, e.span) {
      var i :| 0 <= i < |rest| && rest[i] == e;
      assert es[0] == head && es[i + n] == e;
    }
  }

  ghost predicate Bounded(t: SpanTree, lo: nat, hi: nat) {
    Strictly(lo, t.span, hi) && forall k <- t.kids :: Bounded(k, lo, hi)
  }

  lemma {:induction false} ForestBounded(n: Node, lim: Limits, lo: nat, hi: nat)
    requires ValidTree(n) && lo <= StartLine(n) && EndLine(n) <= hi
    ensures forall t <- Forest(n, lim) :: Bounded(t, lo, hi)
    decreases n, 1
  {
    ForestRegion(n, lim);
    if !n.comment { InteriorBounded(n, lim, lo, hi); }
  }

  lemma {:induction false} InteriorBounded(n: Node, lim: Limits, lo: nat, hi: nat)
    requires ValidTree(n) && lo <= StartLine(n) && EndLine(n) <= hi
    ensures forall t <- Interior(n, lim) :: Bounded(t, lo, hi)
    decreases n, 0
  {
    InteriorRegion(n, lim);
    forall t <- Interior(n, lim) ensures Bounded(t, lo, hi) {
      if t in RunForest(n.children, Runs(n.children, 0, 0), lim) {
        InRunForest(n.children, Runs(n.children, 0, 0), lim, t);
      } else {
        InForests(n.children, lim, t);
        var k :| 0 <= k < |n.children| && t in Forest(n.children[k], lim);
        ChildLines(n, k);
        ForestBounded(n.children[k], lim, lo, hi);
      }
    }
  }

  lemma {:induction false} FlattenBounded(f: seq<SpanTree>, parent: Option<nat>, base: nat, lo: nat, hi: nat)
    requires forall t <- f :: Bounded(t, lo, hi)
    ensures forall e <- Flatten(f, parent, base) :: Strictly(lo, e.span, hi)
    decreases f
  {
    if f != [] {
      assert Bounded(f[0], lo, hi);
      FlattenBounded(f[0].kids, Some(base), base + 1, lo, hi);
      FlattenBounded(f[1..], parent, base + 1 + |Flatten(f[0].kids, Some(base), base + 1)|, lo, hi);
    }
  }

  /** A walk over a valid tree nests spans in the arena, strictly inside the tree's lines, and the
      arena is laminar exactly when the tree's runs are clean. */
  lemma {:induction false} CollectedLaminar(n: Node, lim: Limits)
    requires ValidTree(n)
    ensures NestedArena(Grow([], Forest(n, lim), None))
    ensures LaminarArena(Grow([], Forest(n, lim), None)) <==> CleanRuns(n, lim)
    ensures forall e <- Grow([], Forest(n, lim), None) :: Strictly(StartLine(n), e.span, EndLine(n))
  {
    ForestLaminar(n, lim);
    ForestContained(n, lim);
    ForestBounded(n, lim, StartLine(n), EndLine(n));
    FlattenNested(Forest(n, lim), None, 0);
    FlattenApart(Forest(n, lim), None, 0);
    FlattenBounded(Forest(n, lim), None, 0, StartLine(n), EndLine(n));
    hide *;
    ArenaOf(Forest(n, lim));
  }

  lemma {:induction false} ArenaOf(f: seq<SpanTree>)
    requires Stretch(Flatten(f, None, 0), None, 0)
    ensures Grow([], f, None) == Flatten(f, None, 0) && NestedArena(Grow([], f, None))
    ensures LaminarArena(Grow([], f, None)) <==> SiblingsDisjoint(Flatten(f, None, 0))
  {
    hide Flatten, SiblingsDisjoint;
    assert [] + Flatten(f, None, 0) == Flatten(f, None, 0);
  }
}
