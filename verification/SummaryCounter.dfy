/** What the unfold's counter counts: the lines left outside the folded spans, at every frontier of
    an arena exactly when the arena is laminar. */
module SummaryCounter {
  import opened Numbers
  import opened Optional
  import opened LineSpans
  import opened SummaryTree
  import opened SummaryLaminar
  import opened SummaryForest
  import opened SummaryUnfold

  /** The lines outside the spans of `f`. */
  function Remaining(es: seq<Entry>, f: set<nat>, total: nat): nat {
    |AllLines(total) - Covered(es, f, |es|)|
  }

  // ---------------------------------------------------------------- spans and lines

  ghost predicate Proper(es: seq<Entry>, f: set<nat>) {
    forall i <- f :: i < |es| && es[i].span.start <= es[i].span.end
  }

  lemma {:induction false} SubsetSize(a: set<nat>, b: set<nat>)
    requires a <= b
    ensures |a| <= |b|
    ensures |a| == |b| ==> a == b
  {
    assert b == a + (b - a);
    UnionSize(a, b - a);
    if |a| == |b| { assert b - a == {}; }
  }

  /** A union is short of the sum exactly when its parts meet. */
  lemma {:induction false} UnionShort(a: set<nat>, b: set<nat>)
    ensures |a + b| <= |a| + |b|
    ensures |a + b| == |a| + |b| <==> a !! b
  {
    assert a + b == a + (b - a) && b == (b * a) + (b - a);
    UnionSize(a, b - a);
    UnionSize(b * a, b - a);
    if |b * a| == 0 { assert b * a == {}; }
  }

  lemma {:induction false} CoveredStep(es: seq<Entry>, f: set<nat>, k: nat)
    requires 0 < k <= |es| && Proper(es, f)
    ensures Covered(es, f, k) == Covered(es, f, k - 1) + if k - 1 in f then LinesOf(es[k - 1].span) else {}
    ensures SumIn(es, f, k) == SumIn(es, f, k - 1) + if k - 1 in f then |LinesOf(es[k - 1].span)| else 0
  {
    if k - 1 in f { BetweenSize(es[k - 1].span.start, es[k - 1].span.end); }
  }

  /** Spans cover at most as many lines as they have together ... */
  lemma {:induction false} CoveredAtMost(es: seq<Entry>, f: set<nat>, k: nat)
    requires k <= |es| && Proper(es, f)
    ensures |Covered(es, f, k)| <= SumIn(es, f, k)
    ensures k == 0 ==> SumIn(es, f, k) == 0
  {
    if k > 0 {
      CoveredStep(es, f, k);
      hide *;
      CoveredAtMost(es, f, k - 1);
      if k - 1 in f { UnionShort(Covered(es, f, k - 1), LinesOf(es[k - 1].span)); }
    }
  }

  /** ... and as many when they are apart ... */
  lemma {:induction false} CoveredSize(es: seq<Entry>, f: set<nat>, k: nat)
    requires k <= |es| && AllApart(es, f)
    ensures |Covered(es, f, k)| == SumIn(es, f, k)
  {
    hide *;
    ApartProper(es, f);
    if k == 0 {
      CoveredAtMost(es, f, k);
    } else {
      CoveredStep(es, f, k);
      CoveredSize(es, f, k - 1);
      if k - 1 in f {
        ApartFromEarlier(es, f, k - 1);
        UnionSize(Covered(es, f, k - 1), LinesOf(es[k - 1].span));
      }
    }
  }

  lemma {:induction false} ApartProper(es: seq<Entry>, f: set<nat>)
    requires AllApart(es, f)
    ensures Proper(es, f)
  {
  }

  lemma {:induction false} ApartFromEarlier(es: seq<Entry>, f: set<nat>, k: nat)
    requires k < |es| && k in f && AllApart(es, f)
    ensures Covered(es, f, k) !! LinesOf(es[k].span)
  {
    forall l <- Covered(es, f, k) ensures l !in LinesOf(es[k].span) {
      CoveredHas(es, f, k, l);
    }
  }

  /** ... and fewer when two of them meet. */
  lemma {:induction false} CoveredFewer(es: seq<Entry>, f: set<nat>, i: nat, j: nat, k: nat)
    requires i < j < k <= |es| && i in f && j in f && Proper(es, f) && !Apart(es[i].span, es[j].span)
    ensures |Covered(es, f, k)| < SumIn(es, f, k)
  {
    hide *;
    if j == k - 1 {
      MeetsEarlier(es, f, i, j);
      CoveredAtMost(es, f, j);
    } else {
      CoveredFewer(es, f, i, j, k - 1);
    }
    CoveredStep(es, f, k);
    if k - 1 in f { UnionShort(Covered(es, f, k - 1), LinesOf(es[k - 1].span)); }
  }

  lemma {:induction false} MeetsEarlier(es: seq<Entry>, f: set<nat>, i: nat, j: nat)
    requires i < j < |es| && i in f && j in f && Proper(es, f) && !Apart(es[i].span, es[j].span)
    ensures !(Covered(es, f, j) !! LinesOf(es[j].span))
  {
    hide Between, Covered;
    var l := Max(es[i].span.start, es[j].span.start);
    CoveredHas(es, f, j, l);
    assert l in LinesOf(es[i].span) && l in LinesOf(es[j].span);
  }

  /** Spans cover as many lines as they have together exactly when they are apart. */
  lemma {:induction false} CoveredExact(es: seq<Entry>, f: set<nat>)
    requires Proper(es, f)
    ensures |Covered(es, f, |es|)| <= SumIn(es, f, |es|)
    ensures |Covered(es, f, |es|)| == SumIn(es, f, |es|) <==> AllApart(es, f)
  {
    CoveredAtMost(es, f, |es|);
    if AllApart(es, f) {
      CoveredSize(es, f, |es|);
    } else {
      var i, j :| i in f && j in f && i != j && !Apart(es[i].span, es[j].span);
      if i < j { CoveredFewer(es, f, i, j, |es|); } else { CoveredFewer(es, f, j, i, |es|); }
    }
  }

  lemma {:induction false} InsideFile(es: seq<Entry>, f: set<nat>, total: nat)
    requires InRange(es, total) && forall i <- f :: i < |es|
    ensures Covered(es, f, |es|) <= AllLines(total) && Proper(es, f)
    ensures Remaining(es, f, total) + |Covered(es, f, |es|)| == total
  {
    var c := Covered(es, f, |es|);
    forall i <- f ensures es[i].span.start <= es[i].span.end { assert es[i] in es; }
    forall l <- c ensures l in AllLines(total) { CoveredHas(es, f, |es|, l); }
    BetweenSize(1, total);
    UnionSize(AllLines(total) - c, c);
    assert (AllLines(total) - c) + c == AllLines(total);
  }

  /** The lines outside the spans are the total less the spans' lengths exactly when the spans are
      apart. */
  lemma {:induction false} VisibleExact(es: seq<Entry>, f: set<nat>, total: nat)
    requires InRange(es, total) && forall i <- f :: i < |es|
    ensures Remaining(es, f, total) + SumIn(es, f, |es|) >= total
    ensures Remaining(es, f, total) + SumIn(es, f, |es|) == total <==> AllApart(es, f)
  {
    InsideFile(es, f, total);
    CoveredExact(es, f);
  }

  lemma {:induction false} RootsSum(es: seq<Entry>)
    ensures SumLines(es, Kids(es, None)) == SumIn(es, KidSet(es, None), |es|)
  {
    KidsSum(es, None, |es|);
    assert es[..|es|] == es;
  }

  /** The counter starts right exactly when the roots are apart, or cover every line. */
  lemma {:induction false} InitialExact(es: seq<Entry>, total: nat)
    requires InRange(es, total)
    ensures InitialVisible(es, total) == Remaining(es, KidSet(es, None), total) <==>
      AllApart(es, KidSet(es, None)) || AllLines(total) <= Covered(es, KidSet(es, None), |es|)
  {
    var roots := KidSet(es, None);
    RootsSum(es);
    VisibleExact(es, roots, total);
    InsideFile(es, roots, total);
    BetweenSize(1, total);
    SubsetSize(Covered(es, roots, |es|), AllLines(total));
  }

  // ---------------------------------------------------------------- one opening

  lemma {:induction false} KidsTotal(es: seq<Entry>, p: nat)
    ensures SumLines(es, Kids(es, Some(p))) == SumIn(es, KidSet(es, Some(p)), |es|)
  {
    KidsSum(es, Some(p), |es|);
    assert es[..|es|] == es;
  }

  /** Swapping a span for its children: never less is revealed than the lengths say. */
  lemma {:induction false} SwapShows(es: seq<Entry>, folded: set<nat>, p: nat)
    requires p in folded && p < |es| && KidSet(es, Some(p)) !! folded
    ensures SumIn(es, folded - {p} + KidSet(es, Some(p)), |es|) + Reveal(es, p) >= SumIn(es, folded, |es|)
    ensures SumIn(es, KidSet(es, Some(p)), |es|) <= LinesAt(es, p) ==>
      SumIn(es, folded - {p} + KidSet(es, Some(p)), |es|) + Reveal(es, p) == SumIn(es, folded, |es|)
  {
    KidsTotal(es, p);
    SumInUnion(es, folded - {p}, KidSet(es, Some(p)), |es|);
    SumInUnion(es, folded - {p}, {p}, |es|);
    SumInOne(es, p, |es|);
    assert folded - {p} + {p} == folded;
  }

  /** The last opening taken back: `m` is open and none of its children is. */
  lemma {:induction false} FrontierBack(es: seq<Entry>, unfolded: set<nat>, folded: set<nat>, m: nat)
    requires ParentsFirst(es) && IsFrontier(es, unfolded, folded)
    requires m in unfolded && KidSet(es, Some(m)) !! unfolded
    ensures var before := folded - KidSet(es, Some(m)) + {m};
      && m < |es| && IsFrontier(es, unfolded - {m}, before) && m in before && m !in folded
      && KidSet(es, Some(m)) !! before && folded == before - {m} + KidSet(es, Some(m))
    ensures unfolded == unfolded - {m} + {m}
  {
  }

  lemma {:induction false} LastOf(s: set<nat>) returns (m: nat)
    requires s != {}
    ensures m in s && forall i <- s :: i <= m
  {
    m :| m in s;
    if i :| i in s && i > m {
      var rest := s - {m};
      assert i in rest && forall j <- s :: j == m || j in rest;
      m := LastOf(rest);
    }
  }

  /** Opening more spans shows at least as many lines as their lengths say. */
  lemma {:induction false} OpeningShows(
    es: seq<Entry>, few: set<nat>, fewFolded: set<nat>, many: set<nat>, manyFolded: set<nat>)
    requires ParentsFirst(es) && few <= many
    requires IsFrontier(es, few, fewFolded) && IsFrontier(es, many, manyFolded)
    ensures Revealed(es, many, |es|) + SumIn(es, manyFolded, |es|)
      >= Revealed(es, few, |es|) + SumIn(es, fewFolded, |es|)
    decreases many
  {
    if few == many {
      assert fewFolded == manyFolded;
    } else {
      assert many == few + (many - few);
      var m := LastOf(many - few);
      var before := manyFolded - KidSet(es, Some(m)) + {m};
      LastHasNoOpenKids(es, few, many, m);
      FrontierBack(es, many, manyFolded, m);
      OpeningShows(es, few, fewFolded, many - {m}, before);
      RevealedMore(es, many - {m}, m, |es|);
      SwapShows(es, before, m);
    }
  }

  lemma {:induction false} LastHasNoOpenKids(es: seq<Entry>, few: set<nat>, many: set<nat>, m: nat)
    requires ParentsFirst(es) && OpenUpward(es, few) && few <= many
    requires m in many - few && forall i <- many - few :: i <= m
    ensures KidSet(es, Some(m)) !! many
  {
    forall i <- KidSet(es, Some(m)) ensures i !in many {
      assert i in few ==> m in few;
      assert i in many ==> i in many - few;
    }
  }

  // ---------------------------------------------------------------- laminar arenas

  ghost predicate Counting(es: seq<Entry>, total: nat) {
    LaminarArena(es) && InRange(es, total)
  }

  lemma {:induction false} SiblingsApart(es: seq<Entry>, p: Option<nat>)
    requires LaminarArena(es) && forall e <- es :: e.span.start <= e.span.end
    ensures AllApart(es, KidSet(es, p))
  {
    var kids := KidSet(es, p);
    forall i <- kids ensures i < |es| && es[i].span.start <= es[i].span.end {
      assert es[i] in es;
    }
    forall i, j | i in kids && j in kids && i != j ensures Apart(es[i].span, es[j].span) {
      assert i < j ==> Apart(es[i].span, es[j].span);
      assert j < i ==> Apart(es[j].span, es[i].span);
    }
  }

  /** Children of a laminar arena fit into their parent. */
  lemma {:induction false} KidsFit(es: seq<Entry>, p: nat)
    requires LaminarArena(es) && p < |es| && forall e <- es :: e.span.start <= e.span.end
    ensures SumIn(es, KidSet(es, Some(p)), |es|) <= LinesAt(es, p)
  {
    var kids, c := KidSet(es, Some(p)), Covered(es, KidSet(es, Some(p)), |es|);
    SiblingsApart(es, Some(p));
    CoveredSize(es, kids, |es|);
    forall l <- c ensures l in LinesOf(es[p].span) {
      CoveredHas(es, kids, |es|, l);
    }
    SubsetSize(c, LinesOf(es[p].span));
    BetweenSize(es[p].span.start, es[p].span.end);
  }

  lemma {:induction false} ApartStep(es: seq<Entry>, folded: set<nat>, p: nat)
    requires LaminarArena(es) && (forall e <- es :: e.span.start <= e.span.end)
    requires AllApart(es, folded) && p in folded
    ensures AllApart(es, folded - {p} + KidSet(es, Some(p)))
  {
    var kids := KidSet(es, Some(p));
    var next := folded - {p} + kids;
    SiblingsApart(es, Some(p));
    forall i, j | i in next && j in next && i != j ensures Apart(es[i].span, es[j].span) {
      assert i in kids ==> Within(es[i].span, es[p].span);
      assert j in kids ==> Within(es[j].span, es[p].span);
    }
  }

  /** The balance: disjoint folded spans, and what is shown plus their lengths is the total. */
  ghost predicate Balanced(es: seq<Entry>, folded: set<nat>, total: nat, visible: nat) {
    AllApart(es, folded) && visible + SumIn(es, folded, |es|) == total
  }

  /** In a laminar arena one opening keeps the balance, and neither saturation fires. */
  lemma {:induction false} BalancedStep(
    es: seq<Entry>, folded: set<nat>, unfolded: set<nat>, total: nat, visible: nat, p: nat)
    requires Counting(es, total) && IsFrontier(es, unfolded, folded) && p in folded && total <= U32_MAX
    requires Balanced(es, folded, total, visible)
    ensures Balanced(es, folded - {p} + KidSet(es, Some(p)), total, SatAdd(visible, Reveal(es, p)))
    ensures visible + Reveal(es, p) <= total && SumLines(es, Kids(es, Some(p))) <= LinesAt(es, p)
  {
    FrontierStep(es, unfolded, folded, p);
    KidsFit(es, p);
    KidsTotal(es, p);
    SwapShows(es, folded, p);
    ApartStep(es, folded, p);
  }

  lemma {:induction false} RootsBalanced(es: seq<Entry>, total: nat)
    requires Counting(es, total)
    ensures Balanced(es, KidSet(es, None), total, InitialVisible(es, total))
  {
    SiblingsApart(es, None);
    RootsSum(es);
    InsideFile(es, KidSet(es, None), total);
    CoveredSize(es, KidSet(es, None), |es|);
  }

  /** At every frontier of a laminar arena the balance holds. */
  lemma {:induction false} FrontierBalanced(es: seq<Entry>, unfolded: set<nat>, folded: set<nat>, total: nat)
    requires Counting(es, total) && total <= U32_MAX && IsFrontier(es, unfolded, folded)
    ensures Balanced(es, folded, total, Shown(es, unfolded, total))
    decreases unfolded
  {
    if unfolded == {} {
      assert folded == KidSet(es, None);
      RootsBalanced(es, total);
      ShownFirst(es, total);
    } else {
      var m := LastOf(unfolded);
      var before := folded - KidSet(es, Some(m)) + {m};
      LastHasNoOpenKids(es, {}, unfolded, m);
      FrontierBack(es, unfolded, folded, m);
      hide Shown, Balanced, KidSet, LaminarArena, IsFrontier;
      FrontierBalanced(es, unfolded - {m}, before, total);
      BalancedStep(es, before, unfolded - {m}, total, Shown(es, unfolded - {m}, total), m);
      ShownMore(es, unfolded - {m}, m, total);
    }
  }

  // ---------------------------------------------------------------- the exact condition

  /** The counter is right at every frontier the unfold could reach. */
  ghost predicate CountsEverywhere(es: seq<Entry>, total: nat) {
    forall unfolded, folded | IsFrontier(es, unfolded, folded) ::
      Shown(es, unfolded, total) == Remaining(es, folded, total)
  }

  lemma {:induction false} LaminarCounts(es: seq<Entry>, unfolded: set<nat>, folded: set<nat>, total: nat)
    requires Counting(es, total) && total <= U32_MAX && IsFrontier(es, unfolded, folded)
    ensures Shown(es, unfolded, total) == Remaining(es, folded, total)
  {
    FrontierBalanced(es, unfolded, folded, total);
    VisibleExact(es, folded, total);
  }

  ghost function Above(es: seq<Entry>, i: nat): set<nat>
    requires ParentsFirst(es) && i < |es|
  {
    set a: nat | a < |es| && Ancestor(es, a, i)
  }

  /** `i` and everything below it. */
  ghost function Under(es: seq<Entry>, i: nat): set<nat>
    requires ParentsFirst(es) && i < |es|
  {
    set d: nat | d < |es| && (d == i || Ancestor(es, i, d))
  }

  lemma {:induction false} AncestorBefore(es: seq<Entry>, a: nat, i: nat)
    requires ParentsFirst(es) && i < |es| && Ancestor(es, a, i)
    ensures a < i
    ensures es[a].parent.Some? ==> Ancestor(es, es[a].parent.value, i)
    decreases i
  {
    if es[i].parent.value != a { AncestorBefore(es, a, es[i].parent.value); }
  }

  /** Opening what lies above `i` folds `i`; opening all of `i` as well takes `i` out and leaves the
      rest folded. */
  lemma {:induction false} TwoFrontiers(es: seq<Entry>, i: nat)
    requires ParentsFirst(es) && i < |es|
    ensures var few, many := Above(es, i), Above(es, i) + Under(es, i);
      && IsFrontier(es, few, FrontierOf(es, few)) && i in FrontierOf(es, few)
      && IsFrontier(es, many, FrontierOf(es, few) - {i})
    ensures forall j: nat | j < |es| && es[j].parent == es[i].parent :: j in FrontierOf(es, Above(es, i))
  {
    var few, many, folded := Above(es, i), Above(es, i) + Under(es, i), FrontierOf(es, Above(es, i));
    forall a <- few ensures a < i && (es[a].parent.Some? ==> es[a].parent.value in few) {
      AncestorBefore(es, a, i);
    }
    forall d <- Under(es, i) ensures i <= d && (es[d].parent.Some? ==> es[d].parent.value in many) {
      if d != i { AncestorBefore(es, i, d); }
    }
    forall j: nat | j < |es| && es[j].parent == es[i].parent ensures j in folded {
      if j in few && es[i].parent.Some? && es[i].parent.value != j { AncestorBefore(es, j, es[i].parent.value); }
    }
    forall x ensures x in folded - {i} <==>
      0 <= x < |es| && x !in many && (es[x].parent.Some? ==> es[x].parent.value in many)
    {
      if 0 <= x < |es| && es[x].parent.Some? && es[x].parent.value in Under(es, i) {
        assert x in Under(es, i);
      }
    }
  }

  lemma {:induction false} CoveredWithout(es: seq<Entry>, folded: set<nat>, i: nat)
    requires i in folded && i < |es|
    ensures Covered(es, folded, |es|) == Covered(es, folded - {i}, |es|) + LinesOf(es[i].span)
  {
    hide Covered, Between;
    forall x: nat
      ensures x in Covered(es, folded, |es|) <==> x in Covered(es, folded - {i}, |es|) + LinesOf(es[i].span)
    {
      CoveredHas(es, folded, |es|, x);
      CoveredHas(es, folded - {i}, |es|, x);
    }
  }

  lemma {:induction false} MeetsRest(es: seq<Entry>, folded: set<nat>, i: nat, j: nat)
    requires i in folded && j in folded && i != j && i < |es| && j < |es| && Proper(es, folded)
    requires !Apart(es[i].span, es[j].span)
    ensures !(Covered(es, folded - {i}, |es|) !! LinesOf(es[i].span))
  {
    hide Covered, Between;
    var l := Max(es[i].span.start, es[j].span.start);
    CoveredHas(es, folded - {i}, |es|, l);
    assert l in LinesOf(es[i].span) && l in LinesOf(es[j].span);
  }

  /** Taking one of two folded spans that meet out frees fewer lines than it has. */
  lemma {:induction false} MeetingFreesFewer(es: seq<Entry>, folded: set<nat>, i: nat, j: nat, total: nat)
    requires InRange(es, total) && (forall k <- folded :: k < |es|)
    requires i in folded && j in folded && i != j && !Apart(es[i].span, es[j].span)
    ensures Remaining(es, folded - {i}, total) < Remaining(es, folded, total) + LinesAt(es, i)
    ensures Remaining(es, folded - {i}, total) < total
  {
    var rest := folded - {i};
    InsideFile(es, folded, total);
    InsideFile(es, rest, total);
    CoveredWithout(es, folded, i);
    MeetsRest(es, folded, i, j);
    BetweenSize(es[i].span.start, es[i].span.end);
    assert LinesAt(es, i) == |LinesOf(es[i].span)|;
    hide *;
    UnionShort(Covered(es, rest, |es|), LinesOf(es[i].span));
    assert Covered(es, rest, |es|) != {};
  }

  /** Two siblings that meet make the counter wrong at one of two frontiers. */
  lemma {:induction false} MeetingMiscounts(es: seq<Entry>, i: nat, j: nat, total: nat)
    requires NestedArena(es) && InRange(es, total) && total <= U32_MAX
    requires i < |es| && j < |es| && i != j && es[i].parent == es[j].parent && !Apart(es[i].span, es[j].span)
    ensures !CountsEverywhere(es, total)
  {
    var few, many, folded := Above(es, i), Above(es, i) + Under(es, i), FrontierOf(es, Above(es, i));
    TwoFrontiers(es, i);
    assert j in folded;
    OpeningShows(es, few, folded, many, folded - {i});
    SumInUnion(es, folded - {i}, {i}, |es|);
    SumInOne(es, i, |es|);
    assert folded - {i} + {i} == folded;
    MeetingFreesFewer(es, folded, i, j, total);
    hide IsFrontier, FrontierOf, Above, Under, Remaining, SumIn, Revealed;
    assert Shown(es, few, total) != Remaining(es, folded, total)
      || Shown(es, many, total) != Remaining(es, folded - {i}, total);
  }

  /** The counter is right at every frontier of a nested arena if and only if siblings are
      disjoint at every level. */
  lemma {:induction false} CounterExact(es: seq<Entry>, total: nat)
    requires NestedArena(es) && InRange(es, total) && total <= U32_MAX
    ensures CountsEverywhere(es, total) <==> LaminarArena(es)
  {
    if LaminarArena(es) {
      forall unfolded, folded | IsFrontier(es, unfolded, folded)
        ensures Shown(es, unfolded, total) == Remaining(es, folded, total)
      {
        LaminarCounts(es, unfolded, folded, total);
      }
    } else {
      var i, j :| 0 <= i < j < |es| && es[i].parent == es[j].parent && !Apart(es[i].span, es[j].span);
      MeetingMiscounts(es, i, j, total);
    }
  }
}
