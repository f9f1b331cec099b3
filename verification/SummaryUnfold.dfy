/** The budgeted breadth-first unfold: which spans stay folded.

    `unfolded` is the set of opened spans; what stays folded is always its frontier, the
    spans whose parent is open (or absent) and which are not open themselves. */
module SummaryUnfold {
  import opened Optional
  import opened LineSpans
  import opened SummaryTree
  import opened SummaryLaminar
  import opened SummaryForest

  // ---------------------------------------------------------------- sums of lines

  function LinesAt(es: seq<Entry>, i: nat): nat {
    if i < |es| then Lines(es[i].span) else 0
  }

  function SumLines(es: seq<Entry>, idx: seq<nat>): nat {
    if idx == [] then 0 else LinesAt(es, idx[0]) + SumLines(es, idx[1..])
  }

  /** Lines of the spans numbered below `k` that are in `f`. */
  function SumIn(es: seq<Entry>, f: set<nat>, k: nat): nat {
    if k == 0 then 0 else SumIn(es, f, k - 1) + if k - 1 in f then LinesAt(es, k - 1) else 0
  }

  lemma {:induction k} SumInUnion(es: seq<Entry>, f: set<nat>, g: set<nat>, k: nat)
    requires f !! g
    ensures SumIn(es, f + g, k) == SumIn(es, f, k) + SumIn(es, g, k)
  {
  }

  lemma {:induction k} SumInNone(es: seq<Entry>, f: set<nat>, k: nat)
    requires forall i | 0 <= i < k :: i !in f
    ensures SumIn(es, f, k) == 0
  {
  }

  lemma {:induction false} SumInOne(es: seq<Entry>, i: nat, k: nat)
    requires i < k
    ensures SumIn(es, {i}, k) == LinesAt(es, i)
  {
    if i == k - 1 { SumInNone(es, {i}, k - 1); } else { SumInOne(es, i, k - 1); }
  }

  lemma {:induction false} SumLinesConcat(es: seq<Entry>, a: seq<nat>, b: seq<nat>)
    ensures SumLines(es, a + b) == SumLines(es, a) + SumLines(es, b)
  {
    if a == [] {
      assert a + b == b;
    } else {
      assert (a + b)[1..] == a[1..] + b;
      SumLinesConcat(es, a[1..], b);
    }
  }

  function KidSet(es: seq<Entry>, p: Option<nat>): set<nat> {
    set i | 0 <= i < |es| && es[i].parent == p
  }

  lemma {:induction false} KidsMembers(es: seq<Entry>, p: Option<nat>)
    ensures forall i :: i in Kids(es, p) <==> i in KidSet(es, p)
    ensures forall i, j | 0 <= i < j < |Kids(es, p)| :: Kids(es, p)[i] < Kids(es, p)[j]
  {
    if es != [] {
      var last := |es| - 1;
      KidsMembers(es[..last], p);
      forall i ensures i in KidSet(es, p) <==>
        i in KidSet(es[..last], p) || (i == last && es[last].parent == p)
      {
      }
      var ks := Kids(es[..last], p);
      forall i | 0 <= i < |ks| ensures ks[i] < last {
        assert ks[i] in ks;
      }
    }
  }

  lemma {:induction false} KidsSum(es: seq<Entry>, p: Option<nat>, k: nat)
    requires k <= |es|
    ensures SumLines(es, Kids(es[..k], p)) == SumIn(es, KidSet(es, p), k)
  {
    if k > 0 {
      assert es[..k][..k - 1] == es[..k - 1];
      KidsSum(es, p, k - 1);
      SumLinesConcat(es, Kids(es[..k - 1], p), if es[k - 1].parent == p then [k - 1] else []);
      assert SumLines(es, [k - 1]) == LinesAt(es, k - 1) + SumLines(es, [k - 1][1..]);
      assert SumLines(es, []) == 0;
    }
  }

  // ---------------------------------------------------------------- lines covered

  function Covered(es: seq<Entry>, f: set<nat>, k: nat): set<nat>
    requires k <= |es|
  {
    if k == 0 then {} else Covered(es, f, k - 1) + if k - 1 in f then LinesOf(es[k - 1].span) else {}
  }

  lemma {:induction false} CoveredHas(es: seq<Entry>, f: set<nat>, k: nat, l: nat)
    requires k <= |es|
    ensures l in Covered(es, f, k) <==> exists i :: 0 <= i < k && i in f && l in LinesOf(es[i].span)
  {
    if k > 0 { CoveredHas(es, f, k - 1, l); }
  }

  ghost predicate AllApart(es: seq<Entry>, f: set<nat>) {
    && (forall i <- f :: i < |es| && es[i].span.start <= es[i].span.end)
    && forall i, j | i in f && j in f && i != j :: Apart(es[i].span, es[j].span)
  }

  ghost predicate InRange(es: seq<Entry>, total: nat) {
    forall e <- es :: 1 <= e.span.start <= e.span.end <= total
  }

  function AllLines(total: nat): set<nat> {
    Between(1, total)
  }

  // ---------------------------------------------------------------- the frontier

  ghost predicate OpenUpward(es: seq<Entry>, unfolded: set<nat>) {
    forall i <- unfolded :: i < |es| && (es[i].parent.Some? ==> es[i].parent.value in unfolded)
  }

  /** Closed spans all of whose ancestors are open. */
  ghost predicate IsFrontier(es: seq<Entry>, unfolded: set<nat>, folded: set<nat>) {
    OpenUpward(es, unfolded) &&
    forall i :: i in folded <==>
      0 <= i < |es| && i !in unfolded && (es[i].parent.Some? ==> es[i].parent.value in unfolded)
  }

  /** The frontier of a set of opened spans. */
  function FrontierOf(es: seq<Entry>, unfolded: set<nat>): set<nat> {
    set i | 0 <= i < |es| && i !in unfolded && (es[i].parent.Some? ==> es[i].parent.value in unfolded)
  }

  lemma {:induction false} FrontierIs(es: seq<Entry>, unfolded: set<nat>, folded: set<nat>)
    requires IsFrontier(es, unfolded, folded)
    ensures folded == FrontierOf(es, unfolded)
  {
  }

  /** `a` is a proper ancestor of `i`. */
  ghost predicate Ancestor(es: seq<Entry>, a: nat, i: nat)
    requires ParentsFirst(es) && i < |es|
    decreases i
  {
    es[i].parent.Some? && (es[i].parent.value == a || Ancestor(es, a, es[i].parent.value))
  }

  lemma {:induction false} AncestorsOpen(es: seq<Entry>, unfolded: set<nat>, a: nat, i: nat)
    requires ParentsFirst(es) && OpenUpward(es, unfolded) && i < |es|
    requires es[i].parent.Some? ==> es[i].parent.value in unfolded
    requires Ancestor(es, a, i)
    ensures a in unfolded
    decreases i
  {
    if es[i].parent.value != a {
      AncestorsOpen(es, unfolded, a, es[i].parent.value);
    }
  }

  /** The folded spans are an antichain whose ancestors are all unfolded. */
  lemma {:induction false} FrontierAntichain(es: seq<Entry>, unfolded: set<nat>, folded: set<nat>, a: nat, i: nat)
    requires ParentsFirst(es) && IsFrontier(es, unfolded, folded) && i in folded && Ancestor(es, a, i)
    ensures a in unfolded && a !in folded
  {
    AncestorsOpen(es, unfolded, a, i);
  }

  function Reveal(es: seq<Entry>, i: nat): nat {
    SatSub(LinesAt(es, i), SumLines(es, Kids(es, Some(i))))
  }

  /** Opening one folded span replaces it in the frontier by its children, all of them new. */
  lemma {:induction false} FrontierStep(es: seq<Entry>, unfolded: set<nat>, folded: set<nat>, p: nat)
    requires ParentsFirst(es) && IsFrontier(es, unfolded, folded) && p in folded
    ensures IsFrontier(es, unfolded + {p}, folded - {p} + KidSet(es, Some(p)))
    ensures KidSet(es, Some(p)) !! folded && KidSet(es, Some(p)) !! unfolded && p !in KidSet(es, Some(p))
  {
  }

  // ---------------------------------------------------------------- the unfold

  method SumOver(forest: ElidableForest, idx: seq<nat>) returns (sum: nat)
    requires forest.Valid() && forall i <- idx :: i < |forest.nodes|
    ensures sum == SumLines(forest.entries, idx)
  {
    sum := 0;
    assert idx[..0] == [];
    for k := 0 to |idx|
      invariant sum == SumLines(forest.entries, idx[..k])
    {
      assert idx[..k + 1] == idx[..k] + [idx[k]];
      SumLinesConcat(forest.entries, idx[..k], [idx[k]]);
      assert [idx[k]][1..] == [];
      assert idx[k] in idx;
      sum := sum + Lines(forest.nodes[idx[k]].span);
    }
    assert idx[..|idx|] == idx;
  }

  function InitialVisible(es: seq<Entry>, total: nat): nat {
    SatSub(total, SumLines(es, Kids(es, None)))
  }

  /** Lines revealed by opening the spans of `f` numbered below `k`. */
  function Revealed(es: seq<Entry>, f: set<nat>, k: nat): nat {
    if k == 0 then 0 else Revealed(es, f, k - 1) + if k - 1 in f then Reveal(es, k - 1) else 0
  }

  /** The counter once the spans of `unfolded` have been opened, whatever the order. */
  function Shown(es: seq<Entry>, unfolded: set<nat>, total: nat): nat {
    SatAdd(InitialVisible(es, total), Revealed(es, unfolded, |es|))
  }

  lemma {:induction k} RevealedMore(es: seq<Entry>, f: set<nat>, p: nat, k: nat)
    requires p !in f
    ensures Revealed(es, f + {p}, k) == Revealed(es, f, k) + if p < k then Reveal(es, p) else 0
  {
  }

  lemma {:induction false} ShownMore(es: seq<Entry>, unfolded: set<nat>, p: nat, total: nat)
    requires p !in unfolded && p < |es|
    ensures Shown(es, unfolded + {p}, total) == SatAdd(Shown(es, unfolded, total), Reveal(es, p))
    ensures Shown(es, unfolded, total) <= Shown(es, unfolded + {p}, total)
  {
    RevealedMore(es, unfolded, p, |es|);
  }

  lemma {:induction k} RevealedNone(es: seq<Entry>, k: nat)
    ensures Revealed(es, {}, k) == 0
  {
  }

  lemma {:induction false} ShownFirst(es: seq<Entry>, total: nat)
    requires total <= U32_MAX
    ensures Shown(es, {}, total) == InitialVisible(es, total)
  {
    RevealedNone(es, |es|);
  }

  /** Every span still folded would push the visible count past the limit. */
  ghost predicate AllRefused(es: seq<Entry>, folded: set<nat>, visible: nat, limit: nat) {
    forall i <- folded :: SatAdd(visible, Reveal(es, i)) > limit
  }

  function Depth(es: seq<Entry>, i: nat): nat {
    if i < |es| && es[i].parent.Some? && es[i].parent.value < i then 1 + Depth(es, es[i].parent.value) else 0
  }

  /** No opened span lies deeper than a folded one that could still be opened. */
  ghost predicate BreadthFirst(es: seq<Entry>, folded: set<nat>, unfolded: set<nat>, visible: nat, limit: nat) {
    forall u, i | u in unfolded && i in folded && SatAdd(visible, Reveal(es, i)) <= limit ::
      Depth(es, u) <= Depth(es, i)
  }

  /** Each span is queued at most once; what is folded is waiting or was refused. */
  ghost predicate Tracks(
    es: seq<Entry>, queue: seq<nat>, folded: set<nat>, unfolded: set<nat>, refused: set<nat>)
  {
    && (forall i, j | 0 <= i < j < |queue| :: queue[i] != queue[j])
    && (forall i <- queue :: i in folded && i !in refused)
    && (forall i <- folded :: i < |es| && (i in queue || i in refused))
    && unfolded !! folded && refused <= folded && (forall i <- unfolded :: i < |es|)
  }

  function Indices(es: seq<Entry>): (r: set<nat>)
    ensures forall i :: i in r <==> 0 <= i < |es|
  {
    if es == [] then {} else Between(0, |es| - 1)
  }

  lemma {:induction false} TracksRefuse(
    es: seq<Entry>, queue: seq<nat>, folded: set<nat>, unfolded: set<nat>, refused: set<nat>)
    requires queue != [] && Tracks(es, queue, folded, unfolded, refused)
    ensures Tracks(es, queue[1..], folded, unfolded, refused + {queue[0]})
  {
  }

  lemma {:induction false} TracksOpen(
    es: seq<Entry>, queue: seq<nat>, folded: set<nat>, unfolded: set<nat>, refused: set<nat>, kids: seq<nat>)
    requires queue != [] && Tracks(es, queue, folded, unfolded, refused)
    requires kids == Kids(es, Some(queue[0])) && ParentsFirst(es) && IsFrontier(es, unfolded, folded)
    ensures Tracks(es, queue[1..] + kids,
      folded - {queue[0]} + KidSet(es, Some(queue[0])), unfolded + {queue[0]}, refused)
  {
    var p, q := queue[0], queue[1..] + kids;
    KidsMembers(es, Some(p));
    FrontierStep(es, unfolded, folded, p);
    forall i, j | 0 <= i < j < |q| ensures q[i] != q[j] {
      if j >= |queue| - 1 && i < |queue| - 1 {
        assert q[i] == queue[i + 1] && queue[i + 1] in queue;
        assert q[j] in kids;
      }
    }
    forall i <- q ensures i in folded - {p} + KidSet(es, Some(p)) && i !in refused {
      if i in queue[1..] {
        var k :| 0 <= k < |queue[1..]| && queue[1..][k] == i;
        assert queue[k + 1] == i;
      }
    }
    forall i <- folded - {p} + KidSet(es, Some(p)) ensures i < |es| && (i in q || i in refused) {
      if i in folded && i in queue {
        var k :| 0 <= k < |queue| && queue[k] == i;
        assert queue[1..][k - 1] == i;
      }
    }
  }

  /** The queue goes level by level, and everything opened came before it. */
  ghost predicate ByLevel(es: seq<Entry>, queue: seq<nat>, unfolded: set<nat>) {
    && (forall i, j | 0 <= i < j < |queue| :: Depth(es, queue[i]) <= Depth(es, queue[j]))
    && (forall i <- queue :: Depth(es, i) <= Depth(es, queue[0]) + 1)
    && forall u, i | u in unfolded && i in queue :: Depth(es, u) <= Depth(es, i)
  }

  lemma {:induction false} RootsByLevel(es: seq<Entry>)
    ensures ByLevel(es, Kids(es, None), {})
  {
    KidsMembers(es, None);
    forall i <- Kids(es, None) ensures Depth(es, i) == 0 {
      assert i in KidSet(es, None);
    }
  }

  lemma {:induction false} ByLevelDrop(es: seq<Entry>, queue: seq<nat>, unfolded: set<nat>)
    requires queue != [] && ByLevel(es, queue, unfolded)
    ensures ByLevel(es, queue[1..], unfolded)
  {
    var rest := queue[1..];
    assert forall i | 0 <= i < |rest| :: rest[i] == queue[i + 1];
    assert rest != [] ==> Depth(es, queue[0]) <= Depth(es, queue[1]);
  }

  lemma {:induction false} ByLevelOpen(es: seq<Entry>, queue: seq<nat>, unfolded: set<nat>)
    requires queue != [] && ByLevel(es, queue, unfolded) && ParentsFirst(es)
    ensures ByLevel(es, queue[1..] + Kids(es, Some(queue[0])), unfolded + {queue[0]})
  {
    var p, rest, kids := queue[0], queue[1..], Kids(es, Some(queue[0]));
    ByLevelDrop(es, queue, unfolded);
    KidDepth(es, p);
    forall i <- rest ensures i in queue && Depth(es, p) <= Depth(es, i) <= Depth(es, p) + 1 {
      var k :| 0 <= k < |rest| && rest[k] == i;
      assert queue[k + 1] == i;
    }
    assert forall u <- unfolded :: p in queue && Depth(es, u) <= Depth(es, p);
    hide Depth, Kids;
    LevelsJoin(es, rest, kids, Depth(es, p), unfolded + {p});
  }

  lemma {:induction false} KidDepth(es: seq<Entry>, p: nat)
    requires ParentsFirst(es)
    ensures forall i <- Kids(es, Some(p)) :: Depth(es, i) == Depth(es, p) + 1
  {
    KidsMembers(es, Some(p));
    forall i <- Kids(es, Some(p)) ensures Depth(es, i) == Depth(es, p) + 1 {
      assert i in KidSet(es, Some(p));
    }
  }

  lemma {:induction false} LevelsJoin(es: seq<Entry>, rest: seq<nat>, kids: seq<nat>, d: nat, unfolded: set<nat>)
    requires forall i, j | 0 <= i < j < |rest| :: Depth(es, rest[i]) <= Depth(es, rest[j])
    requires forall i <- rest :: d <= Depth(es, i) <= d + 1
    requires forall i <- kids :: Depth(es, i) == d + 1
    requires forall u <- unfolded :: Depth(es, u) <= d
    ensures ByLevel(es, rest + kids, unfolded)
  {
    hide Depth;
    var q := rest + kids;
    assert forall i <- q :: i in rest || i in kids;
    forall i, j | 0 <= i < j < |q| ensures Depth(es, q[i]) <= Depth(es, q[j]) {
      if j < |rest| {
        assert q[i] == rest[i] && q[j] == rest[j];
      } else {
        assert q[j] == kids[j - |rest|] && q[j] in kids && q[i] in q;
      }
    }
    if q != [] { assert q[0] in q; }
  }

  lemma {:induction false} LevelsKept(
    es: seq<Entry>, queue: seq<nat>, folded: set<nat>, unfolded: set<nat>, refused: set<nat>, visible: nat, limit: nat)
    requires Tracks(es, queue, folded, unfolded, refused) && ByLevel(es, queue, unfolded)
    requires AllRefused(es, refused, visible, limit)
    ensures BreadthFirst(es, folded, unfolded, visible, limit)
    ensures queue == [] ==> AllRefused(es, folded, visible, limit)
  {
  }

  /** Opening went on only while less than wanted was shown. */
  ghost predicate StopsInTime(es: seq<Entry>, unfolded: set<nat>, total: nat, until: nat) {
    unfolded == {} || exists p :: p in unfolded && Shown(es, unfolded - {p}, total) < until
  }

  lemma {:induction false} InTime(es: seq<Entry>, unfolded: set<nat>, p: nat, total: nat, until: nat)
    requires p !in unfolded && Shown(es, unfolded, total) < until
    ensures StopsInTime(es, unfolded + {p}, total, until)
  {
    assert unfolded + {p} - {p} == unfolded;
  }

  // ---------------------------------------------------------------- which spans are opened

  /** Is `p` opened, when `unfolded` is what has been opened of the spans before it? */
  predicate Opens(es: seq<Entry>, p: nat, unfolded: set<nat>, total: nat, until: nat, limit: nat) {
    && p < |es| && (es[p].parent.Some? ==> es[p].parent.value in unfolded)
    && Shown(es, unfolded, total) < until && SatAdd(Shown(es, unfolded, total), Reveal(es, p)) <= limit
  }

  /** All spans are gone through level by level, whether or not they can be seen; each one is opened
      if its parent is, as long as less than wanted is shown and the limit allows it. `left` are the
      spans still to come. */
  function Greedy(
    es: seq<Entry>, queue: seq<nat>, left: set<nat>, unfolded: set<nat>, total: nat, until: nat, limit: nat): set<nat>
    decreases left
  {
    if queue == [] || queue[0] !in left then unfolded else
    var p := queue[0];
    Greedy(es, queue[1..] + Kids(es, Some(p)), left - {p},
      if Opens(es, p, unfolded, total, until, limit) then unfolded + {p} else unfolded, total, until, limit)
  }

  function Opened(es: seq<Entry>, total: nat, until: nat, limit: nat): set<nat> {
    Greedy(es, Kids(es, None), Indices(es), {}, total, until, limit)
  }

  /** The spans of a queue that can be seen: those without a parent or with an open one. */
  function Seen(es: seq<Entry>, queue: seq<nat>, unfolded: set<nat>): seq<nat> {
    if queue == [] then [] else
    var p := queue[0];
    (if p < |es| && (es[p].parent.Some? ==> es[p].parent.value in unfolded) then [p] else [])
    + Seen(es, queue[1..], unfolded)
  }

  lemma {:induction false} SeenConcat(es: seq<Entry>, a: seq<nat>, b: seq<nat>, unfolded: set<nat>)
    ensures Seen(es, a + b, unfolded) == Seen(es, a, unfolded) + Seen(es, b, unfolded)
  {
    if a == [] {
      assert a + b == b;
    } else {
      assert (a + b)[1..] == a[1..] + b;
      SeenConcat(es, a[1..], b, unfolded);
    }
  }

  lemma {:induction false} SeenAll(es: seq<Entry>, queue: seq<nat>, unfolded: set<nat>)
    requires forall x <- queue :: x < |es| && (es[x].parent.Some? ==> es[x].parent.value in unfolded)
    ensures Seen(es, queue, unfolded) == queue
  {
    if queue != [] {
      assert queue[0] in queue && forall x <- queue[1..] :: x in queue;
      SeenAll(es, queue[1..], unfolded);
    }
  }

  lemma {:induction false} SeenNone(es: seq<Entry>, queue: seq<nat>, unfolded: set<nat>)
    requires forall x <- queue :: x < |es| && es[x].parent.Some? && es[x].parent.value !in unfolded
    ensures Seen(es, queue, unfolded) == []
  {
    if queue != [] {
      assert queue[0] in queue && forall x <- queue[1..] :: x in queue;
      SeenNone(es, queue[1..], unfolded);
    }
  }

  lemma {:induction false} SeenSame(es: seq<Entry>, queue: seq<nat>, unfolded: set<nat>, p: nat)
    requires forall x <- queue :: x < |es| && es[x].parent != Some(p)
    ensures Seen(es, queue, unfolded + {p}) == Seen(es, queue, unfolded)
  {
    if queue != [] {
      assert queue[0] in queue && forall x <- queue[1..] :: x in queue;
      SeenSame(es, queue[1..], unfolded, p);
    }
  }

  /** The unfold's own queue holds the spans of the full queue that can be seen. */
  ghost predicate Walks(
    es: seq<Entry>, queue: seq<nat>, full: seq<nat>, left: set<nat>, unfolded: set<nat>)
  {
    && queue == Seen(es, full, unfolded) && unfolded !! left
    && (forall i, j | 0 <= i < j < |full| :: full[i] != full[j])
    && (forall x <- full :: x in left && x < |es| && (es[x].parent.Some? ==> es[x].parent.value !in left))
    && forall x: nat | x < |es| && x !in left && es[x].parent.Some? :: es[x].parent.value !in left
  }

  lemma {:induction false} WalkStarts(es: seq<Entry>)
    ensures Walks(es, Kids(es, None), Kids(es, None), Indices(es), {})
  {
    KidsMembers(es, None);
    forall x <- Kids(es, None) ensures x < |es| && es[x].parent == None { assert x in KidSet(es, None); }
    SeenAll(es, Kids(es, None), {});
  }

  /** Dequeuing the head of the full queue, opened or not. */
  lemma {:induction false} WalkStep(
    es: seq<Entry>, queue: seq<nat>, full: seq<nat>, left: set<nat>, unfolded: set<nat>, open: bool)
    requires ParentsFirst(es) && Walks(es, queue, full, left, unfolded) && full != []
    requires open ==> queue != [] && queue[0] == full[0]
    ensures var p := full[0];
      var rest := if queue != [] && queue[0] == p then queue[1..] else queue;
      Walks(es, if open then rest + Kids(es, Some(p)) else rest, full[1..] + Kids(es, Some(p)), left - {p},
        if open then unfolded + {p} else unfolded)
  {
    var p, tail, kids := full[0], full[1..], Kids(es, Some(full[0]));
    KidsMembers(es, Some(p));
    assert p in full;
    forall x <- kids ensures x < |es| && es[x].parent == Some(p) && x in left && x != p {
      assert x in KidSet(es, Some(p));
    }
    forall x <- tail ensures x in full && x != p && es[x].parent != Some(p) {
      var k :| 0 <= k < |tail| && tail[k] == x;
      assert full[k + 1] == x;
    }
    QueueDistinct(full, kids);
    var now := if open then unfolded + {p} else unfolded;
    SeenConcat(es, tail, kids, now);
    if open {
      SeenSame(es, tail, unfolded, p);
      SeenAll(es, kids, now);
    } else {
      SeenNone(es, kids, now);
    }
    SeenHead(es, full, tail, unfolded);
  }

  /** Whether the head is seen shows in the queue of what is seen. */
  lemma {:induction false} SeenHead(es: seq<Entry>, full: seq<nat>, tail: seq<nat>, unfolded: set<nat>)
    requires full != [] && tail == full[1..] && full[0] !in tail
    ensures var queue := Seen(es, full, unfolded);
      Seen(es, tail, unfolded) == if queue != [] && queue[0] == full[0] then queue[1..] else queue
  {
    SeenAmong(es, tail, unfolded);
    var rest := Seen(es, tail, unfolded);
    assert rest != [] ==> rest[0] in rest;
  }

  lemma {:induction false} SeenAmong(es: seq<Entry>, queue: seq<nat>, unfolded: set<nat>)
    ensures forall x <- Seen(es, queue, unfolded) :: x in queue
  {
    if queue != [] {
      SeenAmong(es, queue[1..], unfolded);
      assert forall x <- queue[1..] :: x in queue;
    }
  }

  lemma {:induction false} QueueDistinct(full: seq<nat>, kids: seq<nat>)
    requires full != [] && forall i, j | 0 <= i < j < |full| :: full[i] != full[j]
    requires forall i, j | 0 <= i < j < |kids| :: kids[i] < kids[j]
    requires forall x <- full[1..] :: x !in kids
    ensures var q := full[1..] + kids; forall i, j | 0 <= i < j < |q| :: q[i] != q[j]
  {
    var q := full[1..] + kids;
    forall i, j | 0 <= i < j < |q| ensures q[i] != q[j] {
      if i < |full| - 1 <= j { assert q[i] in full[1..] && q[j] in kids; }
    }
  }

  /** Spans that cannot be seen are passed over. */
  lemma {:induction false} WalkOn(
    es: seq<Entry>, queue: seq<nat>, full: seq<nat>, left: set<nat>, unfolded: set<nat>,
    total: nat, until: nat, limit: nat)
    returns (full': seq<nat>, left': set<nat>)
    requires ParentsFirst(es) && Walks(es, queue, full, left, unfolded) && queue != []
    ensures Walks(es, queue, full', left', unfolded) && full' != [] && full'[0] == queue[0] && queue[0] in left'
    ensures Greedy(es, full', left', unfolded, total, until, limit)
      == Greedy(es, full, left, unfolded, total, until, limit)
    decreases left
  {
    hide Shown, Reveal;
    assert full[0] in full;
    if queue[0] == full[0] {
      full', left' := full, left;
    } else {
      WalkStep(es, queue, full, left, unfolded, false);
      full', left' := WalkOn(
        es, queue, full[1..] + Kids(es, Some(full[0])), left - {full[0]}, unfolded, total, until, limit);
    }
  }

  /** With nothing left to see, or enough shown, nothing more is opened. */
  lemma {:induction false} WalkEnds(
    es: seq<Entry>, queue: seq<nat>, full: seq<nat>, left: set<nat>, unfolded: set<nat>,
    total: nat, until: nat, limit: nat)
    requires ParentsFirst(es) && Walks(es, queue, full, left, unfolded)
    requires queue == [] || Shown(es, unfolded, total) >= until
    ensures Greedy(es, full, left, unfolded, total, until, limit) == unfolded
    decreases left
  {
    hide Shown, Reveal;
    if full != [] {
      assert full[0] in full;
      WalkStep(es, queue, full, left, unfolded, false);
      WalkEnds(es, if queue != [] && queue[0] == full[0] then queue[1..] else queue,
        full[1..] + Kids(es, Some(full[0])), left - {full[0]}, unfolded, total, until, limit);
    }
  }

  /** What the unfold promises of the spans it leaves folded and those it opened: a frontier, a
      hard ceiling on the counter, no opening more than needed, none left out that could still be
      made, and shallow spans before deep ones. */
  ghost predicate UnfoldEnds(
    es: seq<Entry>, folded: set<nat>, unfolded: set<nat>, total: nat, until: nat, limit: nat)
  {
    var shown := Shown(es, unfolded, total);
    && IsFrontier(es, unfolded, folded)
    && (until == 0 ==> unfolded == {})
    && (unfolded == {} || shown <= limit)
    && StopsInTime(es, unfolded, total, until)
    && (until > 0 ==> shown >= until || AllRefused(es, folded, shown, limit))
    && BreadthFirst(es, folded, unfolded, shown, limit)
  }

  method SelectFoldedSpans(forest: ElidableForest, total: nat, until: nat, limit: nat)
    returns (folded: set<nat>)
    requires forest.Valid() && total <= U32_MAX
    ensures folded == FrontierOf(forest.entries, Opened(forest.entries, total, until, limit))
    ensures UnfoldEnds(forest.entries, folded, Opened(forest.entries, total, until, limit), total, until, limit)
  {
    hide Walks, Greedy, Seen, FrontierOf, UnfoldEnds, Opened, Kids, KidSet, SumLines, IsFrontier, Tracks, AllRefused,
      ParentsFirst, ByLevel, BreadthFirst, Shown, StopsInTime, Depth, Revealed;
    NothingRefused(forest.entries, limit);
    ghost var es := forest.entries;
    folded := set i | i in forest.roots;
    ghost var unfolded: set<nat> := {};
    Starts(es, folded, total, until, limit);
    WalkStarts(es);
    StartsGreedy(es, total, until, limit);
    if until == 0 || folded == {} {
      if folded == {} { NoRoots(es); }
      WalkEnds(es, Kids(es, None), Kids(es, None), Indices(es), {}, total, until, limit);
      FrontierIs(es, unfolded, folded);
      return;
    }

    var foldedLineTotal := SumOver(forest, forest.roots);
    var visible := SatSub(total, foldedLineTotal);
    var queue := forest.roots;
    ghost var refused: set<nat> := {};
    ghost var full, left := queue, Indices(es);
    while queue != []
      invariant visible == Shown(es, unfolded, total)
      invariant unfolded == {} || visible <= limit
      invariant IsFrontier(es, unfolded, folded) && Tracks(es, queue, folded, unfolded, refused)
      invariant ByLevel(es, queue, unfolded) && StopsInTime(es, unfolded, total, until)
      invariant AllRefused(es, refused, visible, limit)
      invariant Walks(es, queue, full, left, unfolded)
      invariant Opened(es, total, until, limit) == Greedy(es, full, left, unfolded, total, until, limit)
      decreases Indices(es) - unfolded - refused, |queue|
    {
      var idx, rest := queue[0], queue[1..];
      if visible >= until { break; }
      TracksFacts(es, queue, folded, unfolded, refused);
      assert idx in Indices(es) - unfolded - refused;
      if idx !in folded { queue := rest; continue; }
      full, left := WalkOn(es, queue, full, left, unfolded, total, until, limit);
      var children := forest.nodes[idx].children;
      ChildIndices(es, Some(idx));
      var childLineTotal := SumOver(forest, children);
      var revealed := SatSub(Lines(forest.nodes[idx].span), childLineTotal);
      var newVisible := SatAdd(visible, revealed);
      if newVisible > limit {
        TracksRefuse(es, queue, folded, unfolded, refused);
        RefuseOne(es, refused, idx, visible, limit);
        ByLevelDrop(es, queue, unfolded);
        GreedyStep(es, queue, full, left, unfolded, total, until, limit);
        full, left := full[1..] + children, left - {idx};
        queue := rest;
        refused := refused + {idx};
        continue;
      }
      TracksOpen(es, queue, folded, unfolded, refused, children);
      FrontierStep(es, unfolded, folded, idx);
      ByLevelOpen(es, queue, unfolded);
      ShownMore(es, unfolded, idx, total);
      InTime(es, unfolded, idx, total, until);
      GreedyStep(es, queue, full, left, unfolded, total, until, limit);
      full, left := full[1..] + children, left - {idx};
      StillRefused(es, refused, visible, newVisible, limit);
      var added := set c | c in children;
      assert added == KidSet(es, Some(idx));
      folded := folded - {idx} + added;
      queue := rest + children;
      visible := newVisible;
      unfolded := unfolded + {idx};
    }
    LevelsKept(es, queue, folded, unfolded, refused, visible, limit);
    WalkEnds(es, queue, full, left, unfolded, total, until, limit);
    FrontierIs(es, unfolded, folded);
    Ended(es, folded, unfolded, total, until, limit);
  }

  lemma {:induction false} StartsGreedy(es: seq<Entry>, total: nat, until: nat, limit: nat)
    ensures Opened(es, total, until, limit) == Greedy(es, Kids(es, None), Indices(es), {}, total, until, limit)
  {
  }

  lemma {:induction false} NoRoots(es: seq<Entry>)
    ensures Kids(es, None) != [] ==> KidSet(es, None) != {}
  {
    KidsMembers(es, None);
    if Kids(es, None) != [] { assert Kids(es, None)[0] in KidSet(es, None); }
  }

  /** The decision about the span at hand. */
  lemma {:induction false} GreedyStep(
    es: seq<Entry>, queue: seq<nat>, full: seq<nat>, left: set<nat>, unfolded: set<nat>,
    total: nat, until: nat, limit: nat)
    requires ParentsFirst(es) && Walks(es, queue, full, left, unfolded)
    requires queue != [] && full != [] && full[0] == queue[0] && Shown(es, unfolded, total) < until
    ensures var p, kids := queue[0], Kids(es, Some(queue[0]));
      var open := SatAdd(Shown(es, unfolded, total), Reveal(es, p)) <= limit;
      var now := if open then unfolded + {p} else unfolded;
      && Walks(es, if open then queue[1..] + kids else queue[1..], full[1..] + kids, left - {p}, now)
      && Greedy(es, full, left, unfolded, total, until, limit)
        == Greedy(es, full[1..] + kids, left - {p}, now, total, until, limit)
  {
    hide Shown, Reveal;
    assert full[0] in full;
    SeenFirst(es, full, unfolded);
    WalkStep(es, queue, full, left, unfolded, SatAdd(Shown(es, unfolded, total), Reveal(es, queue[0])) <= limit);
  }

  lemma {:induction false} SeenFirst(es: seq<Entry>, full: seq<nat>, unfolded: set<nat>)
    ensures forall x <- Seen(es, full, unfolded) :: x < |es| && (es[x].parent.Some? ==> es[x].parent.value in unfolded)
  {
    if full != [] { SeenFirst(es, full[1..], unfolded); }
  }

  lemma {:induction false} Ended(
    es: seq<Entry>, folded: set<nat>, unfolded: set<nat>, total: nat, until: nat, limit: nat)
    requires IsFrontier(es, unfolded, folded) && StopsInTime(es, unfolded, total, until) && until > 0
    requires var shown := Shown(es, unfolded, total);
      && (unfolded == {} || shown <= limit) && (shown >= until || AllRefused(es, folded, shown, limit))
      && BreadthFirst(es, folded, unfolded, shown, limit)
    ensures UnfoldEnds(es, folded, unfolded, total, until, limit)
  {
    hide Shown, IsFrontier, BreadthFirst, AllRefused, StopsInTime;
  }

  lemma {:induction false} NothingRefused(es: seq<Entry>, limit: nat)
    ensures forall v: nat :: AllRefused(es, {}, v, limit)
  {
  }

  lemma {:induction false} RefuseOne(es: seq<Entry>, refused: set<nat>, i: nat, visible: nat, limit: nat)
    requires AllRefused(es, refused, visible, limit) && SatAdd(visible, Reveal(es, i)) > limit
    ensures AllRefused(es, refused + {i}, visible, limit)
  {
  }

  /** The counter only grows, so a refused span stays refusable. */
  lemma {:induction false} StillRefused(es: seq<Entry>, refused: set<nat>, visible: nat, later: nat, limit: nat)
    requires AllRefused(es, refused, visible, limit) && visible <= later
    ensures AllRefused(es, refused, later, limit)
  {
  }

  lemma {:induction false} Starts(es: seq<Entry>, folded: set<nat>, total: nat, until: nat, limit: nat)
    requires ParentsFirst(es) && total <= U32_MAX && forall i :: i in folded <==> i in Kids(es, None)
    ensures forall i <- Kids(es, None) :: i < |es|
    ensures folded == KidSet(es, None) && IsFrontier(es, {}, folded)
    ensures Tracks(es, Kids(es, None), folded, {}, {}) && ByLevel(es, Kids(es, None), {})
    ensures Shown(es, {}, total) == InitialVisible(es, total) && StopsInTime(es, {}, total, until)
    ensures until == 0 || folded == {} ==> UnfoldEnds(es, folded, {}, total, until, limit)
  {
    KidsMembers(es, None);
    hide Kids, Depth, SumLines, Revealed, Reveal;
    RootsByLevel(es);
    ShownFirst(es, total);
    hide ByLevel, Shown;
    if until == 0 || folded == {} { NothingToOpen(es, folded, total, until, limit); }
  }

  lemma {:induction false} NothingToOpen(es: seq<Entry>, folded: set<nat>, total: nat, until: nat, limit: nat)
    requires IsFrontier(es, {}, folded) && (until == 0 || folded == {})
    ensures UnfoldEnds(es, folded, {}, total, until, limit)
  {
    hide Shown, Depth, Reveal, IsFrontier;
  }

  lemma {:induction false} TracksFacts(
    es: seq<Entry>, queue: seq<nat>, folded: set<nat>, unfolded: set<nat>, refused: set<nat>)
    requires queue != [] && Tracks(es, queue, folded, unfolded, refused)
    ensures queue[0] in folded && queue[0] < |es| && queue[0] !in unfolded && queue[0] !in refused
  {
    assert queue[0] in queue;
  }

  lemma {:induction false} ChildIndices(es: seq<Entry>, p: Option<nat>)
    ensures forall i <- Kids(es, p) :: i < |es|
    ensures (set c | c in Kids(es, p)) == KidSet(es, p)
  {
    KidsMembers(es, p);
  }
}
