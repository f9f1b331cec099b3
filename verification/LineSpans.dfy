/** Inclusive line spans, lists of them, and the sets of lines they cover. */
module LineSpans {
  import opened Numbers
  import opened StableSort

  datatype LineSpan = LineSpan(start: nat, end: nat)

  function SatSub(a: nat, b: nat): nat {
    if a >= b then a - b else 0
  }

  const U32_MAX: nat := 0xFFFF_FFFF

  function SatAdd(a: nat, b: nat): nat {
    if a + b > U32_MAX then U32_MAX else a + b
  }

  function Between(a: nat, b: nat): (r: set<nat>)
    ensures forall l :: l in r <==> a <= l <= b
    decreases b + 1 - a
  {
    if a > b then {} else {a} + Between(a + 1, b)
  }

  function LinesOf(s: LineSpan): set<nat> {
    Between(s.start, s.end)
  }

  lemma {:induction false} BetweenSize(a: nat, b: nat)
    requires a <= b + 1
    ensures |Between(a, b)| == b + 1 - a
    decreases b + 1 - a
  {
    if a <= b {
      BetweenSize(a + 1, b);
      var rest := Between(a + 1, b);
      assert Between(a, b) == {a} + rest && a !in rest;
      hide Between;
    }
  }

  lemma {:induction false} UnionSize(a: set<nat>, b: set<nat>)
    requires a !! b
    ensures |a + b| == |a| + |b|
  {
  }

  // ---------------------------------------------------------------- sets of lines

  /** The lines of a list of spans. */
  function LinesIn(spans: seq<LineSpan>): set<nat> {
    if spans == [] then {} else LinesIn(spans[..|spans| - 1]) + LinesOf(spans[|spans| - 1])
  }

  lemma {:induction false} LinesSnoc(spans: seq<LineSpan>, s: LineSpan)
    ensures LinesIn(spans + [s]) == LinesIn(spans) + LinesOf(s)
  {
    assert (spans + [s])[..|spans|] == spans;
  }

  lemma {:induction false} LineMembers(spans: seq<LineSpan>, l: nat)
    ensures l in LinesIn(spans) <==> exists s :: s in spans && s.start <= l <= s.end
  {
    if spans != [] {
      var init, last := spans[..|spans| - 1], spans[|spans| - 1];
      LineMembers(init, l);
      assert spans == init + [last];
    }
  }

  lemma {:induction false} LinesCons(s: LineSpan, spans: seq<LineSpan>)
    ensures LinesIn([s] + spans) == LinesOf(s) + LinesIn(spans)
  {
    if spans == [] {
      assert [s] + [] == [] + [s];
      LinesSnoc([], s);
    } else {
      var init, last := spans[..|spans| - 1], spans[|spans| - 1];
      assert [s] + spans == ([s] + init) + [last];
      LinesSnoc([s] + init, last);
      LinesCons(s, init);
    }
  }

  /** Sorted, non-empty, and with at least one line between neighbours. */
  ghost predicate Canonical(spans: seq<LineSpan>) {
    && (forall i | 0 <= i < |spans| :: spans[i].start <= spans[i].end)
    && forall i, j | 0 <= i < j < |spans| :: spans[i].end + 1 < spans[j].start
  }

  lemma {:induction false} CanonicalTail(a: seq<LineSpan>)
    requires Canonical(a) && a != []
    ensures Canonical(a[1..])
    ensures LinesIn(a) == LinesOf(a[0]) + LinesIn(a[1..])
    ensures forall l <- LinesIn(a[1..]) :: l > a[0].end + 1
  {
    assert a == [a[0]] + a[1..];
    LinesCons(a[0], a[1..]);
    forall l <- LinesIn(a[1..]) ensures l > a[0].end + 1 {
      LineMembers(a[1..], l);
    }
  }

  lemma {:induction false} SameFirst(a: seq<LineSpan>, b: seq<LineSpan>)
    requires Canonical(a) && Canonical(b) && a != [] && b != [] && LinesIn(a) == LinesIn(b)
    ensures a[0].start <= b[0].start && (a[0].start == b[0].start ==> a[0].end <= b[0].end)
  {
    CanonicalTail(a);
    CanonicalTail(b);
    var l := b[0].end + 1;
    assert b[0].start in LinesIn(a);
    assert l !in LinesOf(b[0]) && l !in LinesIn(b[1..]);
    hide *;
    assert l !in LinesIn(a);
  }

  /** A canonical list is determined by its lines. */
  lemma {:induction false} CanonicalUnique(a: seq<LineSpan>, b: seq<LineSpan>)
    requires Canonical(a) && Canonical(b) && LinesIn(a) == LinesIn(b)
    ensures a == b
  {
    hide *;
    NoLinesNoSpans(a);
    NoLinesNoSpans(b);
    if a != [] && b != [] {
      SameFirst(a, b);
      SameFirst(b, a);
      TailsAlike(a, b);
      CanonicalUnique(a[1..], b[1..]);
      assert a == [a[0]] + a[1..] && b == [b[0]] + b[1..];
    }
  }

  lemma {:induction false} NoLinesNoSpans(a: seq<LineSpan>)
    requires Canonical(a)
    ensures a == [] <==> LinesIn(a) == {}
  {
    if a != [] {
      CanonicalTail(a);
      assert a[0].start in LinesIn(a);
    }
  }

  lemma {:induction false} TailsAlike(a: seq<LineSpan>, b: seq<LineSpan>)
    requires Canonical(a) && Canonical(b) && a != [] && b != [] && LinesIn(a) == LinesIn(b) && a[0] == b[0]
    ensures LinesIn(a[1..]) == LinesIn(b[1..]) && Canonical(a[1..]) && Canonical(b[1..])
  {
    CanonicalTail(a);
    CanonicalTail(b);
    hide *;
    assert forall l <- LinesOf(a[0]) :: l <= a[0].end;
    assert LinesIn(a[1..]) == LinesIn(a) - LinesOf(a[0]);
    assert LinesIn(b[1..]) == LinesIn(b) - LinesOf(b[0]);
  }

  lemma {:induction false} SameMembers(a: seq<LineSpan>, b: seq<LineSpan>)
    requires multiset(a) == multiset(b)
    ensures forall s :: s in a <==> s in b
    ensures LinesIn(a) == LinesIn(b)
  {
    forall s ensures s in a <==> s in b {
      assert s in a <==> s in multiset(a);
      assert s in b <==> s in multiset(b);
    }
    forall l: nat ensures l in LinesIn(a) <==> l in LinesIn(b) {
      LineMembers(a, l);
      LineMembers(b, l);
    }
  }

  // ---------------------------------------------------------------- merging

  /** Stretching the last span over a touching one adds exactly that span's lines. */
  lemma {:induction false} WiderLast(merged: seq<LineSpan>, s: LineSpan)
    requires merged != [] && merged[|merged| - 1].start <= s.start <= merged[|merged| - 1].end + 1
    ensures var last := merged[|merged| - 1];
      var wide := merged[..|merged| - 1] + [LineSpan(last.start, Max(last.end, s.end))];
      && LinesIn(wide) == LinesIn(merged) + LinesOf(s)
      && (Canonical(merged) ==> Canonical(wide))
  {
    var init, last := merged[..|merged| - 1], merged[|merged| - 1];
    var wider := LineSpan(last.start, Max(last.end, s.end));
    LinesSnoc(init, last);
    LinesSnoc(init, wider);
    assert LinesOf(wider) == LinesOf(last) + LinesOf(s);
    assert merged == init + [last];
  }

  /** A span that starts beyond the last one is a new span. */
  lemma {:induction false} NewLast(merged: seq<LineSpan>, s: LineSpan)
    requires merged != [] ==> merged[|merged| - 1].end + 1 < s.start
    ensures LinesIn(merged + [s]) == LinesIn(merged) + LinesOf(s)
    ensures Canonical(merged) && s.start <= s.end ==> Canonical(merged + [s])
  {
    LinesSnoc(merged, s);
    hide LinesIn, LinesOf;
    if Canonical(merged) && s.start <= s.end {
      var longer := merged + [s];
      forall i, j | 0 <= i < j < |longer| ensures longer[i].end + 1 < longer[j].start {
        assert j == |merged| ==> i == |merged| - 1 || merged[i].end + 1 < merged[|merged| - 1].start;
        assert merged[|merged| - 1].start <= merged[|merged| - 1].end;
      }
    }
  }

  function SpanKey(s: LineSpan): (int, int) {
    (s.start, s.end)
  }

  /** `merged` speaks for the first `i` sorted spans. */
  ghost predicate Merged(merged: seq<LineSpan>, sorted: seq<LineSpan>, i: nat)
    requires i <= |sorted|
  {
    && LinesIn(merged) == LinesIn(sorted[..i])
    && ((forall s <- sorted :: s.start <= s.end) ==> Canonical(merged))
    && (merged == [] <==> i == 0)
    && (merged != [] ==> merged[|merged| - 1].start <= sorted[i - 1].start)
  }

  /** The next sorted span either widens the last merged one or starts a new one. */
  lemma {:induction false} MergeNext(merged: seq<LineSpan>, sorted: seq<LineSpan>, i: nat)
    requires i < |sorted| && Merged(merged, sorted, i) && Sorted(sorted, SpanKey)
    ensures var s := sorted[i];
      if merged != [] && s.start <= merged[|merged| - 1].end + 1
      then var last := merged[|merged| - 1];
        Merged(merged[..|merged| - 1] + [LineSpan(last.start, Max(last.end, s.end))], sorted, i + 1)
      else Merged(merged + [s], sorted, i + 1)
  {
    var s := sorted[i];
    assert s in sorted;
    assert i > 0 ==> KeyLeq(SpanKey(sorted[i - 1]), SpanKey(s));
    assert sorted[..i + 1] == sorted[..i] + [s];
    LinesSnoc(sorted[..i], s);
    hide LinesIn, Sorted, Canonical;
    if merged != [] && s.start <= merged[|merged| - 1].end + 1 {
      WiderLast(merged, s);
    } else {
      NewLast(merged, s);
    }
  }
}
