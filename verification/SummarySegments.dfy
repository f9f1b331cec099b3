/** From normalised spans to the segments that are shown. */
module SummarySegments {
  import opened Optional
  import opened TextLines
  import opened LineSpans
  import opened SummaryTree
  import opened SummaryUnfold
  import opened SummaryNormalize

  datatype Kind = Kept | Elided

  datatype Segment = Segment(kind: Kind, start: nat, end: nat, text: Option<string>)

  function KindOf(elided: set<nat>, l: nat): Kind {
    if l in elided then Elided else Kept
  }

  ghost predicate Uniform(elided: set<nat>, kind: Kind, start: nat, end: nat) {
    forall l | start <= l <= end :: KindOf(elided, l) == kind
  }

  /** One segment over the source: uniform, and carrying its text exactly when kept. */
  ghost predicate Faithful(g: Segment, elided: set<nat>, lines: seq<string>) {
    && 1 <= g.start <= g.end <= |lines| && Uniform(elided, g.kind, g.start, g.end)
    && g.text == if g.kind == Kept then Some(JoinLines(lines[g.start - 1..g.end])) else None
  }

  /** Line reached by a list of segments. */
  function Reached(segs: seq<Segment>): nat {
    if segs == [] then 0 else segs[|segs| - 1].end
  }

  /** Consecutive faithful segments from line 1 on, kinds alternating. */
  ghost predicate Alternating(segs: seq<Segment>, elided: set<nat>, lines: seq<string>) {
    segs == [] || (
      var init, last := segs[..|segs| - 1], segs[|segs| - 1];
      && Alternating(init, elided, lines) && Faithful(last, elided, lines)
      && last.start == Reached(init) + 1
      && (init != [] ==> init[|init| - 1].kind != last.kind))
  }

  function PushSegment(segs: seq<Segment>, kind: Kind, start: nat, end: nat, text: seq<string>): seq<Segment> {
    segs + [Segment(kind, start, end, if kind == Kept then Some(JoinLines(text)) else None)]
  }

  /** The scanner between two lines: what it has emitted and what it holds back. */
  ghost predicate Scanned(
    segs: seq<Segment>, current: Option<Kind>, start: nat, held: seq<string>,
    elided: set<nat>, lines: seq<string>, n: nat)
  {
    && Alternating(segs, elided, lines) && 1 <= n <= |lines| + 1
    && start == Reached(segs) + 1
    && (current == None ==> n == 1 && segs == [] && held == [])
    && (current.Some? ==> start < n && Uniform(elided, current.value, start, n - 1))
    && (current.Some? && segs != [] ==> segs[|segs| - 1].kind != current.value)
    && (current.Some? ==> held == if current == Some(Kept) then lines[start - 1..n - 1] else [])
  }

  lemma {:induction false} PushScanned(
    segs: seq<Segment>, current: Option<Kind>, start: nat, held: seq<string>,
    elided: set<nat>, lines: seq<string>, n: nat)
    requires Scanned(segs, current, start, held, elided, lines, n) && current.Some?
    ensures var g := PushSegment(segs, current.value, start, n - 1, held);
      Alternating(g, elided, lines) && Reached(g) == n - 1 && g != [] && g[|g| - 1].kind == current.value
  {
    hide JoinLines;
    var g := PushSegment(segs, current.value, start, n - 1, held);
    assert g[..|g| - 1] == segs;
    assert Faithful(g[|g| - 1], elided, lines) by { hide Alternating; }
    hide Faithful, Uniform;
  }

  lemma {:induction false} KeepScanning(
    segs: seq<Segment>, current: Option<Kind>, start: nat, held: seq<string>,
    elided: set<nat>, lines: seq<string>, n: nat)
    requires Scanned(segs, current, start, held, elided, lines, n) && n <= |lines|
    requires current.Some? ==> current.value == KindOf(elided, n)
    ensures var kind := KindOf(elided, n);
      Scanned(segs, Some(kind), start, if kind == Kept then held + [lines[n - 1]] else held, elided, lines, n + 1)
  {
    hide Alternating, JoinLines;
    assert Uniform(elided, KindOf(elided, n), start, n);
    if KindOf(elided, n) == Kept {
      assert lines[start - 1..n] == lines[start - 1..n - 1] + [lines[n - 1]];
    }
  }

  method BuildSegments(lines: seq<string>, spans: seq<LineSpan>) returns (segs: seq<Segment>)
    ensures Alternating(segs, LinesIn(spans), lines) && Reached(segs) == |lines|
  {
    hide Alternating, JoinLines, LinesIn;
    segs := [];
    NothingYet(LinesIn(spans), lines);
    if lines == [] { return; }
    var elided := LinesIn(spans);
    var current: Option<Kind> := None;
    var currentStart, currentLines := 1, [];
    for n := 1 to |lines| + 1
      invariant Scanned(segs, current, currentStart, currentLines, elided, lines, n)
      invariant n > 1 ==> current.Some?
    {
      var kind := KindOf(elided, n);
      if current.Some? && current.value != kind {
        PushScanned(segs, current, currentStart, currentLines, elided, lines, n);
        segs := PushSegment(segs, current.value, currentStart, n - 1, currentLines);
        currentStart, currentLines := n, [];
        current := Some(kind);
        if kind == Kept {
          currentLines := [lines[n - 1]];
          assert lines[n - 1..n] == [lines[n - 1]];
        }
      } else {
        KeepScanning(segs, current, currentStart, currentLines, elided, lines, n);
        current := Some(kind);
        if kind == Kept {
          currentLines := currentLines + [lines[n - 1]];
        }
      }
    }
    PushScanned(segs, current, currentStart, currentLines, elided, lines, |lines| + 1);
    segs := PushSegment(segs, current.value, currentStart, |lines|, currentLines);
  }

  lemma {:induction false} NothingYet(elided: set<nat>, lines: seq<string>)
    ensures Alternating([], elided, lines)
  {
  }

  // ---------------------------------------------------------------- what the segments say

  /** Two outputs over the same source and the same elided lines are the same. */
  lemma {:induction false} SegmentsUnique(a: seq<Segment>, b: seq<Segment>, elided: set<nat>, lines: seq<string>)
    requires Alternating(a, elided, lines) && Alternating(b, elided, lines) && Reached(a) == Reached(b)
    ensures a == b
  {
    if a != [] && b != [] {
      LastStart(a, b, elided, lines);
      LastStart(b, a, elided, lines);
      SegmentsUnique(a[..|a| - 1], b[..|b| - 1], elided, lines);
      assert a == a[..|a| - 1] + [a[|a| - 1]] && b == b[..|b| - 1] + [b[|b| - 1]];
    }
  }

  /** The last segment reaches back as far as its kind does. */
  lemma {:induction false} LastStart(a: seq<Segment>, b: seq<Segment>, elided: set<nat>, lines: seq<string>)
    requires Alternating(a, elided, lines) && Alternating(b, elided, lines) && Reached(a) == Reached(b)
    requires a != [] && b != []
    ensures a[|a| - 1].kind == b[|b| - 1].kind && a[|a| - 1].start <= b[|b| - 1].start
  {
    var x, y, init := a[|a| - 1], b[|b| - 1], a[..|a| - 1];
    assert KindOf(elided, x.end) == x.kind && KindOf(elided, y.end) == y.kind;
    if init != [] {
      var z := init[|init| - 1];
      assert Faithful(z, elided, lines) && z.end == x.start - 1;
      assert KindOf(elided, z.end) == z.kind;
    }
  }

  /** The text of a segment once an elided one has been filled in from the source. */
  function Filled(g: Segment, lines: seq<string>): string
    requires 1 <= g.start <= g.end <= |lines|
  {
    match g.text
    case Some(text) => text
    case None => JoinLines(lines[g.start - 1..g.end])
  }

  function FillAll(segs: seq<Segment>, elided: set<nat>, lines: seq<string>): seq<string>
    requires Alternating(segs, elided, lines)
  {
    if segs == [] then [] else FillAll(segs[..|segs| - 1], elided, lines) + [Filled(segs[|segs| - 1], lines)]
  }

  /** Filling the elided gaps from the source restores every line. */
  lemma {:induction false} FillingRestores(segs: seq<Segment>, elided: set<nat>, lines: seq<string>)
    requires Alternating(segs, elided, lines)
    ensures Reached(segs) <= |lines| && (segs != [] ==> Reached(segs) > 0)
    ensures |FillAll(segs, elided, lines)| == |segs|
    ensures JoinLines(FillAll(segs, elided, lines)) == JoinLines(lines[..Reached(segs)])
  {
    if segs != [] {
      var init, last := segs[..|segs| - 1], segs[|segs| - 1];
      FillingRestores(init, elided, lines);
      var done := FillAll(init, elided, lines);
      assert Filled(last, lines) == JoinLines(lines[last.start - 1..last.end]);
      assert (done + [Filled(last, lines)])[..|done|] == done;
      if init == [] {
        assert lines[last.start - 1..last.end] == lines[..last.end];
      } else {
        assert lines[..Reached(init)] + lines[last.start - 1..last.end] == lines[..last.end];
        JoinConcat(lines[..Reached(init)], lines[last.start - 1..last.end]);
      }
    }
  }

  function KeptLines(segs: seq<Segment>): int {
    if segs == [] then 0 else
    var last := segs[|segs| - 1];
    KeptLines(segs[..|segs| - 1]) + if last.kind == Kept then last.end - last.start + 1 else 0
  }

  /** The kept segments hold exactly the lines that are not elided. */
  lemma {:induction false} KeptCount(segs: seq<Segment>, elided: set<nat>, lines: seq<string>)
    requires Alternating(segs, elided, lines)
    ensures KeptLines(segs) == |AllLines(Reached(segs)) - elided|
  {
    if segs != [] {
      var last := segs[|segs| - 1];
      var earlier, part := AllLines(Reached(segs[..|segs| - 1])), Between(last.start, last.end);
      SegmentLines(segs, elided, lines);
      KeptCount(segs[..|segs| - 1], elided, lines);
      CountPart(earlier, part, elided, last);
    }
  }

  lemma {:induction false} CountPart(earlier: set<nat>, part: set<nat>, elided: set<nat>, g: Segment)
    requires earlier !! part && g.start <= g.end && part == Between(g.start, g.end)
    requires if g.kind == Kept then part !! elided else part <= elided
    ensures |(earlier + part) - elided|
      == |earlier - elided| + if g.kind == Kept then g.end - g.start + 1 else 0
  {
    BetweenSize(g.start, g.end);
    hide *;
    if g.kind == Kept {
      assert (earlier + part) - elided == (earlier - elided) + part;
      UnionSize(earlier - elided, part);
    } else {
      assert (earlier + part) - elided == earlier - elided;
    }
  }

  /** The last segment's lines, against those of the segments before it. */
  lemma {:induction false} SegmentLines(segs: seq<Segment>, elided: set<nat>, lines: seq<string>)
    requires Alternating(segs, elided, lines) && segs != []
    ensures var last := segs[|segs| - 1];
      var earlier, part := AllLines(Reached(segs[..|segs| - 1])), Between(last.start, last.end);
      && last.start <= last.end == Reached(segs)
      && AllLines(last.end) == earlier + part && earlier !! part
      && if last.kind == Kept then part !! elided else part <= elided
  {
    ReachedBefore(segs, elided, lines);
    var last := segs[|segs| - 1];
    forall l <- Between(last.start, last.end) ensures l in elided <==> last.kind == Elided {
      assert KindOf(elided, l) == last.kind;
    }
  }

  lemma {:induction false} ReachedBefore(segs: seq<Segment>, elided: set<nat>, lines: seq<string>)
    requires Alternating(segs, elided, lines) && segs != []
    ensures var last := segs[|segs| - 1];
      Reached(segs[..|segs| - 1]) + 1 == last.start <= last.end == Reached(segs)
  {
  }

  function ElidedSpans(segs: seq<Segment>): seq<LineSpan> {
    if segs == [] then [] else
    var last := segs[|segs| - 1];
    ElidedSpans(segs[..|segs| - 1]) + if last.kind == Elided then [LineSpan(last.start, last.end)] else []
  }

  /** The elided segments, as spans, are a canonical list of the elided lines. */
  lemma {:induction false} ElidedCanonical(segs: seq<Segment>, elided: set<nat>, lines: seq<string>)
    requires Alternating(segs, elided, lines)
    ensures Canonical(ElidedSpans(segs))
    ensures LinesIn(ElidedSpans(segs)) == elided * AllLines(Reached(segs))
    ensures ElidedSpans(segs) != [] ==>
      var last := ElidedSpans(segs)[|ElidedSpans(segs)| - 1];
      last.end <= Reached(segs) && (last.end == Reached(segs) ==> segs != [] && segs[|segs| - 1].kind == Elided)
  {
    hide Alternating, ElidedSpans, LinesIn, Between, Canonical, AllLines;
    NoSegments();
    if segs != [] {
      var init, last := segs[..|segs| - 1], segs[|segs| - 1];
      SegmentLines(segs, elided, lines);
      ReachedBefore(segs, elided, lines);
      ElidedStep(segs, elided, lines);
      ElidedCanonical(init, elided, lines);
      AddPart(ElidedSpans(init), AllLines(Reached(init)), elided, last);
      assert ElidedSpans(init) + [] == ElidedSpans(init);
      if last.kind == Elided { NewLast(ElidedSpans(init), LineSpan(last.start, last.end)); }
    }
  }

  lemma {:induction false} NoSegments()
    ensures ElidedSpans([]) == [] && Canonical([]) && LinesIn([]) == {} == AllLines(0)
  {
  }

  lemma {:induction false} ElidedStep(segs: seq<Segment>, elided: set<nat>, lines: seq<string>)
    requires Alternating(segs, elided, lines) && segs != []
    ensures var init, last := segs[..|segs| - 1], segs[|segs| - 1];
      && Alternating(init, elided, lines)
      && ElidedSpans(segs) == ElidedSpans(init) + (if last.kind == Elided then [LineSpan(last.start, last.end)] else [])
      && (init != [] ==> init[|init| - 1].kind != last.kind)
  {
  }

  lemma {:induction false} AddPart(spans: seq<LineSpan>, earlier: set<nat>, elided: set<nat>, g: Segment)
    requires LinesIn(spans) == elided * earlier
    requires if g.kind == Kept then Between(g.start, g.end) !! elided else Between(g.start, g.end) <= elided
    ensures LinesIn(spans + if g.kind == Elided then [LineSpan(g.start, g.end)] else [])
      == elided * (earlier + Between(g.start, g.end))
  {
    var part := Between(g.start, g.end);
    if g.kind == Elided { LinesSnoc(spans, LineSpan(g.start, g.end)); }
    assert spans + [] == spans;
    hide *;
    assert elided * (earlier + part) == elided * earlier + elided * part;
  }

  lemma {:induction false} LinesInFile(spans: seq<LineSpan>, total: nat)
    requires forall s <- spans :: 1 <= s.start && s.end <= total
    ensures LinesIn(spans) * AllLines(total) == LinesIn(spans)
  {
    hide LinesIn, Between;
    forall l <- LinesIn(spans) ensures l in AllLines(total) { LineMembers(spans, l); }
  }

  /** Exactly one elided segment per normalised span, with that span's lines. */
  lemma {:induction false} OneSegmentPerSpan(segs: seq<Segment>, spans: seq<LineSpan>, lines: seq<string>)
    requires Canonical(spans) && forall s <- spans :: 1 <= s.start && s.end <= |lines|
    requires Alternating(segs, LinesIn(spans), lines) && Reached(segs) == |lines|
    ensures ElidedSpans(segs) == spans
  {
    hide LinesIn, Alternating, ElidedSpans, AllLines, Canonical;
    ElidedCanonical(segs, LinesIn(spans), lines);
    LinesInFile(spans, |lines|);
    hide *;
    CanonicalUnique(ElidedSpans(segs), spans);
  }
}
