/** Normalising the folded spans: filter, cut to the file, sort, and merge what touches. */
module SummaryNormalize {
  import opened Numbers
  import opened StableSort
  import opened LineSpans

  ghost predicate FitsFile(spans: seq<LineSpan>, total: nat) {
    forall s <- spans :: s.start <= s.end <= total
  }

  function UpTo(total: nat): set<nat> {
    Between(0, total)
  }

  /** Drop empty and out-of-range spans and cut the rest to the file. */
  method Retain(spans: seq<LineSpan>, total: nat) returns (kept: seq<LineSpan>)
    ensures FitsFile(kept, total)
    ensures LinesIn(kept) == LinesIn(spans) * UpTo(total)
  {
    kept := [];
    for i := 0 to |spans|
      invariant FitsFile(kept, total)
      invariant LinesIn(kept) == LinesIn(spans[..i]) * UpTo(total)
    {
      var s := spans[i];
      LinesSnoc(spans[..i], s);
      assert spans[..i + 1] == spans[..i] + [s];
      CutLines(s, total);
      if s.start <= s.end && s.start <= total {
        LinesSnoc(kept, LineSpan(s.start, Min(s.end, total)));
        kept := kept + [LineSpan(s.start, Min(s.end, total))];
      }
    }
    assert spans[..|spans|] == spans;
  }

  lemma {:induction false} CutLines(s: LineSpan, total: nat)
    ensures LinesOf(s) * UpTo(total)
      == if s.start <= s.end && s.start <= total then LinesOf(LineSpan(s.start, Min(s.end, total))) else {}
  {
  }

  /** The merging pass over sorted, non-empty spans of 32-bit lines. */
  method MergeSorted(sorted: seq<LineSpan>, total: nat) returns (merged: seq<LineSpan>)
    requires Sorted(sorted, SpanKey) && FitsFile(sorted, total) && total <= U32_MAX
    ensures Canonical(merged) && FitsFile(merged, total) && LinesIn(merged) == LinesIn(sorted)
  {
    hide LinesIn, Sorted, Canonical;
    merged := [];
    NothingMerged(sorted);
    for i := 0 to |sorted|
      invariant Merged(merged, sorted, i) && FitsFile(merged, total)
    {
      var s := sorted[i];
      assert s in sorted;
      MergeNext(merged, sorted, i);
      if merged != [] && s.start <= SatAdd(merged[|merged| - 1].end, 1) {
        var last := merged[|merged| - 1];
        assert last in merged;
        merged := merged[..|merged| - 1] + [LineSpan(last.start, Max(last.end, s.end))];
      } else {
        merged := merged + [s];
      }
    }
    assert sorted[..|sorted|] == sorted;
  }

  lemma {:induction false} NothingMerged(sorted: seq<LineSpan>)
    ensures Merged([], sorted, 0)
  {
  }

  /** The normal form: canonical, inside the file, and covering the same lines. */
  method NormalizeSpans(spans: seq<LineSpan>, total: nat) returns (merged: seq<LineSpan>)
    requires total <= U32_MAX
    ensures Canonical(merged) && FitsFile(merged, total)
    ensures LinesIn(merged) == if total == 0 then {} else LinesIn(spans) * UpTo(total)
  {
    if total == 0 { return []; }
    var kept := Retain(spans, total);
    SortSorts(kept, SpanKey);
    SortMembers(kept, SpanKey);
    SameMembers(Sort(kept, SpanKey), kept);
    merged := MergeSorted(Sort(kept, SpanKey), total);
  }
}
