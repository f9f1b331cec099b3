/** Lines that close or open a block whose other end is shown, and the block that begins on a
    line. */
module BlockBoundaries {
  import opened Optional
  import opened StableSort
  import opened LineSpans
  import opened SummaryTree
  import opened SummaryNormalize

  // ---------------------------------------------------------------- the visible lines

  predicate ValidRange(r: LineSpan) {
    r.start > 0 && r.end >= r.start
  }

  /** A line lies in one of the valid requested ranges. */
  ghost predicate Requested(ranges: seq<LineSpan>, l: nat) {
    exists r :: r in ranges && ValidRange(r) && r.start <= l <= r.end
  }

  method NormalizeRanges(ranges: seq<LineSpan>) returns (merged: seq<LineSpan>)
    requires forall r <- ranges :: r.end <= U32_MAX
    ensures Canonical(merged)
    ensures forall l: nat :: l in LinesIn(merged) <==> Requested(ranges, l)
  {
    var kept: seq<LineSpan> := [];
    for i := 0 to |ranges|
      invariant forall r :: r in kept <==> r in ranges[..i] && ValidRange(r)
    {
      assert ranges[..i + 1] == ranges[..i] + [ranges[i]];
      if ValidRange(ranges[i]) { kept := kept + [ranges[i]]; }
    }
    assert ranges[..|ranges|] == ranges;
    SortSorts(kept, SpanKey);
    SortMembers(kept, SpanKey);
    SameMembers(Sort(kept, SpanKey), kept);
    merged := MergeSorted(Sort(kept, SpanKey), U32_MAX);
    forall l: nat ensures l in LinesIn(merged) <==> Requested(ranges, l) { LineMembers(kept, l); }
  }

  /** Binary search over the merged list decides whether a line is shown. */
  method IsVisible(merged: seq<LineSpan>, line: nat) returns (yes: bool)
    requires Canonical(merged)
    ensures yes <==> line in LinesIn(merged)
  {
    LineMembers(merged, line);
    hide LinesIn;
    var lo, hi := 0, |merged|;
    while lo < hi
      invariant 0 <= lo <= hi <= |merged|
      invariant forall k | 0 <= k < lo :: merged[k].end < line
      invariant forall k | hi <= k < |merged| :: line < merged[k].start
    {
      var mid := lo + (hi - lo) / 2;
      if line < merged[mid].start {
        hi := mid;
      } else if line > merged[mid].end {
        lo := mid + 1;
      } else {
        assert merged[mid] in merged;
        return true;
      }
    }
    yes := false;
  }

  // ---------------------------------------------------------------- the walk

  /** `d` is a proper descendant of `n`. */
  ghost predicate Under(d: Node, n: Node) {
    exists k :: 0 <= k < |n.children| && (d == n.children[k] || Under(d, n.children[k]))
  }

  /** `l` is the end of a multi-line named node that is not shown while its other end is. */
  predicate Crosses(n: Node, shown: set<nat>, l: nat) {
    var start, end := StartLine(n), ContentEndLine(n);
    n.named && end > start && ((start in shown && end !in shown && l == end)
      || (end in shown && start !in shown && l == start))
  }

  /** Of the two ends of such a node the one not shown is meant, and only if the other one is. */
  lemma {:induction false} HiddenEnd(n: Node, shown: set<nat>, l: nat)
    ensures Crosses(n, shown, l) <==>
      && n.named && StartLine(n) < ContentEndLine(n) && l !in shown && l in {StartLine(n), ContentEndLine(n)}
      && StartLine(n) + ContentEndLine(n) - l in shown
  {
  }

  ghost predicate Below(n: Node, shown: set<nat>, l: nat) {
    exists d :: Under(d, n) && Crosses(d, shown, l)
  }

  ghost predicate BelowFirst(n: Node, k: nat, shown: set<nat>, l: nat) {
    exists i :: 0 <= i < k && i < |n.children| && (Crosses(n.children[i], shown, l) || Below(n.children[i], shown, l))
  }

  lemma {:induction false} BelowChildren(n: Node, shown: set<nat>, l: nat)
    ensures Below(n, shown, l) <==> BelowFirst(n, |n.children|, shown, l)
  {
    if Below(n, shown, l) {
      var d :| Under(d, n) && Crosses(d, shown, l);
      var k :| 0 <= k < |n.children| && (d == n.children[k] || Under(d, n.children[k]));
      assert Crosses(n.children[k], shown, l) || Below(n.children[k], shown, l);
    }
    if BelowFirst(n, |n.children|, shown, l) {
      var i :| 0 <= i < |n.children| && (Crosses(n.children[i], shown, l) || Below(n.children[i], shown, l));
      if Crosses(n.children[i], shown, l) {
        assert Under(n.children[i], n);
      } else {
        var d :| Under(d, n.children[i]) && Crosses(d, shown, l);
        assert Under(d, n);
      }
    }
  }

  method CollectBoundaries(n: Node, isRoot: bool, merged: seq<LineSpan>, out: set<nat>) returns (r: set<nat>)
    requires Canonical(merged)
    ensures forall l: nat :: l in r <==>
      l in out || (!isRoot && Crosses(n, LinesIn(merged), l)) || Below(n, LinesIn(merged), l)
    decreases n
  {
    hide LinesIn, Canonical, Under, Below;
    r := out;
    if n.named && !isRoot {
      var start, end := StartLine(n), ContentEndLine(n);
      if end > start {
        var startVisible := IsVisible(merged, start);
        var endVisible := IsVisible(merged, end);
        if startVisible && !endVisible {
          r := r + {end};
        } else if endVisible && !startVisible {
          r := r + {start};
        }
      }
    }
    ghost var own := r;
    for k := 0 to |n.children|
      invariant forall l: nat :: l in r <==> l in own || BelowFirst(n, k, LinesIn(merged), l)
    {
      ghost var before := r;
      r := CollectBoundaries(n.children[k], false, merged, r);
      NextChild(n, k, LinesIn(merged));
    }
    forall l: nat ensures Below(n, LinesIn(merged), l) <==> BelowFirst(n, |n.children|, LinesIn(merged), l) {
      BelowChildren(n, LinesIn(merged), l);
    }
  }

  lemma {:induction false} NextChild(n: Node, k: nat, shown: set<nat>)
    requires k < |n.children|
    ensures forall l: nat :: BelowFirst(n, k + 1, shown, l) <==>
      BelowFirst(n, k, shown, l) || Crosses(n.children[k], shown, l) || Below(n.children[k], shown, l)
  {
    hide Below, Crosses;
  }

  /** A line is reported exactly when it is the hidden end of a multi-line named node, other than
      the root, whose other end lies in a valid requested range. */
  method EnclosingBoundaries(root: Node, ranges: seq<LineSpan>, ghost shown: set<nat>) returns (out: set<nat>)
    requires forall r <- ranges :: r.end <= U32_MAX
    requires forall l: nat :: l in shown <==> Requested(ranges, l)
    ensures forall l: nat :: l in out <==> exists d :: Under(d, root) && Crosses(d, shown, l)
  {
    var merged := NormalizeRanges(ranges);
    assert LinesIn(merged) == shown;
    if merged == [] {
      NothingShown(root, shown);
      return {};
    }
    hide LinesIn, Crosses;
    out := CollectBoundaries(root, true, merged, {});
  }

  lemma {:induction false} NothingShown(root: Node, shown: set<nat>)
    requires shown == {}
    ensures forall d, l: nat :: !Crosses(d, shown, l)
  {
  }

  // ---------------------------------------------------------------- the block on a line

  /** A path from the root down to a node: each one nested in the one before. */
  ghost predicate Path(path: seq<Node>) {
    path != [] && forall i | 0 < i < |path| :: Nested(path[i - 1], path[i])
  }

  lemma {:induction false} RowsDescend(path: seq<Node>, i: nat, j: nat)
    requires Path(path) && i <= j < |path|
    ensures path[i].startRow <= path[j].startRow
  {
    if i < j { RowsDescend(path, i, j - 1); }
  }

  /** Where the block of a leaf that begins on `row` is found on the path: at the outermost node
      below the root that begins there, and at the root only if the leaf is the root. */
  function BlockIndex(path: seq<Node>, row: nat, from: nat): (k: nat)
    requires 1 <= from <= |path| && path[|path| - 1].startRow == row
    ensures |path| == 1 <==> k == 0
    ensures k < |path| && path[k].startRow == row
    ensures forall i | from <= i < |path| && path[i].startRow == row :: k <= i
    ensures k == 0 || k >= from || from == |path|
    decreases |path| - from
  {
    if from >= |path| then |path| - 1
    else if path[from].startRow == row then from else BlockIndex(path, row, from + 1)
  }

  /** The climb ends at that node. */
  method Climb(path: seq<Node>, row: nat) returns (k: nat)
    requires Path(path) && path[|path| - 1].startRow == row
    ensures k == BlockIndex(path, row, 1)
  {
    k := |path| - 1;
    while k > 0
      invariant k < |path| && path[k].startRow == row && (|path| > 1 ==> k >= 1)
    {
      var parent := path[k - 1];
      if k - 1 == 0 { break; }
      if parent.startRow != row { break; }
      k := k - 1;
    }
    forall i | 1 <= i < k ensures path[i].startRow != row {
      RowsDescend(path, i, k - 1);
      RowsDescend(path, k - 1, k);
    }
  }

  /** The block beginning on `line`, given the path to the smallest named node at its first
      character. */
  function BlockAt(path: seq<Node>, line: nat, hasError: Node -> bool): Option<LineSpan>
    requires path != []
  {
    if line == 0 || path[|path| - 1].startRow != line - 1 then None else
    var n := path[BlockIndex(path, line - 1, 1)];
    if hasError(n) then None else Some(LineSpan(StartLine(n), ContentEndLine(n)))
  }

  method BlockRangeAt(path: seq<Node>, line: nat, hasError: Node -> bool) returns (r: Option<LineSpan>)
    requires Path(path)
    ensures r == BlockAt(path, line, hasError)
  {
    if line == 0 { return None; }
    var leaf := path[|path| - 1];
    if leaf.startRow != line - 1 { return None; }
    var at := Climb(path, line - 1);
    if hasError(path[at]) { return None; }
    r := Some(LineSpan(StartLine(path[at]), ContentEndLine(path[at])));
  }

  /** The span is that of the `k`-th node of the path, the first below the root on this line, or the
      root where the path has no other node. */
  ghost predicate BlockOf(path: seq<Node>, k: nat, span: LineSpan) {
    && k < |path| && span == LineSpan(StartLine(path[k]), ContentEndLine(path[k]))
    && (k == 0 <==> |path| == 1)
    && forall i | 1 <= i < |path| && StartLine(path[i]) == span.start :: k <= i
  }

  /** A block is found exactly when the leaf begins on the line and what the climb reaches has no
      error; it begins on that line, and it is the root exactly when the leaf is. */
  lemma {:induction false} BlockFound(path: seq<Node>, line: nat, hasError: Node -> bool)
    requires Path(path) && forall n <- path :: ValidTree(n)
    ensures BlockAt(path, line, hasError).Some? <==>
      line > 0 && path[|path| - 1].startRow == line - 1
      && exists k: nat, span :: BlockOf(path, k, span) && span.start == line && !hasError(path[k])
    ensures forall k: nat, span | BlockAt(path, line, hasError).Some? && BlockOf(path, k, span) && span.start == line ::
      BlockAt(path, line, hasError).value == span
    ensures BlockAt(path, line, hasError).Some? ==>
      var span := BlockAt(path, line, hasError).value; line == span.start <= span.end
  {
    if line > 0 && path[|path| - 1].startRow == line - 1 {
      var k := BlockIndex(path, line - 1, 1);
      var span := LineSpan(StartLine(path[k]), ContentEndLine(path[k]));
      assert BlockOf(path, k, span) && path[k] in path;
      forall j: nat, other | BlockOf(path, j, other) && other.start == line ensures j == k {
        if |path| > 1 { assert path[j].startRow == line - 1; }
      }
    }
  }

  /** A leaf that is the whole-file root is returned, although the climb is said to exclude it. */
  lemma {:induction false} RootIsReturned(root: Node, hasError: Node -> bool)
    requires !hasError(root)
    ensures BlockAt([root], StartLine(root), hasError) == Some(LineSpan(StartLine(root), ContentEndLine(root)))
  {
  }

  ghost predicate TreePath(path: seq<Node>) {
    path != [] && forall i | 0 < i < |path| :: path[i] in path[i - 1].children
  }

  lemma {:induction false} PathUnder(path: seq<Node>, k: nat)
    requires TreePath(path) && 0 < k < |path|
    ensures Under(path[k], path[0])
    decreases k
  {
    assert path[1] in path[1 - 1].children;
    var c :| 0 <= c < |path[0].children| && path[0].children[c] == path[1];
    if k > 1 {
      assert forall i | 0 < i < |path[1..]| :: path[1..][i] == path[i + 1] && path[1..][i - 1] == path[i];
      PathUnder(path[1..], k - 1);
      assert path[1..][k - 1] == path[k];
    }
  }

  /** Show the first line of a resolved multi-line block, hide its last, and the last is reported. */
  lemma {:induction false} ResolvedBlockIsSurfaced(path: seq<Node>, k: nat, span: LineSpan, shown: set<nat>)
    requires TreePath(path) && |path| > 1 && BlockOf(path, k, span) && path[k].named
    requires span.start < span.end && span.start in shown && span.end !in shown
    ensures exists d :: Under(d, path[0]) && Crosses(d, shown, span.end)
  {
    PathUnder(path, k);
    assert Crosses(path[k], shown, span.end);
  }
}
