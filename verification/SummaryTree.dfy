/** The elidable line spans of a syntax tree, as a forest, and exactly when that forest is
    laminar.

    Kinds are abstracted to the four questions asked about them. Lines are 1-based, rows and
    columns 0-based, as tree-sitter reports them. */
module SummaryTree {
  import opened Numbers
  import opened Optional
  import opened LineSpans

  function Lines(s: LineSpan): nat {
    SatSub(s.end, s.start) + 1
  }

  datatype Node = Node(
    named: bool, comment: bool, elidable: bool, groupable: bool,
    startRow: nat, startCol: nat, endRow: nat, endCol: nat,
    children: seq<Node>)

  datatype Limits = Limits(minBody: nat, minComment: nat)

  predicate PosBefore(r: nat, c: nat, r1: nat, c1: nat) {
    r < r1 || (r == r1 && c <= c1)
  }

  /** Non-empty nodes, children nested in order without overlap. */
  predicate ValidTree(n: Node) {
    && PosBefore(n.startRow, n.startCol + 1, n.endRow, n.endCol)
    && (forall i | 0 <= i < |n.children| :: ValidTree(n.children[i]) && Nested(n, n.children[i]))
    && forall i | 0 < i < |n.children| :: Follows(n.children[i - 1], n.children[i])
  }

  predicate Nested(p: Node, c: Node) {
    && PosBefore(p.startRow, p.startCol, c.startRow, c.startCol)
    && PosBefore(c.endRow, c.endCol, p.endRow, p.endCol)
  }

  predicate Follows(a: Node, b: Node) {
    PosBefore(a.endRow, a.endCol, b.startRow, b.startCol)
  }

  function StartLine(n: Node): nat { n.startRow + 1 }

  function EndLine(n: Node): nat { n.endRow + 1 }

  /** Last line holding a byte of the node: a node ending at column 0 ends on the row before. */
  function ContentEndLine(n: Node): nat {
    if n.endCol == 0 && n.endRow > 0 then n.endRow else n.endRow + 1
  }

  function LineCount(n: Node): nat {
    SatSub(EndLine(n), StartLine(n)) + 1
  }

  // ---------------------------------------------------------------- spans

  function CommentSpan(n: Node, lim: Limits): Option<LineSpan> {
    if LineCount(n) < lim.minComment then None else
    var s, e := StartLine(n) + 2, SatSub(EndLine(n), 1);
    if s <= e then Some(LineSpan(s, e)) else None
  }

  function BodySpan(n: Node, lim: Limits): Option<LineSpan> {
    if !n.elidable || LineCount(n) < lim.minBody then None else
    var s, e := StartLine(n) + 1, SatSub(EndLine(n), 1);
    if s <= e then Some(LineSpan(s, e)) else None
  }

  /** The span of a run `cs[a..b]` of groupable siblings: the lines strictly between the first
      member's content and the last member. */
  function RunSpan(cs: seq<Node>, a: nat, b: nat, lim: Limits): Option<LineSpan>
    requires a <= b <= |cs|
  {
    if b - a < 2 then None else
    var first, last := cs[a], cs[b - 1];
    if SatSub(EndLine(last), StartLine(first)) + 1 < lim.minBody then None else
    var s := Min(ContentEndLine(first), SatSub(StartLine(last), 1)) + 1;
    var e := SatSub(StartLine(last), 1);
    if s <= e then Some(LineSpan(s, e)) else None
  }

  /** A comment keeps its first two lines and its last, a body its first and last; a run of
      siblings loses the lines between the end of its first member and the start of its last. */
  lemma {:induction false} SpanLines(n: Node, cs: seq<Node>, a: nat, b: nat, lim: Limits)
    requires n.startRow <= n.endRow && a <= b <= |cs|
    ensures var all, c := Between(StartLine(n), EndLine(n)), CommentSpan(n, lim);
      if LineCount(n) >= Max(lim.minComment, 4)
      then c.Some? && LinesOf(c.value) == all - {StartLine(n), StartLine(n) + 1, EndLine(n)} else c == None
    ensures var all, s := Between(StartLine(n), EndLine(n)), BodySpan(n, lim);
      if n.elidable && LineCount(n) >= Max(lim.minBody, 3)
      then s.Some? && LinesOf(s.value) == all - {StartLine(n), EndLine(n)} else s == None
    ensures RunSpan(cs, a, b, lim).Some? ==> b - a >= 2
    ensures RunSpan(cs, a, b, lim).Some? ==> (forall l: nat ::
      l in LinesOf(RunSpan(cs, a, b, lim).value) <==> ContentEndLine(cs[a]) < l < StartLine(cs[b - 1]))
  {
    hide Between;
  }

  // ---------------------------------------------------------------- the forest

  datatype SpanTree = SpanTree(span: LineSpan, kids: seq<SpanTree>)

  function LeafOf(s: Option<LineSpan>): seq<SpanTree> {
    match s
    case None => []
    case Some(span) => [SpanTree(span, [])]
  }

  /** Maximal runs of groupable siblings from position `i` on, `a` starting the open one. */
  function Runs(cs: seq<Node>, a: nat, i: nat): (runs: seq<(nat, nat)>)
    requires a <= i <= |cs|
    ensures forall r <- runs :: a <= r.0 <= r.1 <= |cs|
    decreases |cs| - i
  {
    if i == |cs| then [(a, i)]
    else if cs[i].groupable then Runs(cs, a, i + 1)
    else [(a, i)] + Runs(cs, i + 1, i + 1)
  }

  function RunForest(cs: seq<Node>, runs: seq<(nat, nat)>, lim: Limits): seq<SpanTree>
    requires forall r <- runs :: r.0 <= r.1 <= |cs|
  {
    if runs == [] then []
    else LeafOf(RunSpan(cs, runs[0].0, runs[0].1, lim)) + RunForest(cs, runs[1..], lim)
  }

  /** The spans a node contributes to the enclosing elidable span, each with its own. */
  function Forest(n: Node, lim: Limits): seq<SpanTree>
    decreases n, 1
  {
    if n.comment then LeafOf(CommentSpan(n, lim)) else
    match BodySpan(n, lim)
    case Some(span) => [SpanTree(span, Interior(n, lim))]
    case None => Interior(n, lim)
  }

  /** What lies inside a node: the spans of its runs, then those of its children. */
  function Interior(n: Node, lim: Limits): seq<SpanTree>
    decreases n, 0
  {
    RunForest(n.children, Runs(n.children, 0, 0), lim) + Forests(n.children, lim)
  }

  function Forests(cs: seq<Node>, lim: Limits): seq<SpanTree>
    decreases cs, 0
  {
    if cs == [] then [] else Forests(cs[..|cs| - 1], lim) + Forest(cs[|cs| - 1], lim)
  }

  lemma {:induction false} RunsInOrder(cs: seq<Node>, a: nat, i: nat)
    requires a <= i <= |cs|
    ensures forall j, k | 0 <= j < k < |Runs(cs, a, i)| :: Runs(cs, a, i)[j].1 < Runs(cs, a, i)[k].0
    decreases |cs| - i
  {
    if i < |cs| {
      if cs[i].groupable { RunsInOrder(cs, a, i + 1); } else { RunsInOrder(cs, i + 1, i + 1); }
    }
  }

  // ---------------------------------------------------------------- laminar forests

  predicate Apart(s: LineSpan, t: LineSpan) {
    s.end < t.start || t.end < s.start
  }

  predicate Within(s: LineSpan, t: LineSpan) {
    t.start <= s.start && s.end <= t.end
  }

  ghost predicate Disjoint(f: seq<SpanTree>) {
    forall i, j | 0 <= i < j < |f| :: Apart(f[i].span, f[j].span)
  }

  /** Every child inside its parent. */
  ghost predicate Contained(t: SpanTree) {
    forall k <- t.kids :: Within(k.span, t.span) && Contained(k)
  }

  /** Siblings pairwise disjoint, at every level. */
  ghost predicate Laminar(f: seq<SpanTree>)
    decreases f, 0
  {
    Disjoint(f) && forall t <- f :: LaminarTree(t)
  }

  ghost predicate LaminarTree(t: SpanTree)
    decreases t, 1
  {
    Laminar(t.kids)
  }

  /** No run that gets a span has an inner member with spans of its own. */
  predicate CleanRuns(n: Node, lim: Limits) {
    n.comment || (
      && (forall r <- Runs(n.children, 0, 0) :: CleanRun(n.children, r.0, r.1, lim))
      && forall c <- n.children :: CleanRuns(c, lim))
  }

  predicate CleanRun(cs: seq<Node>, a: nat, b: nat, lim: Limits)
    requires a <= b <= |cs|
  {
    RunSpan(cs, a, b, lim).Some? ==> forall k | a < k < b - 1 :: Forest(cs[k], lim) == []
  }
}
