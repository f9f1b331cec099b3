/** Counterfactual replay of observed reads: coverage over line spans, and what is fetched to
    make up any shortfall. */
module ReadCoverage {
  import opened Numbers
  import opened Optional
  import opened StableSort
  import opened LineSpans

  // ---------------------------------------------------------------- coverage lists

  method Merge(ivs: seq<LineSpan>) returns (out: seq<LineSpan>)
    ensures LinesIn(out) == LinesIn(ivs)
    ensures (forall s <- ivs :: s.start <= s.end) ==> Canonical(out)
  {
    hide LinesIn, Sorted, Canonical;
    if ivs == [] { EmptyCanonical(); return []; }
    var sorted := Sort(ivs, SpanKey);
    SortSorts(ivs, SpanKey);
    SortMembers(ivs, SpanKey);
    SameMembers(sorted, ivs);
    out := [sorted[0]];
    FirstMerged(sorted);
    for i := 1 to |sorted|
      invariant Merged(out, sorted, i)
    {
      var s := sorted[i];
      var last := out[|out| - 1];
      MergeNext(out, sorted, i);
      if s.start <= last.end + 1 {
        out := out[..|out| - 1] + [LineSpan(last.start, Max(last.end, s.end))];
      } else {
        out := out + [s];
      }
    }
    assert sorted[..|sorted|] == sorted;
  }

  lemma {:induction false} EmptyCanonical()
    ensures Canonical([])
  {
  }

  lemma {:induction false} FirstMerged(sorted: seq<LineSpan>)
    requires sorted != []
    ensures Merged([sorted[0]], sorted, 1)
  {
    assert sorted[..1] == [sorted[0]];
    assert sorted[0] in sorted;
  }

  method Contained(t: LineSpan, ivs: seq<LineSpan>) returns (yes: bool)
    ensures yes <==> exists iv :: iv in ivs && iv.start <= t.start && t.end <= iv.end
  {
    for i := 0 to |ivs|
      invariant forall k | 0 <= k < i :: !(ivs[k].start <= t.start && t.end <= ivs[k].end)
    {
      if ivs[i].start <= t.start && ivs[i].end >= t.end { return true; }
    }
    yes := false;
  }

  /** On a canonical list one interval holding the target is the same as covering its lines. */
  lemma {:induction false} ContainedIsCovered(t: LineSpan, ivs: seq<LineSpan>)
    requires Canonical(ivs) && t.start <= t.end
    ensures (exists iv :: iv in ivs && iv.start <= t.start && t.end <= iv.end) <==> LinesOf(t) <= LinesIn(ivs)
  {
    if LinesOf(t) <= LinesIn(ivs) {
      assert t.start in LinesOf(t);
      LineMembers(ivs, t.start);
      var i :| 0 <= i < |ivs| && ivs[i].start <= t.start <= ivs[i].end;
      NextIsOutside(ivs, i);
      assert ivs[i].end + 1 in LinesOf(t) <==> t.start <= ivs[i].end + 1 <= t.end;
    }
    if iv :| iv in ivs && iv.start <= t.start && t.end <= iv.end {
      forall l <- LinesOf(t) ensures l in LinesIn(ivs) { LineMembers(ivs, l); }
    }
  }

  /** The line after an interval of a canonical list is in none. */
  lemma {:induction false} NextIsOutside(ivs: seq<LineSpan>, i: nat)
    requires Canonical(ivs) && i < |ivs|
    ensures ivs[i].end + 1 !in LinesIn(ivs)
  {
    LineMembers(ivs, ivs[i].end + 1);
    forall j | 0 <= j < |ivs| ensures !(ivs[j].start <= ivs[i].end + 1 <= ivs[j].end) {
      if j < i { assert ivs[j].end + 1 < ivs[i].start; }
      if i < j { assert ivs[i].end + 1 < ivs[j].start; }
    }
  }

  /** The list has to be canonical: two adjacent spans cover what neither contains. */
  lemma {:induction false} AdjacentSpansMiss()
    ensures var ivs, t := [LineSpan(1, 2), LineSpan(3, 4)], LineSpan(1, 4);
      LinesOf(t) <= LinesIn(ivs) && !(exists iv :: iv in ivs && iv.start <= t.start && t.end <= iv.end)
  {
    var ivs, t := [LineSpan(1, 2), LineSpan(3, 4)], LineSpan(1, 4);
    forall l <- LinesOf(t) ensures l in LinesIn(ivs) {
      LineMembers(ivs, l);
      assert ivs[if l <= 2 then 0 else 1] in ivs;
    }
  }

  /** Pairwise disjoint, non-empty, in order. */
  ghost predicate InOrder(ivs: seq<LineSpan>) {
    && (forall i | 0 <= i < |ivs| :: ivs[i].start <= ivs[i].end)
    && forall i, j | 0 <= i < j < |ivs| :: ivs[i].end < ivs[j].start
  }

  predicate NonEmpty(ivs: seq<LineSpan>) {
    forall s <- ivs :: s.start <= s.end
  }

  /** `a..b` without the lines of `cut`. */
  function Piece(a: LineSpan, cut: LineSpan): seq<LineSpan> {
    if cut.end < a.start || cut.start > a.end then [a] else
    (if cut.start > a.start then [LineSpan(a.start, cut.start - 1)] else [])
    + if cut.end < a.end then [LineSpan(cut.end + 1, a.end)] else []
  }

  lemma {:induction false} PieceExact(a: LineSpan, cut: LineSpan)
    requires a.start <= a.end
    ensures LinesIn(Piece(a, cut)) == LinesOf(a) - LinesOf(cut)
    ensures forall p <- Piece(a, cut) :: a.start <= p.start <= p.end <= a.end
    ensures cut.start <= cut.end ==> InOrder(Piece(a, cut))
  {
    var ps := Piece(a, cut);
    forall l: nat ensures l in LinesIn(ps) <==> l in LinesOf(a) - LinesOf(cut) {
      LineMembers(ps, l);
    }
  }

  lemma {:induction false} LinesConcat(a: seq<LineSpan>, b: seq<LineSpan>)
    ensures LinesIn(a + b) == LinesIn(a) + LinesIn(b)
  {
    if b == [] {
      assert a + b == a;
    } else {
      var init, last := b[..|b| - 1], b[|b| - 1];
      assert a + b == (a + init) + [last];
      LinesSnoc(a + init, last);
      LinesConcat(a, init);
    }
  }

  /** One pass: `out` is what is left of the first `i` pieces of `from`. */
  ghost predicate CutSoFar(out: seq<LineSpan>, from: seq<LineSpan>, i: nat, cut: LineSpan)
    requires i <= |from|
  {
    && NonEmpty(out) && LinesIn(out) == LinesIn(from[..i]) - LinesOf(cut)
    && (InOrder(from) && cut.start <= cut.end ==> InOrder(out))
    && (InOrder(from) ==> forall p <- out :: i > 0 && p.end <= from[i - 1].end)
  }

  lemma {:induction false} CutNext(out: seq<LineSpan>, from: seq<LineSpan>, i: nat, cut: LineSpan)
    requires i < |from| && NonEmpty(from) && CutSoFar(out, from, i, cut)
    ensures CutSoFar(out + Piece(from[i], cut), from, i + 1, cut)
  {
    hide LinesIn, LinesOf, Piece, InOrder;
    var a := from[i];
    assert a in from;
    PieceExact(a, cut);
    LinesConcat(out, Piece(a, cut));
    assert from[..i + 1] == from[..i] + [a];
    LinesSnoc(from[..i], a);
    JoinPieces(out, from, i, Piece(a, cut), cut);
  }

  lemma {:induction false} JoinPieces(out: seq<LineSpan>, from: seq<LineSpan>, i: nat, ps: seq<LineSpan>, cut: LineSpan)
    requires i < |from| && NonEmpty(out)
    requires InOrder(from) && cut.start <= cut.end ==> InOrder(out)
    requires InOrder(from) ==> forall p <- out :: i > 0 && p.end <= from[i - 1].end
    requires forall p <- ps :: from[i].start <= p.start <= p.end <= from[i].end
    requires cut.start <= cut.end ==> InOrder(ps)
    ensures NonEmpty(out + ps)
    ensures InOrder(from) && cut.start <= cut.end ==> InOrder(out + ps)
    ensures InOrder(from) ==> forall p <- out + ps :: p.end <= from[i].end
  {
    if InOrder(from) {
      assert i > 0 ==> from[i - 1].end < from[i].start <= from[i].end;
    }
  }

  method CutAll(from: seq<LineSpan>, cut: LineSpan) returns (out: seq<LineSpan>)
    requires NonEmpty(from)
    ensures NonEmpty(out) && LinesIn(out) == LinesIn(from) - LinesOf(cut)
    ensures InOrder(from) && cut.start <= cut.end ==> InOrder(out)
  {
    hide LinesIn, LinesOf, InOrder;
    out := [];
    NothingCut(from, cut);
    for i := 0 to |from|
      invariant CutSoFar(out, from, i, cut)
    {
      var a := from[i];
      CutNext(out, from, i, cut);
      if cut.end < a.start || cut.start > a.end {
        out := out + [a];
        continue;
      }
      ghost var before := out;
      if cut.start > a.start { out := out + [LineSpan(a.start, cut.start - 1)]; }
      if cut.end < a.end { out := out + [LineSpan(cut.end + 1, a.end)]; }
      assert out == before + Piece(a, cut);
    }
    assert from[..|from|] == from;
  }

  lemma {:induction false} NothingCut(from: seq<LineSpan>, cut: LineSpan)
    ensures CutSoFar([], from, 0, cut)
  {
    assert LinesIn(from[..0]) == {};
  }

  /** Exactly the lines of `t` that no interval covers. */
  method Subtract(t: LineSpan, ivs: seq<LineSpan>) returns (out: seq<LineSpan>)
    requires t.start <= t.end
    ensures NonEmpty(out) && LinesIn(out) == LinesOf(t) - LinesIn(ivs)
    ensures NonEmpty(ivs) ==> InOrder(out)
  {
    hide LinesOf;
    out := [t];
    LinesSnoc([], t);
    assert [] + [t] == [t];
    for i := 0 to |ivs|
      invariant NonEmpty(out) && LinesIn(out) == LinesOf(t) - LinesIn(ivs[..i])
      invariant NonEmpty(ivs) ==> InOrder(out)
    {
      assert ivs[i] in ivs && ivs[..i + 1] == ivs[..i] + [ivs[i]];
      LinesSnoc(ivs[..i], ivs[i]);
      out := CutAll(out, ivs[i]);
      if out == [] {
        MoreCovers(ivs, i + 1);
        break;
      }
    }
    assert ivs[..|ivs|] == ivs;
  }

  lemma {:induction false} MoreCovers(ivs: seq<LineSpan>, n: nat)
    requires n <= |ivs|
    ensures LinesIn(ivs[..n]) <= LinesIn(ivs)
  {
    assert ivs == ivs[..n] + ivs[n..];
    LinesConcat(ivs[..n], ivs[n..]);
  }

  // ---------------------------------------------------------------- the model of one read

  datatype Kind = Bare | Range | Raw | Other

  datatype Intent = Intent(kind: Kind, start: Option<nat>, end: Option<nat>)

  datatype ReadCall = ReadCall(intent: Intent, actualA: Option<nat>, actualB: Option<nat>)

  datatype FileStats = FileStats(sizeLines: int, tokensPerLine: real, bytesPerLine: real)

  datatype Config = Config(defaultPage: int, lineCap: int, byteCap: int, summarizeMin: int)

  /** Most lines one call can carry. */
  function MaxPerCall(fs: FileStats, cfg: Config): int {
    if fs.bytesPerLine > 0.0
      then Min(cfg.lineCap, Max(1, (cfg.byteCap as real / fs.bytesPerLine).Floor))
      else cfg.lineCap
  }

  function StartOf(intent: Intent): nat {
    if intent.kind == Range && intent.start.Some? && intent.start.value > 0 then intent.start.value else 1
  }

  function EndIntent(intent: Intent, size: int, cfg: Config): int
    requires intent.kind != Other
  {
    match intent.kind
    case Bare => cfg.defaultPage
    case Range => if intent.end.Some? then intent.end.value else StartOf(intent) + cfg.defaultPage - 1
    case _ => size
  }

  /** The range a call returns: never empty, from the line asked for, within the caps. */
  function EffectiveReturned(rc: ReadCall, fs: FileStats, cfg: Config): (r: Option<LineSpan>)
    ensures r.Some? <==> rc.intent.kind != Other
    ensures r.Some? ==> 1 <= r.value.start == StartOf(rc.intent) <= r.value.end
    ensures r.Some? ==> r.value.end - r.value.start + 1 <= Max(1, MaxPerCall(fs, cfg))
    ensures r.Some? && r.value.end > r.value.start ==> r.value.end <= Max(fs.sizeLines, 1)
  {
    if rc.intent.kind == Other then None else
    var size, start := Max(fs.sizeLines, 1), StartOf(rc.intent);
    var capped := Min(Min(EndIntent(rc.intent, size, cfg), size), start + cfg.lineCap - 1);
    var end := if fs.bytesPerLine > 0.0
      then Min(capped, start + Max(1, (cfg.byteCap as real / fs.bytesPerLine).Floor) - 1) else capped;
    Some(LineSpan(start, if end < start then start else end))
  }

  /** `n` lines are within the byte cap; one line always is. */
  predicate BytesFit(fs: FileStats, cfg: Config, n: int) {
    fs.bytesPerLine > 0.0 && n > 1 ==> n as real * fs.bytesPerLine <= cfg.byteCap as real
  }

  /** A read of lines `start..l` stays within what was asked, the file, and both caps. Asked is the
      default page for a bare read, the given end for a range or else a page, and the whole file for
      a raw read. */
  predicate Within(intent: Intent, fs: FileStats, cfg: Config, start: nat, l: nat) {
    && (intent.kind == Bare ==> l <= cfg.defaultPage)
    && (intent.kind == Range && intent.end.Some? ==> l <= intent.end.value)
    && (intent.kind == Range && intent.end == None ==> l - start + 1 <= cfg.defaultPage)
    && l <= Max(fs.sizeLines, 1)
    && l - start + 1 <= cfg.lineCap
    && BytesFit(fs, cfg, l - start + 1)
  }

  lemma {:induction false} FloorFits(n: int, budget: int, each: real)
    requires each > 0.0
    ensures n <= (budget as real / each).Floor <==> n as real * each <= budget as real
  {
    var q := budget as real / each;
    assert q * each == budget as real;
    assert n <= q.Floor <==> n as real <= q;
    if n as real <= q { assert n as real * each <= q * each; }
    if n as real > q { assert n as real * each > q * each; }
  }

  lemma {:induction false} BytesAllow(fs: FileStats, cfg: Config, n: int)
    requires fs.bytesPerLine > 0.0
    ensures n <= Max(1, (cfg.byteCap as real / fs.bytesPerLine).Floor) <==> BytesFit(fs, cfg, n)
  {
    FloorFits(n, cfg.byteCap, fs.bytesPerLine);
  }

  /** A read returns its first line, and beyond it exactly the lines up to which all limits hold. */
  lemma {:induction false} ReturnedExactly(rc: ReadCall, fs: FileStats, cfg: Config, l: nat)
    requires rc.intent.kind != Other
    ensures var r := EffectiveReturned(rc, fs, cfg).value;
      && r.start == (if rc.intent.kind == Range && rc.intent.start.Some? then Max(rc.intent.start.value, 1) else 1)
      && r.start <= r.end
      && (l > r.start ==> (l <= r.end <==> Within(rc.intent, fs, cfg, r.start, l)))
  {
    if fs.bytesPerLine > 0.0 { BytesAllow(fs, cfg, l - StartOf(rc.intent) + 1); }
    hide BytesFit;
  }

  /** A range is read to its given end at most, and to that end exactly if no cap cuts it. */
  lemma {:induction false} RangeEnd(rc: ReadCall, fs: FileStats, cfg: Config)
    requires rc.intent.kind == Range && rc.intent.end.Some?
    ensures var r, end := EffectiveReturned(rc, fs, cfg).value, rc.intent.end.value;
      && r.end <= Max(r.start, end)
      && (r.end == end <==> end == r.start || (end > r.start && Within(rc.intent, fs, cfg, r.start, end)))
  {
    var r, end := EffectiveReturned(rc, fs, cfg).value, rc.intent.end.value;
    ReturnedExactly(rc, fs, cfg, r.end);
    ReturnedExactly(rc, fs, cfg, end);
  }

  // ---------------------------------------------------------------- chunks

  function SumLen(spans: seq<LineSpan>): int {
    if spans == [] then 0 else
    SumLen(spans[..|spans| - 1]) + spans[|spans| - 1].end - spans[|spans| - 1].start + 1
  }

  /** A chunk may have as many lines as both caps allow, and always one. */
  lemma {:induction false} ChunkCap(fs: FileStats, cfg: Config, n: nat)
    requires n >= 1 && cfg.lineCap >= 1
    ensures n <= MaxPerCall(fs, cfg) <==> n <= cfg.lineCap && BytesFit(fs, cfg, n)
  {
    if fs.bytesPerLine > 0.0 { BytesAllow(fs, cfg, n); }
    hide BytesFit;
  }

  /** Chunks laid end to end over `s..e`, none longer than `m`. */
  ghost predicate Tiles(chunks: seq<LineSpan>, s: nat, e: nat, m: int) {
    && (forall i | 0 <= i < |chunks| :: 1 <= chunks[i].end - chunks[i].start + 1 <= m)
    && (forall i | 0 < i < |chunks| :: chunks[i].start == chunks[i - 1].end + 1)
    && (forall i | 0 <= i < |chunks| - 1 :: chunks[i].end - chunks[i].start + 1 == m)
    && (if chunks == [] then e + 1 == s else chunks[0].start == s && chunks[|chunks| - 1].end == e)
  }

  lemma {:induction false} TilesNext(out: seq<LineSpan>, s: nat, cur: nat, end: nat, m: int)
    requires cur <= end < cur + m && (if out == [] then cur == s else cur > 0 && Tiles(out, s, cur - 1, m))
    requires out != [] ==> out[|out| - 1].end - out[|out| - 1].start + 1 == m
    ensures Tiles(out + [LineSpan(cur, end)], s, end, m)
  {
  }

  method ChunkRange(t: LineSpan, fs: FileStats, cfg: Config) returns (out: seq<LineSpan>)
    requires cfg.lineCap >= 1
    ensures t.start > t.end ==> out == []
    ensures t.start <= t.end ==> out != [] && Tiles(out, t.start, t.end, MaxPerCall(fs, cfg))
  {
    var m := cfg.lineCap;
    if fs.bytesPerLine > 0.0 {
      m := Min(m, Max(1, (cfg.byteCap as real / fs.bytesPerLine).Floor));
    }
    out := [];
    var cur := t.start;
    while cur <= t.end
      invariant t.start <= cur && (if t.start <= t.end then cur <= t.end + 1 else out == [])
      invariant out == [] ==> cur == t.start
      invariant out != [] ==> cur > 0 && Tiles(out, t.start, cur - 1, m)
      invariant out != [] && cur <= t.end ==> out[|out| - 1].end - out[|out| - 1].start + 1 == m
      decreases t.end + 1 - cur
    {
      var end := Min(cur + m - 1, t.end);
      TilesNext(out, t.start, cur, end, m);
      out := out + [LineSpan(cur, end)];
      cur := end + 1;
    }
  }

  /** The loop moves on exactly when the cap is positive. */
  lemma {:induction false} ChunkAdvances(cur: nat, e: nat, m: int)
    requires cur <= e
    ensures Min(cur + m - 1, e) + 1 > cur <==> m >= 1
  {
  }

  /** Tiles cover the range once: every line, no line twice, and as few chunks as the cap allows. */
  lemma {:induction false} TilesExact(chunks: seq<LineSpan>, s: nat, e: nat, m: int)
    requires Tiles(chunks, s, e, m) && chunks != []
    ensures s <= e && LinesIn(chunks) == LinesOf(LineSpan(s, e)) && SumLen(chunks) == e - s + 1
    ensures (|chunks| - 1) * m < e - s + 1 <= |chunks| * m
  {
    hide LinesIn;
    var init, last := chunks[..|chunks| - 1], chunks[|chunks| - 1];
    assert chunks == init + [last];
    LinesSnoc(init, last);
    if init == [] {
      NoChunks();
      assert last == LineSpan(s, e);
    } else {
      assert chunks[|chunks| - 2] == init[|init| - 1];
      TilesExact(init, s, last.start - 1, m);
      FullTiles(init, s, last.start - 1, m);
      hide Tiles;
      assert (|chunks| - 1) * m == last.start - s;
      assert |chunks| * m == (|chunks| - 1) * m + m;
    }
  }

  lemma {:induction false} NoChunks()
    ensures LinesIn([]) == {} && SumLen([]) == 0
  {
  }

  lemma {:induction false} FullTiles(chunks: seq<LineSpan>, s: nat, e: nat, m: int)
    requires chunks != [] && chunks[0].start == s && chunks[|chunks| - 1].end == e
    requires forall i | 0 <= i < |chunks| :: chunks[i].end - chunks[i].start + 1 == m
    requires forall i | 0 < i < |chunks| :: chunks[i].start == chunks[i - 1].end + 1
    ensures e - s + 1 == |chunks| * m
  {
    if |chunks| > 1 {
      var init := chunks[..|chunks| - 1];
      FullTiles(init, s, init[|init| - 1].end, m);
    }
  }
}
