/** The two-phase replay of one file's reads: simulate every call, then fetch the shortfall. */
module ReadPair {
  import opened Numbers
  import opened Optional
  import opened LineSpans
  import opened ReadCoverage

  const ROUNDTRIP_OVERHEAD: real := 200.0

  /** One paid call. */
  datatype Charge = Charge(span: LineSpan, kind: Kind)

  function CostOfChunk(c: Charge, fs: FileStats, cfg: Config): real {
    var raw := Max(c.span.end - c.span.start + 1, 0) as real * fs.tokensPerLine;
    if c.kind == Bare && cfg.summarizeMin >= 0 && fs.sizeLines >= cfg.summarizeMin then raw * 0.35 else raw
  }

  function TotalCost(charges: seq<Charge>, fs: FileStats, cfg: Config): real {
    if charges == [] then 0.0 else
    TotalCost(charges[..|charges| - 1], fs, cfg) + CostOfChunk(charges[|charges| - 1], fs, cfg) + ROUNDTRIP_OVERHEAD
  }

  function SpansOf(charges: seq<Charge>): seq<LineSpan> {
    seq(|charges|, i requires 0 <= i < |charges| => charges[i].span)
  }

  /** What the agent received from one call. */
  function Observed(rc: ReadCall): Option<LineSpan> {
    if rc.actualA.Some? && rc.actualB.Some? && rc.actualB.value >= rc.actualA.value
      then Some(LineSpan(rc.actualA.value, rc.actualB.value)) else None
  }

  function Needed(history: seq<ReadCall>): set<nat> {
    if history == [] then {} else
    var o := Observed(history[|history| - 1]);
    Needed(history[..|history| - 1]) + if o.Some? then LinesOf(o.value) else {}
  }

  lemma {:induction false} NeededHas(history: seq<ReadCall>, rc: ReadCall)
    requires rc in history && Observed(rc).Some?
    ensures LinesOf(Observed(rc).value) <= Needed(history)
  {
    if rc != history[|history| - 1] { NeededHas(history[..|history| - 1], rc); }
  }

  /** What was needed are the lines some call was seen to return. */
  lemma {:induction false} NeededIs(history: seq<ReadCall>, l: nat)
    ensures l in Needed(history) <==>
      exists rc <- history :: rc.actualA.Some? && rc.actualB.Some? && rc.actualA.value <= l <= rc.actualB.value
  {
    if history != [] {
      var init, last := history[..|history| - 1], history[|history| - 1];
      NeededIs(init, l);
      assert history == init + [last];
      hide Needed;
      assert forall rc :: rc in history <==> rc in init || rc == last;
    }
  }

  function ChargeOf(rc: ReadCall, fs: FileStats, cfg: Config): Charge
    requires rc.intent.kind != Other
  {
    Charge(EffectiveReturned(rc, fs, cfg).value, rc.intent.kind)
  }

  /** A call is paid exactly when some of its lines are not covered yet. */
  function PaidCalls(history: seq<ReadCall>, fs: FileStats, cfg: Config): seq<Charge> {
    if history == [] then [] else
    var before, rc := PaidCalls(history[..|history| - 1], fs, cfg), history[|history| - 1];
    if rc.intent.kind == Other || LinesOf(ChargeOf(rc, fs, cfg).span) <= LinesIn(SpansOf(before)) then before
    else before + [ChargeOf(rc, fs, cfg)]
  }

  lemma {:induction false} SpansSnoc(charges: seq<Charge>, c: Charge)
    ensures SpansOf(charges + [c]) == SpansOf(charges) + [c.span]
    ensures LinesIn(SpansOf(charges + [c])) == LinesIn(SpansOf(charges)) + LinesOf(c.span)
  {
    assert SpansOf(charges + [c]) == SpansOf(charges) + [c.span];
    LinesSnoc(SpansOf(charges), c.span);
  }

  lemma {:induction false} CostSnoc(charges: seq<Charge>, c: Charge, fs: FileStats, cfg: Config)
    ensures TotalCost(charges + [c], fs, cfg)
      == TotalCost(charges, fs, cfg) + CostOfChunk(c, fs, cfg) + ROUNDTRIP_OVERHEAD
  {
    assert (charges + [c])[..|charges|] == charges;
  }

  /** Phase 1. */
  method SimulateCalls(history: seq<ReadCall>, fs: FileStats, cfg: Config)
    returns (covered: seq<LineSpan>, needed: seq<LineSpan>, total: real, kept: nat, ghost paid: seq<Charge>)
    ensures paid == PaidCalls(history, fs, cfg) && kept == |paid| && total == TotalCost(paid, fs, cfg)
    ensures Canonical(covered) && LinesIn(covered) == LinesIn(SpansOf(paid))
    ensures NonEmpty(needed) && LinesIn(needed) == Needed(history)
  {
    hide Canonical, LinesIn, LinesOf, PaidCalls, Needed, TotalCost, CostOfChunk, SpansOf;
    covered, needed, total, kept, paid := [], [], 0.0, 0, [];
    NoReads(fs, cfg);
    for i := 0 to |history|
      invariant paid == PaidCalls(history[..i], fs, cfg) && kept == |paid| && total == TotalCost(paid, fs, cfg)
      invariant Canonical(covered) && LinesIn(covered) == LinesIn(SpansOf(paid))
      invariant NonEmpty(needed) && LinesIn(needed) == Needed(history[..i])
    {
      var rc := history[i];
      OneMoreRead(history, i, fs, cfg);
      if rc.actualA.Some? && rc.actualB.Some? && rc.actualB.value >= rc.actualA.value {
        LinesSnoc(needed, LineSpan(rc.actualA.value, rc.actualB.value));
        needed := needed + [LineSpan(rc.actualA.value, rc.actualB.value)];
      }
      var ret := EffectiveReturned(rc, fs, cfg);
      if ret == None { continue; }
      var span := ret.value;
      ContainedIsCovered(span, covered);
      var inside := Contained(span, covered);
      if inside { continue; }
      ghost var c := Charge(span, rc.intent.kind);
      total := total + CostOfChunk(Charge(span, rc.intent.kind), fs, cfg) + ROUNDTRIP_OVERHEAD;
      kept := kept + 1;
      SpansSnoc(paid, c);
      CostSnoc(paid, c, fs, cfg);
      paid := paid + [c];
      LinesSnoc(covered, span);
      CanonicalNonEmpty(covered);
      covered := Merge(covered + [span]);
    }
    assert history[..|history|] == history;
  }

  lemma {:induction false} CanonicalNonEmpty(ivs: seq<LineSpan>)
    requires Canonical(ivs)
    ensures NonEmpty(ivs) && InOrder(ivs)
  {
  }

  lemma {:induction false} NoReads(fs: FileStats, cfg: Config)
    ensures PaidCalls([], fs, cfg) == [] && Needed([]) == {} == LinesIn([]) && TotalCost([], fs, cfg) == 0.0
    ensures SpansOf([]) == [] && Canonical([])
  {
  }

  lemma {:induction false} OneMoreRead(history: seq<ReadCall>, i: nat, fs: FileStats, cfg: Config)
    requires i < |history|
    ensures var before, rc := PaidCalls(history[..i], fs, cfg), history[i];
      PaidCalls(history[..i + 1], fs, cfg)
        == if rc.intent.kind == Other || LinesOf(ChargeOf(rc, fs, cfg).span) <= LinesIn(SpansOf(before)) then before
          else before + [ChargeOf(rc, fs, cfg)]
    ensures Needed(history[..i + 1])
      == Needed(history[..i]) + if Observed(history[i]).Some? then LinesOf(Observed(history[i]).value) else {}
  {
    assert history[..i + 1][..i] == history[..i];
  }

  /** What the first phase delivers: every simulated call, whether paid or dropped. */
  lemma {:induction false} PaidDeliver(history: seq<ReadCall>, fs: FileStats, cfg: Config, rc: ReadCall)
    requires rc in history && rc.intent.kind != Other
    ensures LinesOf(ChargeOf(rc, fs, cfg).span) <= LinesIn(SpansOf(PaidCalls(history, fs, cfg)))
  {
    var init, last := history[..|history| - 1], history[|history| - 1];
    var before := PaidCalls(init, fs, cfg);
    if rc in init { PaidDeliver(init, fs, cfg, rc); }
    if last.intent.kind != Other { SpansSnoc(before, ChargeOf(last, fs, cfg)); }
    hide LinesIn, LinesOf, SpansOf;
  }

  /** Some line of the span is in no call paid before call `j`; the paid ones stand at `at`. */
  ghost predicate BringsNew(span: LineSpan, paid: seq<Charge>, at: seq<nat>, j: nat)
    requires |at| == |paid|
  {
    exists l: nat :: l in LinesOf(span) && forall i | 0 <= i < |at| && at[i] < j :: l !in LinesOf(paid[i].span)
  }

  /** In order, and just those calls that bring a line which no call paid before them has. */
  ghost predicate PaidAt(history: seq<ReadCall>, paid: seq<Charge>, at: seq<nat>, fs: FileStats, cfg: Config) {
    && |at| == |paid|
    && (forall i | 0 <= i < |at| ::
          && at[i] < |history| && history[at[i]].intent.kind != Other
          && paid[i] == ChargeOf(history[at[i]], fs, cfg))
    && (forall i, j | 0 <= i < j < |at| :: at[i] < at[j])
    && forall j: nat | j < |history| && history[j].intent.kind != Other ::
         j in at <==> BringsNew(ChargeOf(history[j], fs, cfg).span, paid, at, j)
  }

  lemma {:induction false} PaidLines(paid: seq<Charge>, l: nat)
    ensures l in LinesIn(SpansOf(paid)) <==> exists i :: 0 <= i < |paid| && l in LinesOf(paid[i].span)
  {
    LineMembers(SpansOf(paid), l);
    if l in LinesIn(SpansOf(paid)) {
      var s :| s in SpansOf(paid) && s.start <= l <= s.end;
      var i :| 0 <= i < |paid| && SpansOf(paid)[i] == s;
      assert l in LinesOf(paid[i].span);
    }
    if i :| 0 <= i < |paid| && l in LinesOf(paid[i].span) { assert SpansOf(paid)[i] in SpansOf(paid); }
  }

  lemma {:induction false} NewToAll(span: LineSpan, paid: seq<Charge>, at: seq<nat>, j: nat)
    requires |at| == |paid| && forall i | 0 <= i < |at| :: at[i] < j
    ensures BringsNew(span, paid, at, j) <==> !(LinesOf(span) <= LinesIn(SpansOf(paid)))
  {
    forall l: nat ensures l in LinesIn(SpansOf(paid)) <==> exists i :: 0 <= i < |paid| && l in LinesOf(paid[i].span) {
      PaidLines(paid, l);
    }
    hide LinesOf, LinesIn, SpansOf;
  }

  lemma {:induction false} LaterNoMatter(span: LineSpan, paid: seq<Charge>, at: seq<nat>, c: Charge, n: nat, j: nat)
    requires |at| == |paid| && j <= n
    ensures BringsNew(span, paid + [c], at + [n], j) <==> BringsNew(span, paid, at, j)
  {
    hide LinesOf;
    if BringsNew(span, paid, at, j) {
      var l: nat :| l in LinesOf(span) && forall i | 0 <= i < |at| && at[i] < j :: l !in LinesOf(paid[i].span);
      assert forall i | 0 <= i < |at + [n]| && (at + [n])[i] < j :: i < |at|;
    }
    if BringsNew(span, paid + [c], at + [n], j) {
      var l: nat :| l in LinesOf(span)
        && forall i | 0 <= i < |at + [n]| && (at + [n])[i] < j :: l !in LinesOf((paid + [c])[i].span);
      forall i | 0 <= i < |at| && at[i] < j ensures l !in LinesOf(paid[i].span) {
        assert (at + [n])[i] == at[i] && (paid + [c])[i] == paid[i];
      }
    }
  }

  /** Which calls are paid: one by one, those that bring something new. */
  lemma {:induction false} PaidExactly(history: seq<ReadCall>, fs: FileStats, cfg: Config) returns (at: seq<nat>)
    ensures PaidAt(history, PaidCalls(history, fs, cfg), at, fs, cfg)
  {
    if history == [] {
      at := [];
    } else {
      var last := |history| - 1;
      var init, rc, before := history[..last], history[last], PaidCalls(history[..last], fs, cfg);
      at := PaidExactly(init, fs, cfg);
      assert history == init + [rc];
      if rc.intent.kind != Other {
        NewToAll(ChargeOf(rc, fs, cfg).span, before, at, last);
        at := OneMorePaid(init, rc, before, at, fs, cfg);
      }
    }
  }

  lemma {:induction false} OneMorePaid(
    init: seq<ReadCall>, rc: ReadCall, before: seq<Charge>, at: seq<nat>, fs: FileStats, cfg: Config)
    returns (next: seq<nat>)
    requires PaidAt(init, before, at, fs, cfg) && rc.intent.kind != Other
    ensures var c := ChargeOf(rc, fs, cfg);
      PaidAt(init + [rc], if BringsNew(c.span, before, at, |init|) then before + [c] else before, next, fs, cfg)
  {
    var c, n, history := ChargeOf(rc, fs, cfg), |init|, init + [rc];
    hide LinesOf, BringsNew, ChargeOf;
    if BringsNew(c.span, before, at, n) {
      next := at + [n];
      forall j: nat | j < |history| && history[j].intent.kind != Other
        ensures j in next <==> BringsNew(ChargeOf(history[j], fs, cfg).span, before + [c], next, j)
      {
        LaterNoMatter(ChargeOf(history[j], fs, cfg).span, before, at, c, n, j);
        if j < n { assert history[j] == init[j]; }
      }
    } else {
      next := at;
    }
  }

  // ---------------------------------------------------------------- phase 2

  /** The gaps between what was needed and what is covered, in order. */
  method Gaps(needed: seq<LineSpan>, covered: seq<LineSpan>) returns (gaps: seq<LineSpan>)
    requires Canonical(needed) && NonEmpty(covered)
    ensures InOrder(gaps) && LinesIn(gaps) == LinesIn(needed) - LinesIn(covered)
  {
    hide LinesIn, LinesOf, Canonical;
    gaps := [];
    NoGaps(needed);
    for i := 0 to |needed|
      invariant InOrder(gaps) && LinesIn(gaps) == LinesIn(needed[..i]) - LinesIn(covered)
      invariant forall g <- gaps :: i > 0 && g.end <= needed[i - 1].end
    {
      CanonicalNonEmpty(needed);
      var left := Subtract(needed[i], covered);
      assert needed[..i + 1] == needed[..i] + [needed[i]];
      LinesSnoc(needed[..i], needed[i]);
      LinesConcat(gaps, left);
      StaysWithin(left, needed[i]);
      gaps := gaps + left;
    }
    assert needed[..|needed|] == needed;
  }

  lemma {:induction false} NoGaps(needed: seq<LineSpan>)
    ensures LinesIn([]) == {} && needed[..0] == []
  {
  }

  lemma {:induction false} StaysWithin(parts: seq<LineSpan>, t: LineSpan)
    requires NonEmpty(parts) && LinesIn(parts) <= LinesOf(t)
    ensures forall p <- parts :: t.start <= p.start <= p.end <= t.end
  {
    forall p <- parts ensures t.start <= p.start <= p.end <= t.end {
      LineMembers(parts, p.start);
      LineMembers(parts, p.end);
      assert p.start in LinesOf(t) && p.end in LinesOf(t);
    }
  }

  function AsCharges(spans: seq<LineSpan>): seq<Charge> {
    seq(|spans|, i requires 0 <= i < |spans| => Charge(spans[i], Range))
  }

  /** Fetch every gap in chunks: the coverage gains exactly the gaps, each line paid once. */
  method FillGaps(gaps: seq<LineSpan>, covered: seq<LineSpan>, fs: FileStats, cfg: Config)
    returns (now: seq<LineSpan>, extra: real, chunks: seq<LineSpan>)
    requires InOrder(gaps) && Canonical(covered) && cfg.lineCap >= 1
    ensures Canonical(now) && LinesIn(now) == LinesIn(covered) + LinesIn(gaps)
    ensures LinesIn(chunks) == LinesIn(gaps) && SumLen(chunks) == SumLen(gaps)
    ensures extra == TotalCost(AsCharges(chunks), fs, cfg)
    ensures forall c <- chunks :: 1 <= c.end - c.start + 1 <= MaxPerCall(fs, cfg)
  {
    hide LinesIn, LinesOf, Canonical, TotalCost, CostOfChunk, SumLen, Tiles, MaxPerCall;
    now, extra, chunks := covered, 0.0, [];
    NothingFilled(gaps, fs, cfg);
    for i := 0 to |gaps|
      invariant Canonical(now) && LinesIn(now) == LinesIn(covered) + LinesIn(gaps[..i])
      invariant LinesIn(chunks) == LinesIn(gaps[..i]) && SumLen(chunks) == SumLen(gaps[..i])
      invariant extra == TotalCost(AsCharges(chunks), fs, cfg)
      invariant forall c <- chunks :: 1 <= c.end - c.start + 1 <= MaxPerCall(fs, cfg)
    {
      var parts := ChunkRange(gaps[i], fs, cfg);
      GapFilled(gaps, i, chunks, parts, now, MaxPerCall(fs, cfg));
      var added := PayChunks(chunks, parts, fs, cfg);
      extra, chunks := extra + added, chunks + parts;
      now := Merge(now + parts);
    }
    assert gaps[..|gaps|] == gaps;
  }

  lemma {:induction false} NothingFilled(gaps: seq<LineSpan>, fs: FileStats, cfg: Config)
    ensures LinesIn([]) == {} && SumLen([]) == 0 && gaps[..0] == [] && TotalCost(AsCharges([]), fs, cfg) == 0.0
  {
  }

  lemma {:induction false} GapFilled(
    gaps: seq<LineSpan>, i: nat, chunks: seq<LineSpan>, parts: seq<LineSpan>, now: seq<LineSpan>, m: int)
    requires i < |gaps| && parts != [] && Tiles(parts, gaps[i].start, gaps[i].end, m) && Canonical(now)
    ensures LinesIn(gaps[..i + 1]) == LinesIn(gaps[..i]) + LinesIn(parts)
    ensures SumLen(gaps[..i + 1]) == SumLen(gaps[..i]) + SumLen(parts)
    ensures LinesIn(chunks + parts) == LinesIn(chunks) + LinesIn(parts)
    ensures SumLen(chunks + parts) == SumLen(chunks) + SumLen(parts)
    ensures LinesIn(now + parts) == LinesIn(now) + LinesIn(parts)
    ensures NonEmpty(now + parts)
    ensures forall c <- parts :: 1 <= c.end - c.start + 1 <= m
  {
    var g := gaps[i];
    assert gaps[..i + 1] == gaps[..i] + [g] && gaps[..i + 1][..i] == gaps[..i];
    LinesSnoc(gaps[..i], g);
    TilesExact(parts, g.start, g.end, m);
    LinesConcat(chunks, parts);
    LinesConcat(now, parts);
    SumConcat(chunks, parts);
    hide LinesIn;
  }

  lemma {:induction false} SumConcat(a: seq<LineSpan>, b: seq<LineSpan>)
    ensures SumLen(a + b) == SumLen(a) + SumLen(b)
  {
    if b == [] {
      assert a + b == a;
    } else {
      assert (a + b)[..|a + b| - 1] == a + b[..|b| - 1];
      SumConcat(a, b[..|b| - 1]);
    }
  }

  method PayChunks(ghost earlier: seq<LineSpan>, parts: seq<LineSpan>, fs: FileStats, cfg: Config) returns (cost: real)
    ensures TotalCost(AsCharges(earlier + parts), fs, cfg) == TotalCost(AsCharges(earlier), fs, cfg) + cost
  {
    hide TotalCost, CostOfChunk;
    cost := 0.0;
    assert earlier + parts[..0] == earlier;
    for i := 0 to |parts|
      invariant TotalCost(AsCharges(earlier + parts[..i]), fs, cfg) == TotalCost(AsCharges(earlier), fs, cfg) + cost
    {
      var c := Charge(parts[i], Range);
      assert AsCharges(earlier + parts[..i + 1]) == AsCharges(earlier + parts[..i]) + [c];
      CostSnoc(AsCharges(earlier + parts[..i]), c, fs, cfg);
      cost := cost + CostOfChunk(c, fs, cfg) + ROUNDTRIP_OVERHEAD;
    }
    assert parts[..|parts|] == parts;
  }

  /** Disjoint spans have as many lines as their lengths add up to. */
  lemma {:induction false} InOrderSize(spans: seq<LineSpan>)
    requires InOrder(spans)
    ensures |LinesIn(spans)| == SumLen(spans)
  {
    if spans != [] {
      var init, last := spans[..|spans| - 1], spans[|spans| - 1];
      InOrderSize(init);
      BetweenSize(last.start, last.end);
      forall l <- LinesIn(init) ensures l !in LinesOf(last) { LineMembers(init, l); }
      UnionSize(LinesIn(init), LinesOf(last));
    }
  }

  /** The replay ends with every line the agent received covered, and the second phase pays for
      exactly the lines the first one left out. */
  ghost predicate Replayed(
    history: seq<ReadCall>, fs: FileStats, cfg: Config, total: real, kept: nat,
    covered: seq<LineSpan>, chunks: seq<LineSpan>)
  {
    var paid := PaidCalls(history, fs, cfg);
    && Canonical(covered)
    && (forall rc <- history :: Observed(rc).Some? ==> LinesOf(Observed(rc).value) <= LinesIn(covered))
    && kept == |paid| + |chunks|
    && total == TotalCost(paid, fs, cfg) + TotalCost(AsCharges(chunks), fs, cfg)
    && LinesIn(covered) == LinesIn(SpansOf(paid)) + LinesIn(chunks)
    && LinesIn(chunks) == Needed(history) - LinesIn(SpansOf(paid))
    && SumLen(chunks) == |Needed(history) - LinesIn(SpansOf(paid))|
    && (forall c <- chunks :: 1 <= c.end - c.start + 1 <= MaxPerCall(fs, cfg))
  }

  /** The replay of one file. */
  method ReplayPair(history: seq<ReadCall>, fs: FileStats, cfg: Config)
    returns (total: real, kept: nat)
    requires cfg.lineCap >= 1
    ensures exists covered, chunks :: Replayed(history, fs, cfg, total, kept, covered, chunks)
  {
    hide LinesIn, LinesOf, Canonical, TotalCost, PaidCalls, Needed, SumLen, MaxPerCall, InOrder, SpansOf;
    var coverage, needed, spent, calls;
    ghost var paid;
    coverage, needed, spent, calls, paid := SimulateCalls(history, fs, cfg);
    needed := Merge(needed);
    CanonicalNonEmpty(coverage);
    var gaps := Gaps(needed, coverage);
    var covered, extra, chunks := FillGaps(gaps, coverage, fs, cfg);
    InOrderSize(gaps);
    total, kept := spent + extra, calls + |chunks|;
    forall rc <- history | Observed(rc).Some? ensures LinesOf(Observed(rc).value) <= LinesIn(covered) {
      NeededHas(history, rc);
    }
    assert Replayed(history, fs, cfg, total, kept, covered, chunks);
  }

  // ---------------------------------------------------------------- cost

  /** Lines of a paid call, if it is bare or if it is not. */
  function LengthIf(c: Charge, bare: bool): int {
    if (c.kind == Bare) == bare then Max(c.span.end - c.span.start + 1, 0) else 0
  }

  /** Lines of the paid calls that are bare, or of those that are not. */
  function LinesPaid(charges: seq<Charge>, bare: bool): int {
    if charges == [] then 0 else
    var c := charges[|charges| - 1];
    LinesPaid(charges[..|charges| - 1], bare) + LengthIf(c, bare)
  }

  /** What a line of a bare read costs, in lines: less if the file is long enough for a summary. */
  function BareRate(fs: FileStats, cfg: Config): real {
    if cfg.summarizeMin < 0 || fs.sizeLines < cfg.summarizeMin then 1.0 else 0.35
  }

  /** The price of so many lines in full and so many at the bare rate. */
  function Price(full: int, bare: int, fs: FileStats, cfg: Config): real {
    (full as real + BareRate(fs, cfg) * bare as real) * fs.tokensPerLine
  }

  lemma {:induction false} PriceAdds(full: int, bare: int, n: int, fs: FileStats, cfg: Config)
    ensures Price(full + n, bare, fs, cfg) == Price(full, bare, fs, cfg) + n as real * fs.tokensPerLine
    ensures Price(full, bare + n, fs, cfg)
      == Price(full, bare, fs, cfg) + n as real * fs.tokensPerLine * BareRate(fs, cfg)
  {
    Distributes(full as real, bare as real, n as real, BareRate(fs, cfg), fs.tokensPerLine);
    hide BareRate;
  }

  lemma {:induction false} Distributes(a: real, b: real, m: real, r: real, t: real)
    ensures (a + m + r * b) * t == (a + r * b) * t + m * t
    ensures (a + r * (b + m)) * t == (a + r * b) * t + m * t * r
  {
    assert r * (b + m) == r * b + r * m;
    assert (a + (r * b + r * m)) * t == (a + r * b) * t + (r * m) * t;
  }

  lemma {:induction false} PriceSums(full: int, bare: int, n: int, fs: FileStats, cfg: Config)
    ensures Price(full, bare, fs, cfg) + Price(n, 0, fs, cfg) == Price(full + n, bare, fs, cfg)
  {
    PriceAdds(full, bare, n, fs, cfg);
    PriceAdds(0, 0, n, fs, cfg);
    assert Price(0, 0, fs, cfg) == 0.0;
    hide Price;
  }

  lemma {:induction false} ChunkCost(c: Charge, fs: FileStats, cfg: Config)
    ensures var raw := Max(c.span.end - c.span.start + 1, 0) as real * fs.tokensPerLine;
      CostOfChunk(c, fs, cfg) == if c.kind == Bare then raw * BareRate(fs, cfg) else raw
  {
  }

  lemma {:induction false} CostByLines(charges: seq<Charge>, fs: FileStats, cfg: Config)
    ensures TotalCost(charges, fs, cfg)
      == Price(LinesPaid(charges, false), LinesPaid(charges, true), fs, cfg) + 200.0 * |charges| as real
  {
    if charges != [] {
      var init, c := charges[..|charges| - 1], charges[|charges| - 1];
      assert charges == init + [c] && |charges| as real == |init| as real + 1.0;
      hide *;
      CostByLines(init, fs, cfg);
      CostSnoc(init, c, fs, cfg);
      LinesPaidSnoc(init, c);
      PriceStep(LinesPaid(init, false), LinesPaid(init, true), c, fs, cfg);
      assert ROUNDTRIP_OVERHEAD == 200.0;
    }
  }

  lemma {:induction false} LinesPaidSnoc(init: seq<Charge>, c: Charge)
    ensures LinesPaid(init + [c], true) == LinesPaid(init, true) + LengthIf(c, true)
    ensures LinesPaid(init + [c], false) == LinesPaid(init, false) + LengthIf(c, false)
  {
    assert (init + [c])[..|init|] == init;
  }

  lemma {:induction false} PriceStep(full: int, bare: int, c: Charge, fs: FileStats, cfg: Config)
    ensures Price(full + LengthIf(c, false), bare + LengthIf(c, true), fs, cfg)
      == Price(full, bare, fs, cfg) + CostOfChunk(c, fs, cfg)
  {
    hide Price, BareRate, CostOfChunk;
    ChunkCost(c, fs, cfg);
    PriceAdds(full, bare, Max(c.span.end - c.span.start + 1, 0), fs, cfg);
  }

  /** The cost of a replay: tokens for each line of a paid call, at the lower rate for bare calls on a
      file that is summarised, tokens for each line of the shortfall, and 200 for each call. */
  lemma {:induction false} ReplayCost(
    history: seq<ReadCall>, fs: FileStats, cfg: Config, total: real, kept: nat,
    covered: seq<LineSpan>, chunks: seq<LineSpan>)
    requires Replayed(history, fs, cfg, total, kept, covered, chunks)
    ensures var paid := PaidCalls(history, fs, cfg);
      var shortfall := |Needed(history) - LinesIn(SpansOf(paid))|;
      total == Price(LinesPaid(paid, false) + shortfall, LinesPaid(paid, true), fs, cfg) + 200.0 * kept as real
  {
    var paid := PaidCalls(history, fs, cfg);
    hide *;
    var shortfall := |Needed(history) - LinesIn(SpansOf(paid))|;
    ReplayParts(history, fs, cfg, total, kept, covered, chunks);
    ChunkLines(chunks);
    CostByLines(paid, fs, cfg);
    CostByLines(AsCharges(chunks), fs, cfg);
    PriceSums(LinesPaid(paid, false), LinesPaid(paid, true), shortfall, fs, cfg);
  }

  lemma {:induction false} ReplayParts(
    history: seq<ReadCall>, fs: FileStats, cfg: Config, total: real, kept: nat,
    covered: seq<LineSpan>, chunks: seq<LineSpan>)
    requires Replayed(history, fs, cfg, total, kept, covered, chunks)
    ensures var paid := PaidCalls(history, fs, cfg);
      && kept == |paid| + |AsCharges(chunks)|
      && total == TotalCost(paid, fs, cfg) + TotalCost(AsCharges(chunks), fs, cfg)
      && SumLen(chunks) == |Needed(history) - LinesIn(SpansOf(paid))|
      && forall c <- chunks :: c.end - c.start + 1 >= 1
  {
    hide TotalCost, PaidCalls, Needed, LinesIn, SpansOf, Canonical, LinesOf, SumLen, MaxPerCall;
  }

  lemma {:induction false} ChunkLines(chunks: seq<LineSpan>)
    requires forall c <- chunks :: c.end - c.start + 1 >= 1
    ensures LinesPaid(AsCharges(chunks), true) == 0 && LinesPaid(AsCharges(chunks), false) == SumLen(chunks)
  {
    if chunks != [] {
      var init := chunks[..|chunks| - 1];
      ChunkLines(init);
      assert AsCharges(chunks)[..|chunks| - 1] == AsCharges(init);
    }
  }
}
