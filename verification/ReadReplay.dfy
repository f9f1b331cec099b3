/** Replaying grouped reads under another configuration: sorted coverage, skipped and paid calls. */
module ReadReplay {
  import opened Numbers
  import opened Optional
  import opened LineSpans
  import opened ReadCoverage

  // ---------------------------------------------------------------- sorted coverage

  /** Stops at the first interval that starts past the target. */
  method IsCovered(intervals: seq<LineSpan>, target: LineSpan) returns (yes: bool)
    requires Canonical(intervals) && target.start <= target.end
    ensures yes <==> LinesOf(target) <= LinesIn(intervals)
  {
    ContainedIsCovered(target, intervals);
    for i := 0 to |intervals|
      invariant forall k | 0 <= k < i :: !(intervals[k].start <= target.start && target.end <= intervals[k].end)
    {
      var iv := intervals[i];
      if iv.start <= target.start && target.end <= iv.end { assert iv in intervals; return true; }
      if iv.start > target.start {
        forall k | i <= k < |intervals| ensures intervals[k].start > target.start {
          assert i < k ==> intervals[i].end + 1 < intervals[k].start;
        }
        return false;
      }
    }
    yes := false;
  }

  /** The walk over the first `i` intervals: what is copied, and the item grown so far. */
  ghost predicate Adding(
    intervals: seq<LineSpan>, item: LineSpan, i: nat, out: seq<LineSpan>, grown: LineSpan, placed: bool)
    requires i <= |intervals|
  {
    && Canonical(out) && grown.start <= grown.end
    && (forall o <- out :: i < |intervals| ==> o.end + 1 < intervals[i].start)
    && (if placed then LinesIn(out) else LinesIn(out) + LinesOf(grown)) == LinesIn(intervals[..i]) + LinesOf(item)
    && (placed && i < |intervals| ==> grown.end + 1 < intervals[i].start)
    && (!placed ==> forall o <- out :: o.end + 1 < grown.start)
  }

  /** The lines after copying one more interval, as sets. */
  lemma {:induction false} CopyLines(
    out: set<nat>, grown: set<nat>, done: set<nat>, item: set<nat>, copied: set<nat>, placed: bool)
    requires (if placed then out else out + grown) == done + item
    ensures (if placed then out + copied else out + copied + grown) == done + copied + item
  {
  }

  /** The order after copying one more interval. */
  lemma {:induction false} CopyOrder(
    intervals: seq<LineSpan>, item: LineSpan, i: nat, out: seq<LineSpan>, grown: LineSpan, placed: bool)
    requires i < |intervals| && Canonical(intervals) && Adding(intervals, item, i, out, grown, placed)
    ensures Canonical(out + [intervals[i]])
    ensures forall o <- out + [intervals[i]] :: i + 1 < |intervals| ==> o.end + 1 < intervals[i + 1].start
    ensures placed && i + 1 < |intervals| ==> grown.end + 1 < intervals[i + 1].start
  {
    var iv := intervals[i];
    hide LinesIn, LinesOf;
    assert i + 1 < |intervals| ==> iv.start <= iv.end && iv.end + 1 < intervals[i + 1].start;
    NewLast(out, iv);
  }

  lemma {:induction false} Copy(
    intervals: seq<LineSpan>, item: LineSpan, i: nat, out: seq<LineSpan>, grown: LineSpan, placed: bool)
    requires i < |intervals| && Canonical(intervals) && Adding(intervals, item, i, out, grown, placed)
    requires placed || intervals[i].end + 1 < grown.start
    ensures Adding(intervals, item, i + 1, out + [intervals[i]], grown, placed)
  {
    var iv := intervals[i];
    CopyOrder(intervals, item, i, out, grown, placed);
    hide Canonical, LinesIn, LinesOf;
    assert intervals[..i + 1] == intervals[..i] + [iv];
    LinesSnoc(intervals[..i], iv);
    LinesSnoc(out, iv);
    CopyLines(LinesIn(out), LinesOf(grown), LinesIn(intervals[..i]), LinesOf(item), LinesOf(iv), placed);
  }

  lemma {:induction false} Place(intervals: seq<LineSpan>, item: LineSpan, i: nat, out: seq<LineSpan>, grown: LineSpan)
    requires i < |intervals| && Adding(intervals, item, i, out, grown, false)
    requires grown.end + 1 < intervals[i].start
    ensures Adding(intervals, item, i, out + [grown], grown, true)
  {
    LinesSnoc(out, grown);
    hide LinesIn, LinesOf;
    NewLast(out, grown);
  }

  lemma {:induction false} Grow(intervals: seq<LineSpan>, item: LineSpan, i: nat, out: seq<LineSpan>, grown: LineSpan)
    requires i < |intervals| && Canonical(intervals) && Adding(intervals, item, i, out, grown, false)
    requires !(intervals[i].end + 1 < grown.start) && !(grown.end + 1 < intervals[i].start)
    ensures var iv := intervals[i];
      Adding(intervals, item, i + 1, out, LineSpan(Min(grown.start, iv.start), Max(grown.end, iv.end)), false)
  {
    var iv := intervals[i];
    var wider := LineSpan(Min(grown.start, iv.start), Max(grown.end, iv.end));
    assert intervals[..i + 1] == intervals[..i] + [iv];
    LinesSnoc(intervals[..i], iv);
    assert LinesOf(wider) == LinesOf(grown) + LinesOf(iv);
    hide LinesIn, LinesOf;
    assert i + 1 < |intervals| ==> iv.end + 1 < intervals[i + 1].start;
    assert LinesIn(out) + LinesOf(wider) == (LinesIn(out) + LinesOf(grown)) + LinesOf(iv);
  }

  /** Inserting keeps the list sorted, disjoint and non-adjacent, and adds exactly the item. */
  method AddInterval(intervals: seq<LineSpan>, item: LineSpan) returns (out: seq<LineSpan>)
    requires Canonical(intervals) && item.start <= item.end
    ensures Canonical(out) && LinesIn(out) == LinesIn(intervals) + LinesOf(item)
  {
    hide Canonical, LinesIn, LinesOf, Adding;
    var s: nat, e: nat, placed := item.start, item.end, false;
    out := [];
    StartAdding(intervals, item);
    for i := 0 to |intervals|
      invariant Adding(intervals, item, i, out, LineSpan(s, e), placed)
    {
      var iv := intervals[i];
      AddingFacts(intervals, item, i, out, LineSpan(s, e), placed);
      if iv.end + 1 < s {
        Copy(intervals, item, i, out, LineSpan(s, e), placed);
        out := out + [iv];
      } else if e + 1 < iv.start {
        if !placed {
          Place(intervals, item, i, out, LineSpan(s, e));
          out, placed := out + [LineSpan(s, e)], true;
        }
        Copy(intervals, item, i, out, LineSpan(s, e), placed);
        out := out + [iv];
      } else {
        Grow(intervals, item, i, out, LineSpan(s, e));
        s, e := Min(s, iv.start), Max(e, iv.end);
      }
    }
    EndAdding(intervals, item, out, LineSpan(s, e), placed);
    if !placed { out := out + [LineSpan(s, e)]; }
  }

  lemma {:induction false} StartAdding(intervals: seq<LineSpan>, item: LineSpan)
    requires Canonical(intervals) && item.start <= item.end
    ensures Adding(intervals, item, 0, [], item, false)
  {
  }

  lemma {:induction false} AddingFacts(
    intervals: seq<LineSpan>, item: LineSpan, i: nat, out: seq<LineSpan>, grown: LineSpan, placed: bool)
    requires i < |intervals| && Adding(intervals, item, i, out, grown, placed)
    ensures grown.start <= grown.end && (placed ==> grown.end + 1 < intervals[i].start)
  {
  }

  lemma {:induction false} EndAdding(
    intervals: seq<LineSpan>, item: LineSpan, out: seq<LineSpan>, grown: LineSpan, placed: bool)
    requires Adding(intervals, item, |intervals|, out, grown, placed)
    ensures var final := if placed then out else out + [grown];
      Canonical(final) && LinesIn(final) == LinesIn(intervals) + LinesOf(item)
  {
    assert intervals[..|intervals|] == intervals;
    if !placed {
      LinesSnoc(out, grown);
      hide LinesIn, LinesOf;
      NewLast(out, grown);
    }
  }

  // ---------------------------------------------------------------- requests and deliveries

  datatype CallKind = Explicit | Open | Default | Unbounded

  datatype Call = Call(
    kind: CallKind, start: Option<nat>, end: Option<nat>, argTokens: nat, resultTokens: nat, tokenPerLine: real)

  datatype Settings = Settings(default: nat, maxLines: nat, leading: nat, trailing: nat)

  function RequestedInterval(c: Call, cfg: Settings): Option<LineSpan> {
    if c.kind == Explicit && c.start.Some? && c.end.Some? then Some(LineSpan(c.start.value, c.end.value))
    else if c.kind == Open && c.start.Some?
    then Some(LineSpan(c.start.value, SatSub(c.start.value + cfg.default, 1)))
    else if c.kind == Default then Some(LineSpan(1, cfg.default))
    else None
  }

  function DeliveryStart(s: nat, cfg: Settings): nat {
    if s > 1 then Max(1, SatSub(s, cfg.leading)) else 1
  }

  function DeliveredInterval(c: Call, cfg: Settings): Option<LineSpan> {
    var req := RequestedInterval(c, cfg);
    if req == None then None else
    var (s, e) := (req.value.start, req.value.end);
    var start := if c.kind == Default then 1 else DeliveryStart(s, cfg);
    var wanted := if c.kind == Explicit then Max(1, e - s + 1) + (s - start) + cfg.trailing
      else if c.kind == Open then cfg.default + (s - start) else cfg.default;
    Some(LineSpan(start, Max(0, start + Min(wanted, cfg.maxLines) - 1)))
  }

  /** Line numbers start at 1, and an explicit range does not end before it starts. */
  predicate ValidCall(c: Call) {
    && (c.kind == Explicit ==> c.start.Some? && c.end.Some?)
    && (c.kind == Open ==> c.start.Some?)
    && (c.start.Some? ==> c.start.value >= 1)
    && (c.start.Some? && c.end.Some? ==> c.start.value <= c.end.value)
  }

  predicate PositiveLimits(cfg: Settings) {
    cfg.default >= 1 && cfg.maxLines >= 1
  }

  /** The first line a call is answered with, and the last one if nothing cuts the answer: with
      leading context for a given start, trailing context for a given end, a default stretch else. */
  function FirstSent(c: Call, cfg: Settings): int
    requires ValidCall(c) && c.kind != Unbounded
  {
    if c.kind == Default then 1 else Max(1, c.start.value - cfg.leading)
  }

  function LastWanted(c: Call, cfg: Settings): int
    requires ValidCall(c) && c.kind != Unbounded
  {
    match c.kind
    case Explicit => c.end.value + cfg.trailing
    case Open => c.start.value + cfg.default - 1
    case _ => cfg.default
  }

  /** Which lines a call asks for, and which it is answered with: the first `max_lines` of those
      wanted. */
  lemma {:induction false} LinesSent(c: Call, cfg: Settings, l: nat)
    requires ValidCall(c) && PositiveLimits(cfg)
    ensures RequestedInterval(c, cfg).Some? <==> c.kind != Unbounded
    ensures c.kind == Explicit ==>
      (l in LinesOf(RequestedInterval(c, cfg).value) <==> c.start.value <= l <= c.end.value)
    ensures c.kind == Open ==>
      (l in LinesOf(RequestedInterval(c, cfg).value) <==> c.start.value <= l < c.start.value + cfg.default)
    ensures c.kind == Default ==> (l in LinesOf(RequestedInterval(c, cfg).value) <==> 1 <= l <= cfg.default)
    ensures c.kind != Unbounded ==> DeliveredInterval(c, cfg).Some? && (
      l in LinesOf(DeliveredInterval(c, cfg).value) <==>
        FirstSent(c, cfg) <= l <= LastWanted(c, cfg) && l < FirstSent(c, cfg) + cfg.maxLines)
  {
  }

  /** `max_lines` cuts the delivery before the last requested line. */
  predicate Capped(c: Call, cfg: Settings)
    requires RequestedInterval(c, cfg).Some?
  {
    var req := RequestedInterval(c, cfg).value;
    match c.kind
    case Default => cfg.default > cfg.maxLines
    case _ => req.end - DeliveryStart(req.start, cfg) + 1 > cfg.maxLines
  }

  /** A read delivers every line it asks for exactly when `max_lines` does not cut it. */
  lemma {:induction false} DeliversUnlessCapped(c: Call, cfg: Settings)
    requires ValidCall(c) && PositiveLimits(cfg) && RequestedInterval(c, cfg).Some?
    ensures var req, got := RequestedInterval(c, cfg).value, DeliveredInterval(c, cfg).value;
      && req.start <= req.end && 1 <= got.start <= got.end && got.end - got.start + 1 <= cfg.maxLines
      && (LinesOf(req) <= LinesOf(got) <==> !Capped(c, cfg))
  {
    var req, got := RequestedInterval(c, cfg).value, DeliveredInterval(c, cfg).value;
    assert req.end in LinesOf(req);
  }

  /** The count of truncated explicit requests, as the replay takes it. */
  predicate CountedTruncated(c: Call, cfg: Settings)
    requires DeliveredInterval(c, cfg).Some?
  {
    var got := DeliveredInterval(c, cfg).value;
    c.kind == Explicit && got.end - got.start + 1 >= cfg.maxLines
    && Max(1, c.end.value - c.start.value + 1) + cfg.leading + cfg.trailing > cfg.maxLines
  }

  /** It misses no explicit read that loses lines ... */
  lemma {:induction false} TruncationCounted(c: Call, cfg: Settings)
    requires ValidCall(c) && PositiveLimits(cfg) && c.kind == Explicit && Capped(c, cfg)
    ensures CountedTruncated(c, cfg)
  {
  }

  /** ... but also counts reads that lose only context lines. */
  lemma {:induction false} TruncationOvercounts()
    ensures var c, cfg := Call(Explicit, Some(1), Some(95), 0, 0, 1.0), Settings(300, 100, 1, 5);
      ValidCall(c) && !Capped(c, cfg) && CountedTruncated(c, cfg)
  {
  }

  /** Counting and losing lines differ exactly when the requested lines, with the leading context
      really sent, fit, the trailing context does reach `max_lines`, and the test, which adds all
      of the leading context although line 1 may cut it short, is over `max_lines`. */
  lemma {:induction false} TruncationExact(c: Call, cfg: Settings)
    requires ValidCall(c) && PositiveLimits(cfg) && c.kind == Explicit
    ensures (CountedTruncated(c, cfg) <==> Capped(c, cfg)) <==>
      var s, e := c.start.value, c.end.value;
      var sent := e - DeliveryStart(s, cfg) + 1;
      !(sent <= cfg.maxLines <= sent + cfg.trailing && cfg.maxLines < e - s + 1 + cfg.leading + cfg.trailing)
  {
    var wanted := c.end.value - DeliveryStart(c.start.value, cfg) + 1 + cfg.trailing;
    assert DeliveredInterval(c, cfg).value.end
      == DeliveryStart(c.start.value, cfg) + Min(wanted, cfg.maxLines) - 1;
  }

  // ---------------------------------------------------------------- one group

  /** Lines delivered by the paid calls among the first `k`. */
  function Covered(group: seq<Call>, k: nat, cfg: Settings): set<nat>
    requires k <= |group|
    decreases k, 0
  {
    if k == 0 then {} else
    var c := group[k - 1];
    Covered(group, k - 1, cfg)
    + if DeliveredInterval(c, cfg).Some? && !Skipped(group, k - 1, cfg)
      then LinesOf(DeliveredInterval(c, cfg).value) else {}
  }

  /** The k-th call asks only for lines already delivered. */
  predicate Skipped(group: seq<Call>, k: nat, cfg: Settings)
    requires k < |group|
    decreases k, 1
  {
    var req := RequestedInterval(group[k], cfg);
    req.Some? && k > 0 && LinesOf(req.value) <= Covered(group, k, cfg)
  }

  function CountSkipped(group: seq<Call>, k: nat, cfg: Settings): nat
    requires k <= |group|
  {
    if k == 0 then 0 else CountSkipped(group, k - 1, cfg) + if Skipped(group, k - 1, cfg) then 1 else 0
  }

  function CountUnbounded(group: seq<Call>, k: nat, cfg: Settings): nat
    requires k <= |group|
  {
    if k == 0 then 0 else
    CountUnbounded(group, k - 1, cfg) + if RequestedInterval(group[k - 1], cfg) == None then 1 else 0
  }

  /** The j-th call is paid and its delivery holds line `l`. */
  predicate PaidFor(group: seq<Call>, j: nat, cfg: Settings, l: nat)
    requires j < |group|
  {
    var got := DeliveredInterval(group[j], cfg);
    got.Some? && !Skipped(group, j, cfg) && l in LinesOf(got.value)
  }

  /** Every line of a skipped request was delivered by an earlier paid read of the group. */
  lemma {:induction false} SkippedWasDelivered(group: seq<Call>, k: nat, cfg: Settings, l: nat)
    requires k <= |group| && l in Covered(group, k, cfg)
    ensures exists j :: 0 <= j < k && PaidFor(group, j, cfg, l)
  {
    if l in Covered(group, k - 1, cfg) {
      SkippedWasDelivered(group, k - 1, cfg, l);
    } else {
      assert PaidFor(group, k - 1, cfg, l);
    }
  }

  lemma {:induction false} CoveredGrows(group: seq<Call>, j: nat, k: nat, cfg: Settings)
    requires j <= k <= |group|
    ensures Covered(group, j, cfg) <= Covered(group, k, cfg)
  {
    hide LinesOf, DeliveredInterval, Skipped;
    if j < k { CoveredGrows(group, j, k - 1, cfg); }
  }

  /** After a bounded call, skipped or paid, its lines are covered unless `max_lines` cut it. */
  lemma {:induction false} AnsweredIsCovered(group: seq<Call>, k: nat, cfg: Settings)
    requires k < |group| && ValidCall(group[k]) && PositiveLimits(cfg)
    requires RequestedInterval(group[k], cfg).Some? && !Capped(group[k], cfg)
    ensures LinesOf(RequestedInterval(group[k], cfg).value) <= Covered(group, k + 1, cfg)
  {
    DeliversUnlessCapped(group[k], cfg);
  }

  /** The first delivery holds every later bounded request. */
  predicate FirstCoversAll(group: seq<Call>, cfg: Settings)
    requires group != []
  {
    var got := DeliveredInterval(group[0], cfg);
    got.Some? && forall k | 0 < k < |group| && RequestedInterval(group[k], cfg).Some? ::
      LinesOf(RequestedInterval(group[k], cfg).value) <= LinesOf(got.value)
  }

  /** ... and then every later bounded read is skipped. */
  lemma {:induction false} FirstCoverSkipsRest(group: seq<Call>, k: nat, cfg: Settings)
    requires group != [] && FirstCoversAll(group, cfg)
    requires 0 < k < |group| && RequestedInterval(group[k], cfg).Some?
    ensures Skipped(group, k, cfg)
  {
    CoveredGrows(group, 1, k, cfg);
    assert !Skipped(group, 0, cfg);
    assert Covered(group, 1, cfg) == Covered(group, 0, cfg) + LinesOf(DeliveredInterval(group[0], cfg).value);
  }

  /** So such a group costs one bounded call. */
  lemma {:induction false} FirstCoverCount(group: seq<Call>, k: nat, cfg: Settings)
    requires group != [] && FirstCoversAll(group, cfg) && 1 <= k <= |group|
    ensures CountSkipped(group, k, cfg) + CountUnbounded(group, k, cfg) + 1 == k
  {
    if k == 1 {
      assert CountSkipped(group, 0, cfg) == 0 && CountUnbounded(group, 0, cfg) == 0;
      assert !Skipped(group, 0, cfg);
    } else {
      FirstCoverCount(group, k - 1, cfg);
      if RequestedInterval(group[k - 1], cfg).Some? { FirstCoverSkipsRest(group, k - 1, cfg); }
    }
  }

  // ---------------------------------------------------------------- costs

  const CURRENT_MAX_BYTES: int := 50 * 1024

  predicate BytesLimited(c: Call, lines: int) {
    c.tokenPerLine * lines as real * 4.0 > Max(CURRENT_MAX_BYTES, lines * 512) as real
  }

  function PaidCost(c: Call, lines: int): real {
    c.argTokens as real +
    if BytesLimited(c, lines) then Max(CURRENT_MAX_BYTES, lines * 512) as real / 4.0
    else c.tokenPerLine * lines as real
  }

  /** The counters: tokens and calls paid, calls skipped, calls without a known range and their
      tokens, reads counted as truncated, reads cut by the byte limit. */
  datatype Tally = Tally(
    tokens: real, calls: nat, skipped: nat, rawTokens: real, rawCalls: nat, truncations: nat, bytesLimited: nat)

  const ZERO: Tally := Tally(0.0, 0, 0, 0.0, 0, 0, 0)

  function AddTally(a: Tally, b: Tally): Tally {
    Tally(a.tokens + b.tokens, a.calls + b.calls, a.skipped + b.skipped, a.rawTokens + b.rawTokens,
      a.rawCalls + b.rawCalls, a.truncations + b.truncations, a.bytesLimited + b.bytesLimited)
  }

  function One(yes: bool): nat {
    if yes then 1 else 0
  }

  /** What the k-th call adds. */
  function CallTally(group: seq<Call>, k: nat, cfg: Settings): Tally
    requires k < |group|
  {
    var c := group[k];
    match DeliveredInterval(c, cfg)
    case None =>
      var cost := (c.argTokens + c.resultTokens) as real;
      Tally(cost, 1, 0, cost, 1, 0, 0)
    case Some(got) =>
      var lines := got.end - got.start + 1;
      if Skipped(group, k, cfg) then Tally(0.0, 0, 1, 0.0, 0, 0, 0)
      else Tally(PaidCost(c, lines), 1, 0, 0.0, 0, One(CountedTruncated(c, cfg)), One(BytesLimited(c, lines)))
  }

  /** The k-th call is answered by a read of known range. */
  predicate Paid(group: seq<Call>, k: nat, cfg: Settings)
    requires k < |group|
  {
    DeliveredInterval(group[k], cfg).Some? && !Skipped(group, k, cfg)
  }

  function LinesDelivered(c: Call, cfg: Settings): int
    requires DeliveredInterval(c, cfg).Some?
  {
    DeliveredInterval(c, cfg).value.end - DeliveredInterval(c, cfg).value.start + 1
  }

  /** A call without a range costs its arguments and its result, a paid one its arguments and the
      smaller of its lines' tokens and a quarter of the byte budget, a skipped one nothing. */
  function TokensOf(group: seq<Call>, k: nat, cfg: Settings): real
    requires k < |group|
  {
    var c := group[k];
    if DeliveredInterval(c, cfg) == None then c.argTokens as real + c.resultTokens as real
    else if Skipped(group, k, cfg) then 0.0 else
    var n := LinesDelivered(c, cfg);
    var full, most := c.tokenPerLine * n as real, Max(51200, 512 * n) as real / 4.0;
    c.argTokens as real + if full <= most then full else most
  }

  function SumTokens(group: seq<Call>, k: nat, cfg: Settings): real
    requires k <= |group|
  {
    if k == 0 then 0.0 else SumTokens(group, k - 1, cfg) + TokensOf(group, k - 1, cfg)
  }

  function GroupTally(group: seq<Call>, k: nat, cfg: Settings): (t: Tally)
    requires k <= |group|
    ensures t.calls + t.skipped == k
    ensures t.skipped == CountSkipped(group, k, cfg) && t.rawCalls == CountUnbounded(group, k, cfg)
  {
    if k == 0 then ZERO else
    AddTally(GroupTally(group, k - 1, cfg), CallTally(group, k - 1, cfg))
  }

  lemma {:induction false} CallTallyIs(group: seq<Call>, k: nat, cfg: Settings)
    requires k < |group|
    ensures var t, raw := CallTally(group, k, cfg), DeliveredInterval(group[k], cfg) == None;
      && t.tokens == TokensOf(group, k, cfg) && t.calls == One(raw || Paid(group, k, cfg))
      && t.skipped == One(Skipped(group, k, cfg)) && t.rawCalls == One(raw)
      && t.rawTokens == (if raw then TokensOf(group, k, cfg) else 0.0)
      && t.truncations == One(Paid(group, k, cfg) && CountedTruncated(group[k], cfg))
      && t.bytesLimited == One(Paid(group, k, cfg) && BytesLimited(group[k], LinesDelivered(group[k], cfg)))
  {
    hide DeliveredInterval, Skipped, PaidCost, BytesLimited, CountedTruncated;
    NextCall(group, k, cfg);
    if Paid(group, k, cfg) { CostIsLeast(group[k], LinesDelivered(group[k], cfg)); }
  }

  lemma {:induction false} CostIsLeast(c: Call, n: int)
    ensures var full, most := c.tokenPerLine * n as real, Max(51200, 512 * n) as real / 4.0;
      && PaidCost(c, n) == c.argTokens as real + (if full <= most then full else most)
      && (BytesLimited(c, n) <==> full > most)
  {
    assert CURRENT_MAX_BYTES == 51200;
  }

  /** The numbers below `n` with a property. */
  function Where(n: nat, p: nat -> bool): set<nat> {
    set k: nat | k < n && p(k)
  }

  lemma {:induction false} WhereNext(n: nat, p: nat -> bool)
    ensures |Where(0, p)| == 0 && |Where(n + 1, p)| == |Where(n, p)| + One(p(n))
  {
    assert Where(0, p) == {};
    assert Where(n + 1, p) == Where(n, p) + if p(n) then {n} else {};
  }

  function IsSkipped(group: seq<Call>, cfg: Settings): nat -> bool {
    (k: nat) => k < |group| && Skipped(group, k, cfg)
  }

  function IsUnbounded(group: seq<Call>, cfg: Settings): nat -> bool {
    (k: nat) => k < |group| && RequestedInterval(group[k], cfg) == None
  }

  function IsTruncated(group: seq<Call>, cfg: Settings): nat -> bool {
    (k: nat) => k < |group| && Paid(group, k, cfg) && CountedTruncated(group[k], cfg)
  }

  function IsLimited(group: seq<Call>, cfg: Settings): nat -> bool {
    (k: nat) => k < |group| && Paid(group, k, cfg) && BytesLimited(group[k], LinesDelivered(group[k], cfg))
  }

  lemma {:induction false} CountersStep(group: seq<Call>, n: nat, cfg: Settings)
    requires n < |group|
    ensures var t, u := GroupTally(group, n, cfg), GroupTally(group, n + 1, cfg);
      && u.tokens == t.tokens + TokensOf(group, n, cfg)
      && u.skipped == t.skipped + One(IsSkipped(group, cfg)(n))
      && u.rawCalls == t.rawCalls + One(IsUnbounded(group, cfg)(n))
      && u.truncations == t.truncations + One(IsTruncated(group, cfg)(n))
      && u.bytesLimited == t.bytesLimited + One(IsLimited(group, cfg)(n))
  {
    CallTallyIs(group, n, cfg);
    NextTally(group, n, cfg);
    NextCall(group, n, cfg);
    hide CallTally, DeliveredInterval, Skipped, PaidCost, BytesLimited, CountedTruncated, TokensOf, GroupTally, Covered,
      RequestedInterval, LinesDelivered;
  }

  /** The counters of a group, each for itself. */
  lemma {:induction false} GroupCounts(group: seq<Call>, n: nat, cfg: Settings)
    requires n <= |group|
    ensures var t := GroupTally(group, n, cfg);
      && t.tokens == SumTokens(group, n, cfg)
      && t.skipped == |Where(n, IsSkipped(group, cfg))| && t.rawCalls == |Where(n, IsUnbounded(group, cfg))|
      && t.truncations == |Where(n, IsTruncated(group, cfg))| && t.bytesLimited == |Where(n, IsLimited(group, cfg))|
  {
    var m := if n == 0 then 0 else n - 1;
    WhereNext(m, IsSkipped(group, cfg));
    WhereNext(m, IsUnbounded(group, cfg));
    WhereNext(m, IsTruncated(group, cfg));
    WhereNext(m, IsLimited(group, cfg));
    if n == 0 {
      assert GroupTally(group, 0, cfg) == ZERO;
    } else {
      assert SumTokens(group, n, cfg) == SumTokens(group, m, cfg) + TokensOf(group, m, cfg);
      hide *;
      GroupCounts(group, m, cfg);
      CountersStep(group, m, cfg);
    }
  }

  // ---------------------------------------------------------------- the replay

  ghost predicate ValidGroups(groups: seq<seq<Call>>) {
    forall g <- groups :: g != [] && forall c <- g :: ValidCall(c)
  }

  /** Is every later bounded request inside the first delivery? */
  method CheckFirst(group: seq<Call>, first: LineSpan, cfg: Settings) returns (all: bool)
    requires group != [] && (forall c <- group :: ValidCall(c)) && PositiveLimits(cfg)
    requires DeliveredInterval(group[0], cfg) == Some(first)
    ensures all <==> FirstCoversAll(group, cfg)
  {
    hide LinesOf, LinesIn, Canonical;
    all := true;
    DeliversUnlessCapped(group[0], cfg);
    OneSpan(first);
    for k := 1 to |group|
      invariant all
      invariant forall j | 0 < j < k && RequestedInterval(group[j], cfg).Some? ::
        LinesOf(RequestedInterval(group[j], cfg).value) <= LinesOf(first)
    {
      var req := RequestedInterval(group[k], cfg);
      if req.Some? {
        assert group[k] in group;
        DeliversUnlessCapped(group[k], cfg);
        var inside := IsCovered([first], req.value);
        if !inside { return false; }
      }
    }
  }

  lemma {:induction false} OneSpan(s: LineSpan)
    requires s.start <= s.end
    ensures Canonical([s]) && LinesIn([s]) == LinesOf(s)
  {
    LinesSnoc([], s);
    assert [] + [s] == [s];
  }

  method ReplayGroup(group: seq<Call>, cfg: Settings) returns (t: Tally, allFirst: bool)
    requires group != [] && (forall c <- group :: ValidCall(c)) && PositiveLimits(cfg)
    ensures t == GroupTally(group, |group|, cfg) && t.calls + t.skipped == |group|
    ensures allFirst <==> FirstCoversAll(group, cfg)
  {
    hide LinesIn, LinesOf, Canonical, Covered, CallTally, PaidCost, BytesLimited, Skipped, GroupTally,
      DeliveredInterval, RequestedInterval, CountedTruncated, FirstCoversAll, Capped;
    t, allFirst := ZERO, false;
    var coverage: seq<LineSpan> := [];
    NothingCovered(group, cfg);
    for k := 0 to |group|
      invariant t == GroupTally(group, k, cfg)
      invariant Canonical(coverage) && LinesIn(coverage) == Covered(group, k, cfg)
      invariant allFirst == (k > 0 && FirstCoversAll(group, cfg))
    {
      var c := group[k];
      assert c in group;
      var req, got := RequestedInterval(c, cfg), DeliveredInterval(c, cfg);
      NextCall(group, k, cfg);
      NextTally(group, k, cfg);
      TruncationTest(c, cfg);
      if req == None || got == None {
        var cost := (c.argTokens + c.resultTokens) as real;
        t := t.(tokens := t.tokens + cost, calls := t.calls + 1, rawTokens := t.rawTokens + cost,
                rawCalls := t.rawCalls + 1);
        continue;
      }
      DeliversUnlessCapped(c, cfg);
      if k > 0 {
        var known := IsCovered(coverage, req.value);
        if known {
          t := t.(skipped := t.skipped + 1);
          continue;
        }
      }
      var lines := got.value.end - got.value.start + 1;
      if lines >= cfg.maxLines && c.kind == Explicit {
        var requested := Max(1, c.end.value - c.start.value + 1);
        if requested + cfg.leading + cfg.trailing > cfg.maxLines {
          t := t.(truncations := t.truncations + 1);
        }
      }
      if BytesLimited(c, lines) {
        t := t.(bytesLimited := t.bytesLimited + 1);
      }
      t := t.(tokens := t.tokens + PaidCost(c, lines), calls := t.calls + 1);
      coverage := AddInterval(coverage, got.value);
      if k == 0 {
        allFirst := CheckFirst(group, got.value, cfg);
      }
    }
    TallyReads(group, cfg);
  }

  lemma {:induction false} TruncationTest(c: Call, cfg: Settings)
    requires ValidCall(c)
    ensures DeliveredInterval(c, cfg).Some? ==>
      var lines := DeliveredInterval(c, cfg).value.end - DeliveredInterval(c, cfg).value.start + 1;
      CountedTruncated(c, cfg) == (lines >= cfg.maxLines && c.kind == Explicit
        && Max(1, c.end.value - c.start.value + 1) + cfg.leading + cfg.trailing > cfg.maxLines)
  {
  }

  lemma {:induction false} TallyReads(group: seq<Call>, cfg: Settings)
    ensures GroupTally(group, |group|, cfg).calls + GroupTally(group, |group|, cfg).skipped == |group|
  {
  }

  lemma {:induction false} NothingCovered(group: seq<Call>, cfg: Settings)
    ensures Canonical([]) && LinesIn([]) == Covered(group, 0, cfg) && GroupTally(group, 0, cfg) == ZERO
  {
  }

  lemma {:induction false} NextCall(group: seq<Call>, k: nat, cfg: Settings)
    requires k < |group|
    ensures var req, got := RequestedInterval(group[k], cfg), DeliveredInterval(group[k], cfg);
      && (req == None <==> got == None)
      && (Skipped(group, k, cfg) <==> req.Some? && k > 0 && LinesOf(req.value) <= Covered(group, k, cfg))
      && Covered(group, k + 1, cfg)
        == Covered(group, k, cfg) + (if got.Some? && !Skipped(group, k, cfg) then LinesOf(got.value) else {})
      && (k == 0 && got == None ==> !FirstCoversAll(group, cfg))
  {
    hide LinesOf;
  }

  lemma {:induction false} NextTally(group: seq<Call>, k: nat, cfg: Settings)
    requires k < |group|
    ensures var got := DeliveredInterval(group[k], cfg);
      && GroupTally(group, k + 1, cfg) == AddTally(GroupTally(group, k, cfg), CallTally(group, k, cfg))
      && CallTally(group, k, cfg) == (
        if got == None then
          var cost := (group[k].argTokens + group[k].resultTokens) as real;
          Tally(cost, 1, 0, cost, 1, 0, 0)
        else if Skipped(group, k, cfg) then Tally(0.0, 0, 1, 0.0, 0, 0, 0)
        else
          var lines := got.value.end - got.value.start + 1;
          Tally(PaidCost(group[k], lines), 1, 0, 0.0, 0, One(CountedTruncated(group[k], cfg)),
            One(BytesLimited(group[k], lines))))
  {
    hide DeliveredInterval, Skipped, PaidCost, BytesLimited, CountedTruncated, CountSkipped, CountUnbounded, Covered;
  }

  predicate SelectorFirst(group: seq<Call>)
    requires group != []
  {
    group[0].kind == Explicit || group[0].kind == Open
  }

  predicate DefaultFirst(group: seq<Call>)
    requires group != []
  {
    group[0].kind == Default
  }

  function CountReads(groups: seq<seq<Call>>): nat {
    if groups == [] then 0 else CountReads(groups[..|groups| - 1]) + |groups[|groups| - 1]|
  }

  function Chosen(groups: seq<seq<Call>>, pick: seq<Call> -> bool): seq<seq<Call>> {
    if groups == [] then [] else
    var last := groups[|groups| - 1];
    Chosen(groups[..|groups| - 1], pick) + if pick(last) then [last] else []
  }

  function TotalTally(groups: seq<seq<Call>>, cfg: Settings): (t: Tally)
    ensures t.calls + t.skipped == CountReads(groups)
  {
    if groups == [] then ZERO else
    var last := groups[|groups| - 1];
    AddTally(TotalTally(groups[..|groups| - 1], cfg), GroupTally(last, |last|, cfg))
  }

  datatype ReplayResult = ReplayResult(
    all: Tally, selector: Tally, default: Tally,
    selectorGroups: nat, selectorGroupsSingleCall: nat, selectorGroupsAllCoveredByFirst: nat)

  function StartsWithSelector(group: seq<Call>): bool {
    group != [] && SelectorFirst(group)
  }

  function StartsWithDefault(group: seq<Call>): bool {
    group != [] && DefaultFirst(group)
  }

  function FirstAnswers(cfg: Settings): seq<Call> -> bool {
    (g: seq<Call>) => g != [] && SelectorFirst(g) && (FirstCoversAll(g, cfg) || |g| == 1)
  }

  function SingleSelector(): seq<Call> -> bool {
    (g: seq<Call>) => StartsWithSelector(g) && |g| == 1
  }

  method Replay(groups: seq<seq<Call>>, cfg: Settings) returns (r: ReplayResult)
    requires ValidGroups(groups) && PositiveLimits(cfg)
    ensures r.all == TotalTally(groups, cfg) && r.all.calls + r.all.skipped == CountReads(groups)
    ensures r.selector == TotalTally(Chosen(groups, StartsWithSelector), cfg)
    ensures r.default == TotalTally(Chosen(groups, StartsWithDefault), cfg)
    ensures r.selectorGroups == |Chosen(groups, StartsWithSelector)|
    ensures r.selectorGroupsSingleCall == |Chosen(groups, SingleSelector())|
    ensures r.selectorGroupsAllCoveredByFirst == |Chosen(groups, FirstAnswers(cfg))|
  {
    hide CountSkipped, GroupTally, FirstCoversAll, TotalTally, CountReads, Chosen, AddTally;
    var all, selector, default_ := ZERO, ZERO, ZERO;
    var selectorGroups, single, allFirst := 0, 0, 0;
    NoGroups(cfg);
    for i := 0 to |groups|
      invariant all == TotalTally(groups[..i], cfg)
      invariant selector == TotalTally(Chosen(groups[..i], StartsWithSelector), cfg)
      invariant default_ == TotalTally(Chosen(groups[..i], StartsWithDefault), cfg)
      invariant selectorGroups == |Chosen(groups[..i], StartsWithSelector)|
      invariant single == |Chosen(groups[..i], SingleSelector())|
      invariant allFirst == |Chosen(groups[..i], FirstAnswers(cfg))|
    {
      var group := groups[i];
      assert group in groups;
      var t, coveredByFirst := ReplayGroup(group, cfg);
      assert groups[..i + 1] == groups[..i] + [group];
      NextGroup(groups[..i], group, cfg);
      NextGroup(Chosen(groups[..i], StartsWithSelector), group, cfg);
      NextGroup(Chosen(groups[..i], StartsWithDefault), group, cfg);
      ChosenSnoc(groups[..i], group, StartsWithSelector);
      ChosenSnoc(groups[..i], group, StartsWithDefault);
      ChosenSnoc(groups[..i], group, SingleSelector());
      ChosenSnoc(groups[..i], group, FirstAnswers(cfg));
      all := AddTally(all, t);
      if SelectorFirst(group) {
        selectorGroups, selector := selectorGroups + 1, AddTally(selector, t);
        if |group| == 1 { single := single + 1; }
        if coveredByFirst || |group| == 1 { allFirst := allFirst + 1; }
      } else if DefaultFirst(group) {
        default_ := AddTally(default_, t);
      }
    }
    assert groups[..|groups|] == groups;
    r := ReplayResult(all, selector, default_, selectorGroups, single, allFirst);
  }

  lemma {:induction false} NoGroups(cfg: Settings)
    ensures TotalTally([], cfg) == ZERO
    ensures forall pick: seq<Call> -> bool :: Chosen([], pick) == []
  {
  }

  lemma {:induction false} NextGroup(groups: seq<seq<Call>>, group: seq<Call>, cfg: Settings)
    ensures TotalTally(groups + [group], cfg) == AddTally(TotalTally(groups, cfg), GroupTally(group, |group|, cfg))
  {
    assert (groups + [group])[..|groups|] == groups;
  }

  lemma {:induction false} ChosenSnoc(groups: seq<seq<Call>>, group: seq<Call>, pick: seq<Call> -> bool)
    ensures Chosen(groups + [group], pick)
      == if pick(group) then Chosen(groups, pick) + [group] else Chosen(groups, pick)
  {
    assert (groups + [group])[..|groups|] == groups;
  }

  // ---------------------------------------------------------------- shares

  function StartsUnbounded(group: seq<Call>): bool {
    group != [] && group[0].kind == Unbounded
  }

  lemma {:induction false} TallySums(a: Tally, b: Tally, c: Tally, t: Tally)
    ensures AddTally(AddTally(AddTally(a, b), c), t) == AddTally(AddTally(AddTally(a, t), b), c)
    ensures AddTally(AddTally(AddTally(a, b), c), t) == AddTally(AddTally(a, AddTally(b, t)), c)
    ensures AddTally(AddTally(AddTally(a, b), c), t) == AddTally(AddTally(a, b), AddTally(c, t))
  {
  }

  lemma {:induction false} ShareStep(groups: seq<seq<Call>>, g: seq<Call>, pick: seq<Call> -> bool, cfg: Settings)
    ensures var before, after := Chosen(groups, pick), Chosen(groups + [g], pick);
      && |after| == |before| + One(pick(g))
      && TotalTally(after, cfg) == if pick(g) then AddTally(TotalTally(before, cfg), GroupTally(g, |g|, cfg))
                                   else TotalTally(before, cfg)
  {
    hide TotalTally, GroupTally, AddTally, Chosen;
    ChosenSnoc(groups, g, pick);
    NextGroup(Chosen(groups, pick), g, cfg);
  }

  lemma {:induction false} OneShare(g: seq<Call>)
    requires g != []
    ensures One(StartsWithSelector(g)) + One(StartsWithDefault(g)) + One(StartsUnbounded(g)) == 1
    ensures StartsWithSelector(g) || StartsWithDefault(g) || StartsUnbounded(g)
  {
  }

  /** The tally of all groups is made up of three shares, by the kind of a group's first call: with a
      start given, by default, and without a range. */
  ghost predicate AddUp(groups: seq<seq<Call>>, cfg: Settings) {
    var selector, default_ := Chosen(groups, StartsWithSelector), Chosen(groups, StartsWithDefault);
    var rest := Chosen(groups, StartsUnbounded);
    && |groups| == |selector| + |default_| + |rest|
    && TotalTally(groups, cfg)
      == AddTally(AddTally(TotalTally(selector, cfg), TotalTally(default_, cfg)), TotalTally(rest, cfg))
  }

  lemma {:induction false} NoShares(cfg: Settings)
    ensures AddUp([], cfg)
  {
    NoneChosen(StartsWithSelector);
    NoneChosen(StartsWithDefault);
    NoneChosen(StartsUnbounded);
    NoTally(cfg);
    AddNothing(ZERO);
    hide TotalTally, Chosen, AddTally;
  }

  lemma {:induction false} NoneChosen(pick: seq<Call> -> bool)
    ensures Chosen([], pick) == []
  {
  }

  lemma {:induction false} NoTally(cfg: Settings)
    ensures TotalTally([], cfg) == ZERO
  {
  }

  lemma {:induction false} AddNothing(t: Tally)
    ensures AddTally(t, ZERO) == t
  {
  }

  lemma {:induction false} MoreShares(groups: seq<seq<Call>>, g: seq<Call>, cfg: Settings)
    requires AddUp(groups, cfg) && g != []
    ensures AddUp(groups + [g], cfg)
  {
    OneShare(g);
    hide TotalTally, GroupTally, Chosen, AddTally, StartsWithSelector, StartsWithDefault, StartsUnbounded;
    NextGroup(groups, g, cfg);
    ShareStep(groups, g, StartsWithSelector, cfg);
    ShareStep(groups, g, StartsWithDefault, cfg);
    ShareStep(groups, g, StartsUnbounded, cfg);
    TallySums(TotalTally(Chosen(groups, StartsWithSelector), cfg), TotalTally(Chosen(groups, StartsWithDefault), cfg),
      TotalTally(Chosen(groups, StartsUnbounded), cfg), GroupTally(g, |g|, cfg));
  }

  lemma {:induction false} SharesAddUp(groups: seq<seq<Call>>, cfg: Settings)
    requires forall g <- groups :: g != []
    ensures AddUp(groups, cfg)
  {
    if groups == [] {
      NoShares(cfg);
    } else {
      var init, g := groups[..|groups| - 1], groups[|groups| - 1];
      assert groups == init + [g] && g in groups && forall h <- init :: h in groups;
      hide AddUp;
      SharesAddUp(init, cfg);
      MoreShares(init, g, cfg);
    }
  }
}
